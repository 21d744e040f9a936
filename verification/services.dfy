/** The application services of app/services.py: borrower registration and the
    loan-eligibility rule chain. The loan repository is an abstract store (a sequence
    of loans); the per-status count query is either given as a map or derived from it. */
module Services {
  import opened Wrappers
  import opened Models
  import CreditScoring

  /** The portfolio rule an application broke. */
  datatype Rejection = HasDefaultedLoans | MaxActiveLoans | MaxPendingLoans

  /** The errors apply_for_loan raises. */
  datatype ServiceError = InsufficientCreditScore | LoanApplicationError(reason: Rejection)

  /** At most this many FUNDED plus REPAYING loans before new applications are refused. */
  const MaxActiveLoanCount := 2
  /** At most this many ACTIVE (pending) loans before new applications are refused. */
  const MaxPendingLoanCount := 4

  /** `loan_counts.get(status, 0)`: a status missing from the map counts as zero. */
  function CountOf(counts: map<LoanStatus, nat>, status: LoanStatus): nat
  {
    if status in counts then counts[status] else 0
  }

  /** apply_for_loan: check the score, then defaulted, then funded+repaying, then
      pending counts; the first failing rule decides. On acceptance the loan is
      appended to the store and its id returned. */
  function ApplyForLoan(loan: Loan, counts: map<LoanStatus, nat>, store: seq<Loan>)
    : (r: Result<(nat, seq<Loan>), ServiceError>)
    ensures r.Success? <==>
      && loan.borrower.creditScore >= 600
      && CountOf(counts, Defaulted) == 0
      && CountOf(counts, Funded) + CountOf(counts, Repaying) < 2
      && CountOf(counts, LoanStatus.Active) < 4
    ensures r.Success? ==> r.value.0 == loan.id
    ensures r.Success? ==> multiset(r.value.1) == multiset(store) + multiset{loan}
    ensures r.Success? ==> |r.value.1| == |store| + 1 && r.value.1[..|store|] == store
    ensures loan.borrower.creditScore < 600 ==> r == Failure(InsufficientCreditScore)
    ensures loan.borrower.creditScore >= 600 && CountOf(counts, Defaulted) > 0 ==>
      r == Failure(LoanApplicationError(HasDefaultedLoans))
    ensures (loan.borrower.creditScore >= 600 && CountOf(counts, Defaulted) == 0
             && CountOf(counts, Funded) + CountOf(counts, Repaying) >= 2) ==>
      r == Failure(LoanApplicationError(MaxActiveLoans))
    ensures (loan.borrower.creditScore >= 600 && CountOf(counts, Defaulted) == 0
             && CountOf(counts, Funded) + CountOf(counts, Repaying) < 2
             && CountOf(counts, LoanStatus.Active) >= 4) ==>
      r == Failure(LoanApplicationError(MaxPendingLoans))
  {
    if !CanCreateLoan(loan.borrower) then
      Failure(InsufficientCreditScore)
    else if CountOf(counts, Defaulted) > 0 then
      Failure(LoanApplicationError(HasDefaultedLoans))
    else if CountOf(counts, Funded) + CountOf(counts, Repaying) >= MaxActiveLoanCount then
      Failure(LoanApplicationError(MaxActiveLoans))
    else if CountOf(counts, LoanStatus.Active) >= MaxPendingLoanCount then
      Failure(LoanApplicationError(MaxPendingLoans))
    else
      Success((loan.id, store + [loan]))
  }

  /** The PAID count never affects the decision. */
  lemma PaidCountIgnored(loan: Loan, counts: map<LoanStatus, nat>, store: seq<Loan>, paid: nat)
    ensures ApplyForLoan(loan, counts[Paid := paid], store) == ApplyForLoan(loan, counts, store)
  {
  }

  /** A status absent from the map decides exactly as an explicit zero would. */
  lemma MissingStatusIsZero(loan: Loan, counts: map<LoanStatus, nat>, store: seq<Loan>, status: LoanStatus)
    requires status !in counts
    ensures ApplyForLoan(loan, counts[status := 0], store) == ApplyForLoan(loan, counts, store)
  {
  }

  /** The boundary cases of each portfolio rule, for a borrower scoring 700. */
  lemma RuleBoundaries(loan: Loan, store: seq<Loan>)
    requires loan.borrower.creditScore == 700
    ensures ApplyForLoan(loan, map[Defaulted := 1], store) == Failure(LoanApplicationError(HasDefaultedLoans))
    ensures ApplyForLoan(loan, map[Funded := 1], store).Success?
    ensures ApplyForLoan(loan, map[Funded := 1, Repaying := 1], store) == Failure(LoanApplicationError(MaxActiveLoans))
    ensures ApplyForLoan(loan, map[LoanStatus.Active := 3], store).Success?
    ensures ApplyForLoan(loan, map[LoanStatus.Active := 4], store) == Failure(LoanApplicationError(MaxPendingLoans))
  {
  }

  // ---------------------------------------------------------------------------
  // The count query over an abstract store

  /** Number of loans in `store` belonging to `borrowerId` with the given status. */
  function CountWithStatus(store: seq<Loan>, borrowerId: nat, status: LoanStatus): nat
  {
    if |store| == 0 then 0
    else
      var last := store[|store| - 1];
      CountWithStatus(store[..|store| - 1], borrowerId, status)
        + (if last.borrower.id == borrowerId && last.status == status then 1 else 0)
  }

  const AllLoanStatuses: set<LoanStatus> := {LoanStatus.Active, Funded, Repaying, Paid, Defaulted}

  /** get_loan_counts_by_status: a group-by over the borrower's loans, so only
      statuses that occur appear as keys. */
  function CountsByStatus(store: seq<Loan>, borrowerId: nat): (counts: map<LoanStatus, nat>)
    ensures forall s | s in counts :: counts[s] > 0
    ensures forall s | s in AllLoanStatuses :: CountOf(counts, s) == CountWithStatus(store, borrowerId, s)
  {
    map s | s in AllLoanStatuses && CountWithStatus(store, borrowerId, s) > 0
      :: CountWithStatus(store, borrowerId, s)
  }

  /** apply_for_loan against a store: counts come from the borrower's stored loans. */
  function ApplyForLoanFromStore(loan: Loan, store: seq<Loan>): (r: Result<(nat, seq<Loan>), ServiceError>)
    ensures var b := loan.borrower.id;
      r.Success? <==>
        && loan.borrower.creditScore >= 600
        && CountWithStatus(store, b, Defaulted) == 0
        && CountWithStatus(store, b, Funded) + CountWithStatus(store, b, Repaying) < 2
        && CountWithStatus(store, b, LoanStatus.Active) < 4
    ensures r.Success? ==> r.value == (loan.id, store + [loan])
    ensures loan.borrower.creditScore < 600 ==> r == Failure(InsufficientCreditScore)
    ensures loan.borrower.creditScore >= 600 && CountWithStatus(store, loan.borrower.id, Defaulted) > 0 ==>
      r == Failure(LoanApplicationError(HasDefaultedLoans))
    ensures var b := loan.borrower.id;
      (loan.borrower.creditScore >= 600 && CountWithStatus(store, b, Defaulted) == 0
       && CountWithStatus(store, b, Funded) + CountWithStatus(store, b, Repaying) >= 2) ==>
      r == Failure(LoanApplicationError(MaxActiveLoans))
    ensures var b := loan.borrower.id;
      (loan.borrower.creditScore >= 600 && CountWithStatus(store, b, Defaulted) == 0
       && CountWithStatus(store, b, Funded) + CountWithStatus(store, b, Repaying) < 2
       && CountWithStatus(store, b, LoanStatus.Active) >= 4) ==>
      r == Failure(LoanApplicationError(MaxPendingLoans))
  {
    ApplyForLoan(loan, CountsByStatus(store, loan.borrower.id), store)
  }

  /** The borrower's portfolio is within what the rules allow right after an acceptance. */
  ghost predicate WithinPolicy(store: seq<Loan>, borrowerId: nat)
  {
    && CountWithStatus(store, borrowerId, Defaulted) == 0
    && CountWithStatus(store, borrowerId, Funded) + CountWithStatus(store, borrowerId, Repaying) < MaxActiveLoanCount
    && CountWithStatus(store, borrowerId, LoanStatus.Active) <= MaxPendingLoanCount
  }

  /** Appending one loan moves only its own status's count, and only for its borrower. */
  lemma CountAfterAppend(store: seq<Loan>, loan: Loan, borrowerId: nat, status: LoanStatus)
    ensures CountWithStatus(store + [loan], borrowerId, status)
      == CountWithStatus(store, borrowerId, status)
         + (if loan.borrower.id == borrowerId && loan.status == status then 1 else 0)
  {
  }

  /** Every accepted application of a new (ACTIVE) loan leaves the applicant with no
      defaulted loans, fewer than two funded or repaying loans and at most four pending
      ones: the rules bound the portfolio they guard. */
  lemma AcceptanceKeepsPortfolioWithinPolicy(loan: Loan, store: seq<Loan>)
    requires loan.status == LoanStatus.Active
    requires ApplyForLoanFromStore(loan, store).Success?
    ensures WithinPolicy(ApplyForLoanFromStore(loan, store).value.1, loan.borrower.id)
  {
  }

  // ---------------------------------------------------------------------------
  // Borrower registration

  /** The fields of a registration request. */
  datatype BorrowerRequest = BorrowerRequest(
    name: string, email: string, income: int, employmentYears: int, hasPreviousLoans: bool)

  /** What create_borrower leaves behind: the new id, the score, and the store. */
  datatype Registration = Registration(borrowerId: nat, creditScore: int, store: seq<Borrower>)

  /** No two stored borrowers share an id. */
  ghost predicate DistinctIds(store: seq<Borrower>)
  {
    forall i, j | 0 <= i < j < |store| :: store[i].id != store[j].id
  }

  /** create_borrower: score the request, store a borrower with that score under a
      fresh id (the id generator is a parameter), and return the id and the score. */
  function CreateBorrower(req: BorrowerRequest, freshId: nat, store: seq<Borrower>): (r: Registration)
    requires forall b | b in store :: b.id != freshId
    ensures r.borrowerId == freshId
    ensures DistinctIds(store) ==> DistinctIds(r.store)
    ensures r.store == store + [Borrower(freshId, req.name, req.email, r.creditScore)]
    ensures r.creditScore - CreditScoring.BaseScore + CreditScoring.Penalty(req.hasPreviousLoans)
      == CreditScoring.IncomeScore(req.income) + CreditScoring.EmploymentScore(req.employmentYears)
    ensures req.income >= 0 && req.employmentYears >= 0 ==> 450 <= r.creditScore <= 750
  {
    var score := CreditScoring.CalculateCreditScore(req.income, req.employmentYears, req.hasPreviousLoans);
    Registration(freshId, score, store + [Borrower(freshId, req.name, req.email, score)])
  }

  /** A newly registered borrower with no loans yet may apply exactly when their score
      reaches 600; without previous loans and with five years of employment that is
      exactly an income of at least 50000. */
  lemma FreshBorrowerMayApply(req: BorrowerRequest, freshId: nat, store: seq<Borrower>,
                              loanId: nat, amount: Money, purpose: string, termMonths: int)
    requires forall b | b in store :: b.id != freshId
    ensures var r := CreateBorrower(req, freshId, store);
      var borrower := r.store[|r.store| - 1];
      var loan := NewLoan(loanId, borrower, amount, purpose, termMonths);
      && borrower.creditScore == r.creditScore
      && (ApplyForLoan(loan, map[], []).Success? <==> r.creditScore >= 600)
      && (!req.hasPreviousLoans && req.employmentYears >= 5 ==>
            (ApplyForLoan(loan, map[], []).Success? <==> req.income >= 50000))
  {
  }
}
