/** The domain entities of app/models.py and their state transitions.

    Amounts (Python `Decimal`) are only added, subtracted and compared, so they are
    held exactly as integers of cents. Identifiers are abstract naturals supplied by
    the caller. The Python object graph (a loan points at its investment, the
    investment points back at the loan and at its investor) is modelled as one
    `World` holding the loan, the investor and the investments by id. */
module Models {
  import opened Wrappers

  /** An exact amount of money, in cents. */
  type Money = int

  datatype LoanStatus = Active | Funded | Repaying | Paid | Defaulted

  datatype InvestmentStatus = PendingApproval | Active | Rejected | Completed

  /** The message-distinguished `ValueError`s raised by the entities. */
  datatype ValueErrorReason = ApproveNotPending | RejectNotPending | RepaymentExceedsRemaining

  /** The exceptions the entities raise. */
  datatype DomainError =
    | InsufficientFunds
    | InvalidInvestmentAmount
    | LoanAlreadyFunded
    | ValueError(reason: ValueErrorReason)

  const MinimumCreditScore := 600

  datatype Borrower = Borrower(id: nat, name: string, email: string, creditScore: int)

  /** Borrower.can_create_loan: a borrower may open a loan exactly when their score reaches 600. */
  function CanCreateLoan(b: Borrower): (ok: bool)
    ensures ok <==> b.creditScore >= 600
  {
    b.creditScore >= MinimumCreditScore
  }

  /** A loan; `investment` is the id of the attached investment, if any. */
  datatype Loan = Loan(
    id: nat,
    borrower: Borrower,
    amount: Money,
    purpose: string,
    termMonths: int,
    status: LoanStatus,
    investment: Option<nat>)

  /** Loan.can_accept_investment: only an ACTIVE loan with nothing attached accepts,
      and only its exact amount. */
  function CanAcceptInvestment(loan: Loan, offered: Money): (ok: bool)
    ensures ok ==> loan.status == LoanStatus.Active && loan.investment == None
    ensures ok ==> offered == loan.amount
    ensures loan.status == LoanStatus.Active && loan.investment == None && offered == loan.amount ==> ok
  {
    loan.status == LoanStatus.Active && loan.investment.None? && offered == loan.amount
  }

  /** A loan as the constructor builds it: ACTIVE, with nothing attached. */
  function NewLoan(id: nat, borrower: Borrower, amount: Money, purpose: string, termMonths: int): (loan: Loan)
    ensures loan.id == id && loan.borrower == borrower && loan.amount == amount
    ensures loan.purpose == purpose && loan.termMonths == termMonths
    ensures loan.status == LoanStatus.Active && loan.investment.None?
    ensures CanAcceptInvestment(loan, amount)
  {
    Loan(id, borrower, amount, purpose, termMonths, LoanStatus.Active, None)
  }

  datatype Investor = Investor(id: nat, name: string, email: string, availableFunds: Money)

  /** Investor.can_invest: allowed exactly when the debit leaves a non-negative balance. */
  function CanInvest(investor: Investor, amount: Money): (ok: bool)
    ensures ok <==> investor.availableFunds - amount >= 0
  {
    investor.availableFunds >= amount
  }

  datatype Repayment = Repayment(id: nat, investment: nat, amount: Money)

  /** An investment; `investor` and `loan` are the ids of the parties it links. */
  datatype Investment = Investment(
    id: nat,
    investor: nat,
    loan: nat,
    amount: Money,
    status: InvestmentStatus,
    repayments: seq<Repayment>)

  /** An investment as the constructor builds it: pending approval, nothing repaid. */
  function NewInvestment(id: nat, investor: nat, loan: nat, amount: Money): (inv: Investment)
    ensures inv.id == id && inv.investor == investor && inv.loan == loan && inv.amount == amount
    ensures inv.status == PendingApproval && inv.repayments == []
  {
    Investment(id, investor, loan, amount, PendingApproval, [])
  }

  // ---------------------------------------------------------------------------
  // Loan

  /** Loan.accept_investment: attach and mark FUNDED, or raise LoanAlreadyFunded. */
  function AcceptInvestment(loan: Loan, inv: Investment): (r: Result<Loan, DomainError>)
    ensures r.Success? <==>
      loan.status == LoanStatus.Active && loan.investment.None? && inv.amount == loan.amount
    ensures r.Success? ==>
      r.value.status == LoanStatus.Funded && r.value.investment == Some(inv.id)
      && r.value.amount == loan.amount && r.value.borrower == loan.borrower && r.value.id == loan.id
      && r.value.purpose == loan.purpose && r.value.termMonths == loan.termMonths
    ensures r.Failure? ==> r.error == LoanAlreadyFunded
  {
    if !CanAcceptInvestment(loan, inv.amount) then
      Failure(LoanAlreadyFunded)
    else
      Success(loan.(investment := Some(inv.id), status := LoanStatus.Funded))
  }

  /** Once a loan has accepted an investment, it accepts no other (nor the same one again). */
  lemma AcceptInvestmentOnlyOnce(loan: Loan, first: Investment, second: Investment)
    requires AcceptInvestment(loan, first).Success?
    ensures AcceptInvestment(AcceptInvestment(loan, first).value, second) == Failure(LoanAlreadyFunded)
  {
  }

  // ---------------------------------------------------------------------------
  // Investor

  /** Investor.invest: debit, or raise InsufficientFunds when the balance is short. */
  function Invest(investor: Investor, amount: Money): (r: Result<Investor, DomainError>)
    ensures r.Failure? <==> investor.availableFunds < amount
    ensures r.Failure? ==> r.error == InsufficientFunds
    ensures r.Success? ==>
      r.value.availableFunds + amount == investor.availableFunds && r.value.availableFunds >= 0
      && r.value.id == investor.id && r.value.name == investor.name && r.value.email == investor.email
  {
    if !CanInvest(investor, amount) then
      Failure(InsufficientFunds)
    else
      Success(investor.(availableFunds := investor.availableFunds - amount))
  }

  /** Investor.refund: credit unconditionally. */
  function Refund(investor: Investor, amount: Money): (r: Investor)
    ensures r.availableFunds - amount == investor.availableFunds
    ensures r.id == investor.id && r.name == investor.name && r.email == investor.email
  {
    investor.(availableFunds := investor.availableFunds + amount)
  }

  /** A refund of what was just invested restores the investor exactly. */
  lemma InvestThenRefund(investor: Investor, amount: Money)
    requires Invest(investor, amount).Success?
    ensures Refund(Invest(investor, amount).value, amount) == investor
  {
  }

  // ---------------------------------------------------------------------------
  // Investment amount and repayments

  /** Investment.validate_amount: the investment must cover the loan exactly. */
  function ValidateInvestmentAmount(inv: Investment, loan: Loan): (r: Outcome<DomainError>)
    ensures r.Fail? <==> inv.amount != loan.amount
    ensures r.Fail? ==> r.error == InvalidInvestmentAmount
  {
    if inv.amount != loan.amount then Fail(InvalidInvestmentAmount) else Pass
  }

  /** On a loan still open for funding, amount validation and the loan's own guard agree. */
  lemma ValidationMatchesLoanGuard(inv: Investment, loan: Loan)
    requires loan.status == LoanStatus.Active && loan.investment.None?
    ensures ValidateInvestmentAmount(inv, loan).Pass? <==> AcceptInvestment(loan, inv).Success?
  {
  }

  /** Sum of repayment amounts, added left to right as Python's `sum` does. */
  function RepaidTotal(reps: seq<Repayment>): (total: Money)
    ensures (forall k | 0 <= k < |reps| :: reps[k].amount >= 0) ==> total >= 0
    ensures |reps| > 0 && (forall k | 0 <= k < |reps| :: reps[k].amount >= 0) ==> total >= reps[0].amount
  {
    if |reps| == 0 then 0 else RepaidTotal(reps[..|reps| - 1]) + reps[|reps| - 1].amount
  }

  /** Summing a concatenation sums the parts: the repaid total is additive. */
  lemma {:induction false} RepaidTotalConcat(a: seq<Repayment>, b: seq<Repayment>)
    ensures RepaidTotal(a + b) == RepaidTotal(a) + RepaidTotal(b)
    decreases |b|
  {
    if |b| == 0 {
      assert a + b == a;
    } else {
      assert (a + b)[..|a + b| - 1] == a + b[..|b| - 1];
      RepaidTotalConcat(a, b[..|b| - 1]);
    }
  }

  /** Investment.remaining_amount: the investment amount less everything repaid. */
  function RemainingAmount(inv: Investment): (remaining: Money)
    ensures remaining + RepaidTotal(inv.repayments) == inv.amount
    ensures inv.repayments == [] ==> remaining == inv.amount
    ensures (forall k | 0 <= k < |inv.repayments| :: inv.repayments[k].amount >= 0) ==> remaining <= inv.amount
  {
    inv.amount - RepaidTotal(inv.repayments)
  }

  /** Repayment.validate_amount: a repayment may not exceed what is still owed. */
  function ValidateRepayment(rep: Repayment, inv: Investment): (r: Outcome<DomainError>)
    ensures r.Fail? <==> rep.amount + RepaidTotal(inv.repayments) > inv.amount
    ensures r.Fail? ==> r.error == ValueError(RepaymentExceedsRemaining)
  {
    if rep.amount > RemainingAmount(inv) then Fail(ValueError(RepaymentExceedsRemaining)) else Pass
  }

  /** Every repayment in `reps` was validated against the repayments before it. */
  ghost predicate ValidatedHistory(amount: Money, reps: seq<Repayment>)
  {
    forall k | 0 <= k < |reps| :: reps[k].amount + RepaidTotal(reps[..k]) <= amount
  }

  /** A validated history is exactly one in which every repayment passed
      ValidateRepayment against an investment holding the repayments before it. */
  lemma ValidatedHistoryPassesEachCheck(amount: Money, reps: seq<Repayment>)
    ensures ValidatedHistory(amount, reps) <==>
      forall k | 0 <= k < |reps| ::
        ValidateRepayment(reps[k], Investment(0, 0, 0, amount, PendingApproval, reps[..k])).Pass?
  {
  }

  /** With non-negative repayments each validated on arrival, the amount still owed
      never grows and never drops below zero: after `i` repayments it lies between
      what was owed after `j <= i` repayments and zero. */
  lemma {:induction false} RemainingShrinksTowardZero(amount: Money, reps: seq<Repayment>, i: nat, j: nat)
    requires amount >= 0 && ValidatedHistory(amount, reps)
    requires forall k | 0 <= k < |reps| :: reps[k].amount >= 0
    requires j <= i <= |reps|
    ensures 0 <= amount - RepaidTotal(reps[..i]) <= amount - RepaidTotal(reps[..j])
    decreases i - j
  {
    if i == 0 {
      assert reps[..i] == [];
    } else {
      assert reps[..i][..i - 1] == reps[..i - 1];
      assert RepaidTotal(reps[..i]) == RepaidTotal(reps[..i - 1]) + reps[i - 1].amount;
    }
    if j < i {
      assert reps[..j + 1][..j] == reps[..j];
      assert RepaidTotal(reps[..j + 1]) == RepaidTotal(reps[..j]) + reps[j].amount;
      RemainingShrinksTowardZero(amount, reps, i, j + 1);
    }
  }

  // ---------------------------------------------------------------------------
  // The object graph and the approve/reject state machine

  /** One loan, one investor, and the investments by id. */
  datatype World = World(loan: Loan, investor: Investor, investments: map<nat, Investment>)

  /** The state after a call, whether or not it raised; `raised` is the exception, if any. */
  datatype Step = Step(world: World, raised: Option<DomainError>)

  /** The references of the object graph line up: every investment sits under its own
      id and links this loan and this investor, and the attached investment exists. */
  ghost predicate Wf(w: World)
  {
    && (forall id | id in w.investments ::
          w.investments[id].id == id && w.investments[id].loan == w.loan.id
          && w.investments[id].investor == w.investor.id)
    && (w.loan.investment.Some? ==> w.loan.investment.value in w.investments)
  }

  /** The attached investment exists and is still pending approval. */
  predicate AttachedPending(w: World)
  {
    && w.loan.investment.Some?
    && w.loan.investment.value in w.investments
    && w.investments[w.loan.investment.value].status == PendingApproval
  }

  /** Loan.reject_investment: detach and reopen the loan only when the attached
      investment is still pending; otherwise leave the loan as it is. */
  function RejectInvestment(w: World): (w': World)
    ensures w'.investor == w.investor && w'.investments == w.investments
    ensures AttachedPending(w) ==> w'.loan == w.loan.(investment := None, status := LoanStatus.Active)
    ensures AttachedPending(w) ==> w'.loan.status == LoanStatus.Active && w'.loan.investment.None?
    ensures !AttachedPending(w) ==> w'.loan == w.loan
  {
    if AttachedPending(w) then
      w.(loan := w.loan.(investment := None, status := LoanStatus.Active))
    else
      w
  }

  /** Investment.approve: only from PENDING_APPROVAL. The status becomes ACTIVE before
      the loan is asked to accept, and is not rolled back if the loan refuses. */
  function Approve(w: World, id: nat): (s: Step)
    requires id in w.investments
    ensures w.investments[id].status != PendingApproval ==>
      s == Step(w, Some(ValueError(ApproveNotPending)))
    ensures w.investments[id].status == PendingApproval ==>
      && s.world.investments == w.investments[id := w.investments[id].(status := InvestmentStatus.Active)]
      && s.world.investor == w.investor
      && (s.raised.None? <==> CanAcceptInvestment(w.loan, w.investments[id].amount))
    ensures s.raised.None? ==>
      s.world.loan == w.loan.(status := LoanStatus.Funded, investment := Some(w.investments[id].id))
    ensures s.raised.Some? ==> s.world.loan == w.loan
    ensures s.raised.Some? && w.investments[id].status == PendingApproval ==>
      s.raised == Some(LoanAlreadyFunded)
  {
    var inv := w.investments[id];
    if inv.status != PendingApproval then
      Step(w, Some(ValueError(ApproveNotPending)))
    else
      var activated := inv.(status := InvestmentStatus.Active);
      var w1 := w.(investments := w.investments[id := activated]);
      match AcceptInvestment(w1.loan, activated)
      case Failure(e) => Step(w1, Some(e))
      case Success(funded) => Step(w1.(loan := funded), None)
  }

  /** Investment.reject: only from PENDING_APPROVAL. The status becomes REJECTED, the
      investor is refunded the full amount, then the loan is asked to reject. */
  function Reject(w: World, id: nat): (s: Step)
    requires id in w.investments
    ensures w.investments[id].status != PendingApproval ==>
      s == Step(w, Some(ValueError(RejectNotPending)))
    ensures w.investments[id].status == PendingApproval ==>
      && s.raised.None?
      && s.world.investments == w.investments[id := w.investments[id].(status := Rejected)]
      && s.world.investor == w.investor.(availableFunds := w.investor.availableFunds + w.investments[id].amount)
      && s.world.investor.availableFunds - w.investments[id].amount == w.investor.availableFunds
    ensures w.investments[id].status == PendingApproval ==>
      if w.loan.investment.Some? && w.loan.investment.value != id && AttachedPending(w) then
        s.world.loan == w.loan.(investment := None, status := LoanStatus.Active)
      else
        s.world.loan == w.loan
  {
    var inv := w.investments[id];
    if inv.status != PendingApproval then
      Step(w, Some(ValueError(RejectNotPending)))
    else
      var w1 := w.(investments := w.investments[id := inv.(status := Rejected)]);
      var w2 := w1.(investor := Refund(w1.investor, inv.amount));
      Step(RejectInvestment(w2), None)
  }

  /** Whatever the first approve did, a second approve or a reject of the same
      investment raises the invalid-state error and changes nothing. */
  lemma NoSecondDecisionAfterApprove(w: World, id: nat)
    requires id in w.investments
    ensures id in Approve(w, id).world.investments
    ensures var w' := Approve(w, id).world;
      && Approve(w', id) == Step(w', Some(ValueError(ApproveNotPending)))
      && Reject(w', id) == Step(w', Some(ValueError(RejectNotPending)))
  {
  }

  /** REJECTED is terminal: neither approve nor reject goes through afterwards. */
  lemma NoSecondDecisionAfterReject(w: World, id: nat)
    requires id in w.investments
    ensures id in Reject(w, id).world.investments
    ensures var w' := Reject(w, id).world;
      && Approve(w', id) == Step(w', Some(ValueError(ApproveNotPending)))
      && Reject(w', id) == Step(w', Some(ValueError(RejectNotPending)))
  {
  }

  /** No rollback: of two pending investments matching an open loan, approving both
      funds the loan with the first, raises LoanAlreadyFunded for the second, and
      still leaves the second ACTIVE. */
  lemma SecondApprovalStrandedActive(w: World, first: nat, second: nat)
    requires Wf(w)
    requires first in w.investments && second in w.investments && first != second
    requires w.investments[first].status == PendingApproval
    requires w.investments[second].status == PendingApproval
    requires CanAcceptInvestment(w.loan, w.investments[first].amount)
    ensures var s1 := Approve(w, first);
      && s1.raised.None?
      && s1.world.loan.status == LoanStatus.Funded && s1.world.loan.investment == Some(first)
      && second in s1.world.investments
      && var s2 := Approve(s1.world, second);
        && s2.raised == Some(LoanAlreadyFunded)
        && s2.world.loan == s1.world.loan
        && s2.world.investments[first].status == InvestmentStatus.Active
        && s2.world.investments[second].status == InvestmentStatus.Active
  {
  }

  /** Rejecting the very investment that is attached (one that was attached while still
      pending) leaves the loan FUNDED: the status flips to REJECTED before the loan looks. */
  lemma RejectingAttachedKeepsLoanFunded(w: World, id: nat)
    requires id in w.investments
    requires w.investments[id].status == PendingApproval
    requires w.loan.investment == Some(id) && w.loan.status == LoanStatus.Funded
    ensures Reject(w, id).raised.None?
    ensures Reject(w, id).world.loan.status == LoanStatus.Funded
    ensures Reject(w, id).world.loan.investment == Some(id)
    ensures Reject(w, id).world.investments[id].status == Rejected
  {
  }

  /** The attached investment, if any, exists and is ACTIVE. */
  ghost predicate Linked(w: World)
  {
    w.loan.investment.Some? ==>
      w.loan.investment.value in w.investments
      && w.investments[w.loan.investment.value].status == InvestmentStatus.Active
  }

  /** Approve keeps the references and the link invariant. */
  lemma ApprovePreservesInvariants(w: World, id: nat)
    requires id in w.investments && Wf(w) && Linked(w)
    ensures Wf(Approve(w, id).world) && Linked(Approve(w, id).world)
  {
  }

  /** Reject keeps the references and the link invariant. */
  lemma RejectPreservesInvariants(w: World, id: nat)
    requires id in w.investments && Wf(w) && Linked(w)
    ensures Wf(Reject(w, id).world) && Linked(Reject(w, id).world)
  {
  }

  /** In any world reached through approve and reject alone, reject never reopens the
      loan: the attached investment is ACTIVE, so the reset in reject_investment is dead. */
  lemma RejectNeverReopensLinkedLoan(w: World, id: nat)
    requires id in w.investments && Linked(w)
    ensures Reject(w, id).world.loan == w.loan
  {
  }

  /** A loan with nothing attached, and any investments filed under their own ids that
      link this loan and this investor, satisfy both invariants. */
  lemma FreshWorldInvariants(loan: Loan, investor: Investor, investments: map<nat, Investment>)
    requires loan.investment.None?
    requires forall id | id in investments ::
      investments[id].id == id && investments[id].loan == loan.id && investments[id].investor == investor.id
    ensures Wf(World(loan, investor, investments)) && Linked(World(loan, investor, investments))
  {
  }
}
