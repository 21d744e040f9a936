# Loan marketplace decision logic, in Dafny

A model of the decision logic of a small loan-marketplace backend (borrowers apply
for loans, investors fund them, repayments are tracked), with proofs of what it
promises. Four pieces are modelled:

- **Credit scoring** (`credit_scoring.dfy`, module `CreditScoring`): the closed-form
  score `500 + min(income div 1000, 200) + min(10 * years, 50) - (50 if previous loans)`.
  The code caps the income factor at 200, although the comment beside it says
  "0-100 points"; the model follows the code. Python's `//` with the positive divisor
  1000 rounds down, as Dafny's `/` does, so negative incomes agree too.
- **Domain entities** (`models.py` → `models.dfy`, module `Models`): the loan and
  investment status enums, the entity exceptions, borrower eligibility, a loan
  accepting or rejecting an investment, investor debit and credit, investment amount
  validation, the approve/reject state machine, and repayment validation against
  the remaining amount. `Decimal` amounts are exact integers (cents). The object graph
  (loan ↔ investment ↔ investor) is one `World`: the loan, the investor, and the
  investments by id, with the loan holding the id of its attached investment.
  Operations that raise after mutating return a `Step`: the world as the call left
  it plus the exception raised, if any.
- **Application services** (`services.py` → `services.dfy`, module `Services`): the
  ordered first-failure-wins eligibility chain of `apply_for_loan` and the
  score-then-store `create_borrower`. The loan repository is a sequence of loans;
  the per-status count query is either an input map (a missing key counts as 0) or
  derived from that sequence.
- **Configuration helpers** (`config.py` → `config.dfy`, module `Config`): the
  `postgres://` scheme rewrite and the API host/port rule.

`wrappers.dfy` holds the `Option`, `Result` and `Outcome` types used in place of
exceptions.

Two quirks of the code are modelled as written:

- `approve` has no rollback (models.py:125-126). It sets ACTIVE before asking the loan to accept. When the
  loan refuses, LoanAlreadyFunded is raised and the investment stays ACTIVE
  (`Models.SecondApprovalStrandedActive`).
- `reject` marks the investment REJECTED before asking the loan to reject (models.py:131-133, 71-77). The loan
  only reopens when its attached investment is still pending. So rejecting the
  attached investment leaves the loan FUNDED (`Models.RejectingAttachedKeepsLoanFunded`).
  In any world reached through approve and reject alone, the attached investment is
  ACTIVE (`Models.Linked`). There the reopening branch never fires
  (`Models.RejectNeverReopensLinkedLoan`).

`services.py` imports `InsufficientCreditScoreError` from `models.py`, which does not
define it (models.py:24-33). The model gives that outcome its own error constructor,
`Services.InsufficientCreditScore`.

## Model

| member | source | states |
|---|---|---|
| CreditScoring.IncomeScore | project/app/helper.py:22 | the income factor is at most 200, is 200 exactly when income ≥ 200000, and below the cap is the whole number of thousands in the income |
| CreditScoring.EmploymentScore | project/app/helper.py:24 | the tenure factor is at most 50, is 50 exactly when years ≥ 5, and below the cap is ten points per year |
| CreditScoring.Penalty | project/app/helper.py:26 | the previous-loans deduction is 50 exactly when the borrower has previous loans, else 0 |
| CreditScoring.CalculateCreditScore | project/app/helper.py:20-27 | the score is base 500 plus the income and tenure factors minus the penalty; it never exceeds 750, and for non-negative inputs it lies in [450, 750] |
| CreditScoring.Saturation | project/app/helper.py:22-24 | any income ≥ 200000 scores as 200000 does; any tenure ≥ 5 years scores as 5 does |
| CreditScoring.PreviousLoansCostFifty | project/app/helper.py:26-27 | with all else equal, previous loans lower the score by exactly 50 |
| CreditScoring.Monotone | project/app/helper.py:22-24 | the score never decreases as income or tenure grows |
| CreditScoring.Examples | project/app/helper.py:20-27 | income 150000, 5 years, no previous loans scores 700; income 15000, 1 year, previous loans scores 475 |
| Models.CanCreateLoan | project/app/models.py:43-44 | a borrower may open a loan iff their credit score is at least 600 |
| Models.CanAcceptInvestment | project/app/models.py:58-63 | the loan accepts an offer only when it is ACTIVE with nothing attached and the offer equals its amount, and always accepts such an offer |
| Models.CanInvest | project/app/models.py:87-88 | investing is allowed iff the debit leaves a non-negative balance |
| Models.NewLoan | project/app/models.py:48-56 | a new loan keeps the given id, borrower, amount, purpose and term, is ACTIVE with no investment, and so can accept an investment of its own amount |
| Models.NewInvestment | project/app/models.py:102-113 | a new investment keeps the given id, investor, loan and amount, and is PENDING_APPROVAL with no repayments |
| Models.AcceptInvestment | project/app/models.py:58-69 | accepting succeeds iff the loan is ACTIVE, has no investment and the amounts match; success attaches the investment and marks FUNDED with all else kept; failure raises LoanAlreadyFunded |
| Models.AcceptInvestmentOnlyOnce | project/app/models.py:58-69 | after one successful accept, every further accept raises LoanAlreadyFunded |
| Models.Invest | project/app/models.py:87-95 | invest raises InsufficientFunds iff funds < amount; on success funds drop by exactly the amount and stay ≥ 0, identity unchanged |
| Models.Refund | project/app/models.py:97-98 | refund raises the funds by exactly the amount, identity unchanged |
| Models.InvestThenRefund | project/app/models.py:90-98 | a refund of a successful investment restores the investor exactly |
| Models.ValidateInvestmentAmount | project/app/models.py:115-120 | validation fails with InvalidInvestmentAmount iff the investment amount differs from the loan amount |
| Models.ValidationMatchesLoanGuard | project/app/models.py:58-120 | on a loan open for funding, amount validation passes iff the loan would accept the investment |
| Models.RepaidTotal | project/app/models.py:137 | the left-to-right sum of repayments is non-negative, and at least the first repayment, when no repayment is negative |
| Models.RepaidTotalConcat | project/app/models.py:137 | the repaid total of two histories put together is the sum of their totals |
| Models.RemainingAmount | project/app/models.py:135-137 | what remains plus what was repaid is the investment amount; with no repayments the whole amount remains; with non-negative repayments it never exceeds the amount |
| Models.ValidateRepayment | project/app/models.py:147-151 | a repayment fails with the ValueError iff it plus the repayments so far exceeds the investment amount; one equal to the remaining amount passes |
| Models.ValidatedHistoryPassesEachCheck | project/app/models.py:147-151 | a history counts as validated exactly when every repayment passed the repayment check against the repayments before it |
| Models.RemainingShrinksTowardZero | project/app/models.py:135-151 | when each non-negative repayment was validated on arrival, the amount owed after more repayments is never larger and never negative |
| Models.RejectInvestment | project/app/models.py:71-77 | when the attached investment is pending, the loan is reopened (ACTIVE, nothing attached) with every other field kept; otherwise it is untouched; investor and investments never change |
| Models.Approve | project/app/models.py:122-126 | from any status but PENDING_APPROVAL it raises the invalid-state error and changes nothing; from PENDING_APPROVAL the investment becomes ACTIVE whatever happens next, and the loan is FUNDED with it attached iff the loan could accept it, otherwise LoanAlreadyFunded is raised with the loan unchanged |
| Models.Reject | project/app/models.py:128-133 | from any status but PENDING_APPROVAL it raises the invalid-state error and changes nothing; from PENDING_APPROVAL the investment becomes REJECTED, the investor gains exactly its amount with every other field kept, and the loan reopens (only status and attachment change) only if a different, still pending investment is attached; otherwise the loan is untouched |
| Models.NoSecondDecisionAfterApprove | project/app/models.py:122-133 | after an approve, whatever its outcome, a second approve or a reject raises the invalid-state error and changes nothing |
| Models.NoSecondDecisionAfterReject | project/app/models.py:122-133 | after a reject, approve and reject both raise the invalid-state error and change nothing |
| Models.SecondApprovalStrandedActive | project/app/models.py:122-126 | approving two pending matching investments funds the loan with the first, raises LoanAlreadyFunded for the second and leaves both ACTIVE |
| Models.RejectingAttachedKeepsLoanFunded | project/app/models.py:128-133 | rejecting the attached pending investment marks it REJECTED but leaves the loan FUNDED with it attached |
| Models.ApprovePreservesInvariants | project/app/models.py:122-126 | approve keeps the object references consistent and the attached investment ACTIVE |
| Models.RejectPreservesInvariants | project/app/models.py:128-133 | reject keeps the object references consistent and the attached investment ACTIVE |
| Models.RejectNeverReopensLinkedLoan | project/app/models.py:71-77 | when the attached investment is ACTIVE, reject never changes the loan |
| Models.FreshWorldInvariants | project/app/models.py:48-56 | a loan with nothing attached, with any investments filed under their own ids that link this loan and this investor, satisfies both invariants |
| Services.ApplyForLoan | project/app/services.py:78-119 | accept iff score ≥ 600, no defaulted loans, funded+repaying < 2 and pending < 4; the checks run in that order and the first failure picks the error; on accept the loan id is returned and the loan is added to the store exactly once, the old store kept as a prefix |
| Services.PaidCountIgnored | project/app/services.py:98-114 | the PAID count never changes the outcome |
| Services.MissingStatusIsZero | project/app/services.py:98-111 | a status missing from the count map decides as an explicit 0 |
| Services.RuleBoundaries | project/app/services.py:98-114 | for score 700: one defaulted loan rejects; one funded loan accepts; funded+repaying = 2 rejects; 3 pending accept; 4 pending reject |
| Services.ApplyForLoanFromStore | project/app/services.py:95-119 | with the counts taken from the borrower's stored loans, accept iff score ≥ 600, no defaulted loans, funded+repaying < 2 and pending < 4; on accept the loan id is returned and the loan appended; the first failing rule, in the order score, defaulted, funded+repaying, pending, picks its error |
| Services.CountsByStatus | project/app/repository.py:74-86 | the derived count map lists only statuses that occur, each with the number of the borrower's stored loans in that status |
| Services.CountAfterAppend | project/app/services.py:117 | storing one loan raises only its own status's count, and only for its own borrower |
| Services.AcceptanceKeepsPortfolioWithinPolicy | project/app/services.py:78-119 | after an accepted application of a new ACTIVE loan, the borrower has no defaulted loans, under two funded or repaying loans and at most four pending ones |
| Services.CreateBorrower | project/app/services.py:52-75 | given an id no stored borrower has, registration stores exactly one new borrower with that id and the computed score, keeps stored ids distinct, returns that id and score, and for non-negative inputs the score is in [450, 750] |
| Services.FreshBorrowerMayApply | project/app/services.py:62-92 | a newly registered borrower with no loans is accepted iff their score is ≥ 600; with no previous loans and 5+ years, iff income ≥ 50000 |
| Config.SanitizeDbUrl | project/app/config.py:32-38 | a URL starting with postgres:// becomes postgresql+asyncpg:// plus the rest; any other URL is returned unchanged; the result never starts with postgres:// |
| Config.SanitizeIdempotent | project/app/config.py:32-38 | sanitizing twice is the same as sanitizing once |
| Config.NatToDecimal | project/app/config.py:29 | the port text is a non-empty string of decimal digits with no leading zero |
| Config.DecimalRoundTrip | project/app/config.py:29 | the port text reads back as the port number |
| Config.ApiPort | project/app/config.py:27-28 | the port is 8000 iff the host is localhost, and 80 otherwise |
| Config.ApiUrl | project/app/config.py:26-29 | with no host set the URL is http://localhost:8000; with host localhost the same; with any other host it is http:// + host + :80 |
| Config.ApiUrlEndsWithPort | project/app/config.py:26-29 | the URL is http:// + host + : followed by digits that read back as the chosen port |

## Left out

- Logging, `async`/`await`, session commits and the SQL behind the repositories: persistence is a sequence or a count map, and atomicity is the database's concern.
- Timestamps (`created_at`, `paid_at`) are omitted because they come from the clock. Identifiers are abstract naturals supplied by the caller. The class-level `uuid4()` defaults, which share one id across instances, are not replicated.
- Transitions into PAID, DEFAULTED, REPAYING or COMPLETED: the code has none.
- `get_borrowers` and `create_investor` are left out: they only hand an object to the repository and hold no logic.
- `get_settings` and `get_db_url`: they read the environment, cache global state and round-trip through `urlparse`.
- The pydantic DTOs, HTTP routing and the mapping of errors to status codes.
- `create_borrower` returns the id itself, not `str(id)`.
- The world holds one loan and one investor. Investments by several investors in one loan, or one investor across several loans, are not expressible. `Models.Reject` refunds the world's investor; that is the investment's own investor only under `Models.Wf`.
- `str.replace(old, new, 1)` is modelled only where `sanitize_db_url` calls it, on a string that starts with `old`, where it rewrites that prefix.
- Services.CreateBorrower: requires an id no stored borrower has, standing in for a freshly generated UUID.
- Models.RemainingShrinksTowardZero: assumes a non-negative investment amount and non-negative repayments, which the code does not check.
- Services.AcceptanceKeepsPortfolioWithinPolicy: covers only a new loan in status ACTIVE, as the constructor builds it; `apply_for_loan` itself accepts a loan object in any status.
