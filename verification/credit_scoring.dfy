/** The borrower credit score of app/helper.py: a closed-form integer formula. */
module CreditScoring {

  const BaseScore := 500
  /** Income points are income divided by this, rounded down. */
  const IncomeUnit := 1000
  /** The income factor saturates here (the code caps at 200 although its comment says 100). */
  const IncomeCap := 200
  const PointsPerEmploymentYear := 10
  const EmploymentCap := 50
  const PreviousLoansPenalty := 50

  function Min(a: int, b: int): int { if a <= b then a else b }

  /** Income factor: whole thousands of income, capped at 200.
      Python's `//` with a positive divisor rounds down, as Dafny's `/` does,
      also for a negative income. */
  function IncomeScore(income: int): (points: int)
    ensures points <= IncomeCap
    ensures points == IncomeCap <==> income >= IncomeCap * IncomeUnit
    ensures points < IncomeCap ==> points * IncomeUnit <= income < points * IncomeUnit + IncomeUnit
  {
    Min(income / IncomeUnit, IncomeCap)
  }

  /** Employment factor: ten points per year, capped at 50. */
  function EmploymentScore(employmentYears: int): (points: int)
    ensures points <= EmploymentCap
    ensures points == EmploymentCap <==> employmentYears >= 5
    ensures points < EmploymentCap ==> points == employmentYears * PointsPerEmploymentYear
  {
    Min(employmentYears * PointsPerEmploymentYear, EmploymentCap)
  }

  function Penalty(hasPreviousLoans: bool): (points: int)
    ensures points == 0 || points == PreviousLoansPenalty
    ensures points == PreviousLoansPenalty <==> hasPreviousLoans
  {
    if hasPreviousLoans then PreviousLoansPenalty else 0
  }

  /** calculate_credit_score: base, plus the two capped factors, minus the penalty. */
  function CalculateCreditScore(income: int, employmentYears: int, hasPreviousLoans: bool): (score: int)
    ensures score <= BaseScore + IncomeCap + EmploymentCap
    ensures income >= 0 && employmentYears >= 0 ==> 450 <= score <= 750
    ensures score - BaseScore + Penalty(hasPreviousLoans) == IncomeScore(income) + EmploymentScore(employmentYears)
  {
    BaseScore + IncomeScore(income) + EmploymentScore(employmentYears) - Penalty(hasPreviousLoans)
  }

  /** Income beyond 200000 and employment beyond five years earn nothing more. */
  lemma Saturation(income: int, employmentYears: int, hasPreviousLoans: bool)
    ensures income >= 200000 ==>
      CalculateCreditScore(income, employmentYears, hasPreviousLoans)
        == CalculateCreditScore(200000, employmentYears, hasPreviousLoans)
    ensures employmentYears >= 5 ==>
      CalculateCreditScore(income, employmentYears, hasPreviousLoans)
        == CalculateCreditScore(income, 5, hasPreviousLoans)
  {
  }

  /** Having previous loans costs exactly 50 points, all else equal. */
  lemma PreviousLoansCostFifty(income: int, employmentYears: int)
    ensures CalculateCreditScore(income, employmentYears, true)
      == CalculateCreditScore(income, employmentYears, false) - 50
  {
  }

  /** The score never decreases when income or tenure grows. */
  lemma Monotone(income1: int, income2: int, years1: int, years2: int, hasPreviousLoans: bool)
    requires income1 <= income2 && years1 <= years2
    ensures CalculateCreditScore(income1, years1, hasPreviousLoans)
      <= CalculateCreditScore(income2, years2, hasPreviousLoans)
  {
  }

  /** The two worked examples of the scoring rule. */
  lemma Examples()
    ensures CalculateCreditScore(150000, 5, false) == 700
    ensures CalculateCreditScore(15000, 1, true) == 475
  {
  }
}
