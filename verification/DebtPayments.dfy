/** Debt payments over exact reals: the annuity formula for a mortgage and the
    split of one payment into interest and principal. Money is whole minor units. */
module DebtPayments {
  import opened Numbers

  function Ceil(x: real): (c: int)
    ensures c as real - 1.0 < x <= c as real
  {
    -((-x).Floor)
  }

  function Power(q: real, n: nat): (p: real)
    requires q > 0.0
    ensures p > 0.0
  {
    if n == 0 then 1.0 else q * Power(q, n - 1)
  }

  /** `calculateMortgagePayment`, for any amount and any term of whole months
      (`termYears * 12` in the source). */
  function MortgagePayment(loanAmount: real, annualRate: real, months: int): int {
    if loanAmount <= 0.0 || months <= 0 then 0
    else Ceil(ExactPayment(loanAmount, annualRate, months))
  }

  /** The quotient that is rounded up; `Math.pow(1 + r, -n)` is a reciprocal here. */
  function ExactPayment(loan: real, annualRate: real, n: int): real
    requires n > 0
  {
    if annualRate <= 0.0 then loan / n as real
    else
      var r := annualRate / 12.0;
      AboveOne(1.0 + r, n);
      Annuity(loan, r, n)
  }

  function Annuity(loan: real, r: real, n: nat): real
    requires r > 0.0 && 1.0 / Power(1.0 + r, n) < 1.0
  {
    (loan * r) / (1.0 - 1.0 / Power(1.0 + r, n))
  }

  /** The loan after `k` months of paying `payment`, interest accruing first. */
  ghost function BalanceAfter(loan: real, r: real, payment: real, k: nat): real {
    if k == 0 then loan else BalanceAfter(loan, r, payment, k - 1) * (1.0 + r) - payment
  }

  /** The monthly rate the formula works with: a non-positive annual rate counts as zero. */
  function MonthlyRate(annualRate: real): real {
    if annualRate <= 0.0 then 0.0 else annualRate / 12.0
  }

  lemma {:induction false} AboveOne(q: real, n: nat)
    requires q > 1.0 && n > 0
    ensures Power(q, n) > 1.0
    ensures 1.0 / Power(q, n) < 1.0
  {
    if n > 1 { AboveOne(q, n - 1); }
    Reciprocal(Power(q, n));
  }

  lemma Reciprocal(p: real)
    requires p > 1.0
    ensures 1.0 / p < 1.0
  {
  }

  /** Closed form of the recurrence, multiplied by the rate to avoid a division. */
  lemma {:induction false} ClosedForm(loan: real, r: real, payment: real, k: nat)
    requires r > 0.0
    ensures BalanceAfter(loan, r, payment, k) * r
         == loan * r * Power(1.0 + r, k) - payment * (Power(1.0 + r, k) - 1.0)
  {
    if k > 0 {
      ClosedForm(loan, r, payment, k - 1);
      var b, p := BalanceAfter(loan, r, payment, k - 1), Power(1.0 + r, k - 1);
      InterestOnProduct(b, r, payment);
      ClosedFormStep(loan * r, r, payment, p);
    }
  }

  lemma InterestOnProduct(b: real, r: real, payment: real)
    ensures (b * (1.0 + r) - payment) * r == (b * r) * (1.0 + r) - payment * r
  {
  }

  lemma ClosedFormStep(i: real, r: real, payment: real, p: real)
    ensures (i * p - payment * (p - 1.0)) * (1.0 + r) - payment * r
         == i * ((1.0 + r) * p) - payment * ((1.0 + r) * p - 1.0)
  {
  }

  lemma {:induction false} ZeroRateForm(loan: real, payment: real, k: nat)
    ensures BalanceAfter(loan, 0.0, payment, k) == loan - payment * k as real
  {
    if k > 0 {
      ZeroRateForm(loan, payment, k - 1);
      assert payment * k as real == payment * (k - 1) as real + payment;
    }
  }

  /** A larger payment never leaves more debt, a positive debt after `n` months
      was positive in every month before: both from the recurrence alone. */
  lemma {:induction false} StaysPositive(loan: real, r: real, payment: real, k: nat, n: nat)
    requires k <= n && r >= 0.0 && payment >= 0.0
    requires BalanceAfter(loan, r, payment, n) > 0.0
    ensures BalanceAfter(loan, r, payment, k) > 0.0
    decreases n - k
  {
    if k < n {
      StaysPositive(loan, r, payment, k + 1, n);
      var b := BalanceAfter(loan, r, payment, k);
      assert b * (1.0 + r) > 0.0;
    }
  }

  lemma AnnuityFactor(x: real, p: real)
    requires p > 1.0 && 1.0 / p < 1.0
    ensures x * p == (x / (1.0 - 1.0 / p)) * (p - 1.0)
  {
  }

  /** Paying at least the exact annuity clears the loan, paying less does not. */
  lemma AnnuityIsThreshold(loan: real, r: real, payment: real, n: nat)
    requires r > 0.0 && n > 0 && loan > 0.0
    requires Power(1.0 + r, n) > 1.0 && 1.0 / Power(1.0 + r, n) < 1.0
    ensures BalanceAfter(loan, r, payment, n) <= 0.0 <==> payment >= Annuity(loan, r, n)
  {
    var p, a, b := Power(1.0 + r, n), Annuity(loan, r, n), BalanceAfter(loan, r, payment, n);
    ClosedForm(loan, r, payment, n);
    AnnuityFactor(loan * r, p);
    DifferenceTimes(a, payment, p - 1.0);
    SignOfProduct(b, r);
    SignOfProduct(a - payment, p - 1.0);
  }

  lemma DifferenceTimes(x: real, y: real, z: real)
    ensures x * z - y * z == (x - y) * z
  {
  }

  lemma SignOfProduct(x: real, y: real)
    requires y > 0.0
    ensures x * y <= 0.0 <==> x <= 0.0
  {
  }

  lemma ExactThreshold(loan: real, annualRate: real, n: int, payment: real)
    requires loan > 0.0 && n > 0
    ensures BalanceAfter(loan, MonthlyRate(annualRate), payment, n) <= 0.0
       <==> payment >= ExactPayment(loan, annualRate, n)
  {
    if annualRate <= 0.0 {
      ZeroRateForm(loan, payment, n);
      FlatThreshold(loan, payment, n as real);
    } else {
      AboveOne(1.0 + annualRate / 12.0, n);
      AnnuityIsThreshold(loan, annualRate / 12.0, payment, n);
    }
  }

  lemma CeilThreshold(k: int, x: real)
    ensures k as real >= x <==> k >= Ceil(x)
  {
  }

  /** A whole payment clears the loan within the term iff it reaches the computed one. */
  lemma PaymentThreshold(loanAmount: real, annualRate: real, months: int, payment: int)
    requires loanAmount > 0.0 && months > 0
    ensures var r := if annualRate <= 0.0 then 0.0 else annualRate / 12.0;
            BalanceAfter(loanAmount, r, payment as real, months) <= 0.0
            <==> payment >= MortgagePayment(loanAmount, annualRate, months)
  {
    ExactThreshold(loanAmount, annualRate, months, payment as real);
    CeilThreshold(payment, ExactPayment(loanAmount, annualRate, months));
  }

  lemma FlatThreshold(loan: real, payment: real, n: real)
    requires n > 0.0
    ensures loan - payment * n <= 0.0 <==> payment >= loan / n
  {
  }

  lemma {:induction false} UnpaidLoanGrows(loan: real, r: real, k: nat)
    requires r >= 0.0 && loan > 0.0
    ensures BalanceAfter(loan, r, 0.0, k) >= loan
  {
    if k > 0 {
      UnpaidLoanGrows(loan, r, k - 1);
      assert BalanceAfter(loan, r, 0.0, k - 1) * r >= 0.0;
    }
  }

  /** The payment is the least whole amount that clears the loan in time: it
      clears it by the last month, and one minor unit less (or any smaller
      non-negative amount) leaves debt after every month of the term. */
  lemma PaymentIsLeast(loanAmount: real, annualRate: real, months: int, less: int, month: nat)
    requires loanAmount > 0.0 && months > 0
    requires 0 <= less < MortgagePayment(loanAmount, annualRate, months)
    requires month <= months
    ensures var r := if annualRate <= 0.0 then 0.0 else annualRate / 12.0;
            var payment := MortgagePayment(loanAmount, annualRate, months);
            && BalanceAfter(loanAmount, r, payment as real, months) <= 0.0
            && BalanceAfter(loanAmount, r, less as real, month) > 0.0
  {
    PaymentThreshold(loanAmount, annualRate, months, MortgagePayment(loanAmount, annualRate, months));
    PaymentThreshold(loanAmount, annualRate, months, less);
    StaysPositive(loanAmount, MonthlyRate(annualRate), less as real, month, months);
  }

  datatype PaymentSplit = PaymentSplit(interest: int, principal: int)

  /** `calculatePaymentSplit`: interest is rounded first, principal is the rest. */
  function SplitPayment(currentBalance: int, monthlyRate: real, payment: int): PaymentSplit {
    var owed := if currentBalance < 0 then -currentBalance else currentBalance;
    var rawInterest := owed as real * monthlyRate;
    var interest := Round(if rawInterest < payment as real then rawInterest else payment as real);
    PaymentSplit(interest, if payment - interest > 0 then payment - interest else 0)
  }

  /** No minor unit is created or lost by the split, for any sign of the inputs;
      with a non-negative rate and payment both parts lie within the payment. */
  lemma SplitIsExact(currentBalance: int, monthlyRate: real, payment: int)
    ensures var s := SplitPayment(currentBalance, monthlyRate, payment);
            s.interest + s.principal == payment
    ensures monthlyRate >= 0.0 && payment >= 0 ==>
              var s := SplitPayment(currentBalance, monthlyRate, payment);
              0 <= s.interest <= payment && 0 <= s.principal <= payment
  {
  }

  /** The interest part is what has accrued on the amount owed, to the nearest minor
      unit, or the whole payment if that is less. */
  lemma InterestIsAccrued(currentBalance: int, monthlyRate: real, payment: int)
    ensures var accrued := (if currentBalance < 0 then -currentBalance else currentBalance) as real * monthlyRate;
            var interest := SplitPayment(currentBalance, monthlyRate, payment).interest;
            if accrued < payment as real then interest as real - 0.5 <= accrued < interest as real + 0.5
            else interest == payment
  {
  }

  /** Paying the principal part off leaves what the month of the recurrence leaves, to
      the nearest minor unit, as long as the payment covers the interest. */
  lemma SplitFollowsTheLoan(owed: nat, monthlyRate: real, payment: nat)
    requires monthlyRate >= 0.0 && owed as real * monthlyRate <= payment as real
    ensures var left := (owed - SplitPayment(owed, monthlyRate, payment).principal) as real;
            left - 0.5 <= BalanceAfter(owed as real, monthlyRate, payment as real, 1) < left + 0.5
  {
    InterestIsAccrued(owed, monthlyRate, payment);
    SplitIsExact(owed, monthlyRate, payment);
    MonthOf(owed as real, monthlyRate, payment as real);
  }

  lemma MonthOf(owed: real, r: real, payment: real)
    ensures BalanceAfter(owed, r, payment, 1) == owed + owed * r - payment
  {
    assert BalanceAfter(owed, r, payment, 0) == owed;
  }

  lemma NothingToPay(loanAmount: real, annualRate: real, months: int)
    requires loanAmount <= 0.0 || months <= 0
    ensures MortgagePayment(loanAmount, annualRate, months) == 0
  {
  }

  /** A payment that does not exceed the accrued interest pays no principal at
      all, so the recurrence makes no progress; a larger one pays some exactly
      when it exceeds the rounded interest. */
  lemma PrincipalIsPaidIffAboveInterest(currentBalance: nat, monthlyRate: real, payment: nat)
    requires monthlyRate >= 0.0
    ensures SplitPayment(currentBalance, monthlyRate, payment).principal > 0
       <==> payment > Round(currentBalance as real * monthlyRate)
  {
  }
}
