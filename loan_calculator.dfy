/**
 * The loan/tax comparison calculator: collateral sizing at 50% loan-to-value, an
 * equal-monthly-instalment (EMI) amortisation, the capital-gains tax avoided by
 * borrowing instead of selling, the net benefit, and two collateral thresholds.
 * Amounts are in rupees and are modelled as exact reals.
 */
module LoanCalculator {
  import opened JsValues

  /** 30% capital-gains tax plus 4% cess on that tax. */
  const TaxRate: real := 0.312
  /** Loan-to-value ratio at which the borrower is warned. */
  const WarningLtv: real := 0.716
  /** Loan-to-value ratio at which collateral is liquidated. */
  const LiquidationLtv: real := 0.8333
  /** The lowest annual interest rate, in percent, the rate field accepts. */
  const MinInterestRate: real := 13.5

  /** The record the calculator displays. */
  datatype LoanCalculation = LoanCalculation(
    loanAmount: real,
    collateralRequired: real,
    totalInterest: real,
    totalRepayment: real,
    taxOnSale: real,
    taxWithLoan: real,
    taxSavings: real,
    netBenefit: real,
    warningCollateral: real,
    liquidationCollateral: real)

  /** `Math.pow(b, n)` for a whole, non-negative exponent. */
  function Power(b: real, n: nat): (p: real)
    ensures b > 0.0 ==> p > 0.0
  {
    if n == 0 then 1.0 else b * Power(b, n - 1)
  }

  /** The monthly rate `interestRate / 100 / 12`: twelve months of it make the annual percentage. */
  function MonthlyRate(interestRate: real): (r: real)
    ensures r * 1200.0 == interestRate
    ensures r == 0.0 <==> interestRate == 0.0
  {
    interestRate / 100.0 / 12.0
  }


  /** The instalment and the total interest of an amortised loan. */
  datatype Amortisation = Amortisation(monthlyPayment: real, totalInterest: real)

  /**
   * The EMI `L·r·(1+r)^n / ((1+r)^n - 1)` at a positive monthly rate r. Nothing borrowed
   * means nothing to pay; otherwise the instalment exceeds the first month's interest
   * L·r, so every payment reduces the balance.
   */
  function EmiPayment(loanAmount: real, r: real, n: nat): (e: real)
    requires r > 0.0 && n >= 1
    ensures loanAmount == 0.0 ==> e == 0.0
    ensures loanAmount > 0.0 ==> e > loanAmount * r
  {
    PowerAboveOne(1.0 + r, n);
    var p := Power(1.0 + r, n);
    QuotientExceedsNumerator(loanAmount, r, p);
    loanAmount * r * p / (p - 1.0)
  }

  /**
   * The EMI computation, with its zero-rate special case. In both branches the
   * instalments add up to the loan plus the interest; a zero rate or a zero loan
   * costs no interest.
   */
  function Amortise(loanAmount: real, interestRate: real, loanTerm: nat): (a: Amortisation)
    requires interestRate >= 0.0 && loanTerm >= 1
    ensures a.monthlyPayment * loanTerm as real == loanAmount + a.totalInterest
    ensures interestRate == 0.0 ==> a.totalInterest == 0.0
    ensures loanAmount == 0.0 ==> a.monthlyPayment == 0.0 && a.totalInterest == 0.0
  {
    var r := MonthlyRate(interestRate);
    if r == 0.0 then
      QuotientTimesDivisor(loanAmount, loanTerm as real);
      Amortisation(loanAmount / loanTerm as real, 0.0)
    else
      var payment := EmiPayment(loanAmount, r, loanTerm);
      Amortisation(payment, payment * loanTerm as real - loanAmount)
  }

  /** `calculateLoan`: every figure the calculator shows, from its four inputs. */
  function CalculateLoan(loanAmount: real, capitalGains: real, loanTerm: nat, interestRate: real): (c: LoanCalculation)
    requires interestRate >= 0.0 && loanTerm >= 1
    ensures c.loanAmount == loanAmount
    ensures c.totalRepayment - c.totalInterest == loanAmount
    ensures c.taxWithLoan == 0.0 && c.taxSavings == c.taxOnSale
    ensures c.netBenefit == c.taxSavings - c.totalInterest
  {
    var collateralRequired := loanAmount * 2.0;
    var totalInterest := Amortise(loanAmount, interestRate, loanTerm).totalInterest;
    var totalRepayment := loanAmount + totalInterest;
    var taxOnSale := capitalGains * TaxRate;
    var taxWithLoan := 0.0;
    var taxSavings := taxOnSale;
    var netBenefit := taxSavings - totalInterest;
    var warningCollateral := loanAmount / WarningLtv;
    var liquidationCollateral := loanAmount / LiquidationLtv;
    LoanCalculation(loanAmount, collateralRequired, totalInterest, totalRepayment,
                    taxOnSale, taxWithLoan, taxSavings, netBenefit,
                    warningCollateral, liquidationCollateral)
  }

  // ---------------------------------------------------------------------------
  // Real-arithmetic steps, each stated with nothing else in scope

  lemma QuotientTimesDivisor(a: real, d: real)
    requires d != 0.0
    ensures (a / d) * d == a
  {
  }

  lemma CancelFactor(x: real, y: real, d: real)
    requires d != 0.0 && x * d == y * d
    ensures x == y
  {
    assert (x - y) * d == 0.0;
  }

  lemma ProductPositive(x: real, y: real)
    requires x > 0.0 && y > 0.0
    ensures x * y > 0.0
  {
  }

  lemma QuotientExceedsNumerator(l: real, r: real, p: real)
    requires r > 0.0 && p > 1.0
    ensures l == 0.0 ==> l * r * p / (p - 1.0) == 0.0
    ensures l > 0.0 ==> l * r * p / (p - 1.0) > l * r
  {
    var x := l * r;
    if l > 0.0 {
      ProductPositive(l, r);
    }
    var e := x * p / (p - 1.0);
    QuotientTimesDivisor(x * p, p - 1.0);
    assert (e - x) * (p - 1.0) == x;
  }

  lemma ScaleOrder(a: real, b: real, f: real, i1: real, i2: real)
    requires a < b && f > 0.0 && i1 == a * f && i2 == b * f
    ensures i1 < i2
  {
    ProductPositive(b - a, f);
    assert b * f - a * f == (b - a) * f;
  }

  lemma ScaleByNonNegative(l: real, f1: real, f2: real, i1: real, i2: real)
    requires l >= 0.0 && f1 <= f2 && i1 == l * f1 && i2 == l * f2
    ensures i1 <= i2
  {
    assert l * f2 - l * f1 == l * (f2 - f1);
  }

  lemma OneMonthGrowth(r: real, k: real, q: real)
    requires r > 0.0 && k == 1.0 && q == 1.0 + r
    ensures q - 1.0 < r * k * q
  {
    ProductPositive(r, r);
    assert r * k * q == r + r * r;
  }

  lemma AboveOneByMultiple(x: real, d: real, a: real)
    requires d > 0.0 && x * d == a && a > d
    ensures x > 1.0
  {
    assert (x - 1.0) * d == x * d - d;
  }

  /** One month of the balance recurrence, in the closed form multiplied through by r. */
  lemma BalanceStep(l: real, r: real, m: real, b: real, p: real)
    requires r * b == l * r * p - m * (p - 1.0)
    ensures r * (b * (1.0 + r) - m) == l * r * ((1.0 + r) * p) - m * ((1.0 + r) * p - 1.0)
  {
    calc {
      r * (b * (1.0 + r) - m);
      == (r * b) * (1.0 + r) - r * m;
      == (l * r * p - m * (p - 1.0)) * (1.0 + r) - r * m;
      == l * r * p * (1.0 + r) - m * ((p - 1.0) * (1.0 + r) + r);
      == l * r * ((1.0 + r) * p) - m * ((1.0 + r) * p - 1.0);
    }
  }

  // ---------------------------------------------------------------------------
  // Powers of a growth factor

  lemma {:induction false} PowerAboveOne(b: real, n: nat)
    requires b >= 1.0
    ensures Power(b, n) >= 1.0
    ensures b > 1.0 && n >= 1 ==> Power(b, n) > 1.0
  {
    if n > 0 {
      PowerAboveOne(b, n - 1);
      assert b * Power(b, n - 1) >= 1.0 * Power(b, n - 1);
    }
  }

  /**
   * The compound growth over n months is less than n times the monthly interest on
   * the final amount: (1+r)^n - 1 < r·n·(1+r)^n.
   */
  lemma {:induction false} GrowthBelowLinearBound(r: real, n: nat)
    requires r > 0.0 && n >= 1
    ensures Power(1.0 + r, n) - 1.0 < r * n as real * Power(1.0 + r, n)
  {
    if n == 1 {
      assert Power(1.0 + r, 1) == 1.0 + r;
      OneMonthGrowth(r, n as real, Power(1.0 + r, n));
    } else {
      var p := Power(1.0 + r, n - 1);
      GrowthBelowLinearBound(r, n - 1);
      PowerAboveOne(1.0 + r, n - 1);
      assert Power(1.0 + r, n) == p + r * p;
      var k := (n - 1) as real;
      assert p - 1.0 < r * k * p;
      ProductPositive(r * (k + 1.0), r * p);
      calc {
        Power(1.0 + r, n) - 1.0;
        == (p - 1.0) + r * p;
        <  r * k * p + r * p;
        == r * (k + 1.0) * p;
        <  r * (k + 1.0) * p + r * (k + 1.0) * (r * p);
        == r * (k + 1.0) * (p + r * p);
      }
    }
  }

  // ---------------------------------------------------------------------------
  // The instalment repays the loan

  /** Outstanding balance after k months: interest accrues monthly, then one instalment is paid. */
  function Balance(loanAmount: real, r: real, payment: real, k: nat): real {
    if k == 0 then loanAmount else Balance(loanAmount, r, payment, k - 1) * (1.0 + r) - payment
  }

  /** Closed form of the balance, multiplied through by r to avoid dividing. */
  lemma {:induction false} BalanceClosedForm(loanAmount: real, r: real, payment: real, k: nat)
    ensures r * Balance(loanAmount, r, payment, k) == loanAmount * r * Power(1.0 + r, k) - payment * (Power(1.0 + r, k) - 1.0)
  {
    if k > 0 {
      BalanceClosedForm(loanAmount, r, payment, k - 1);
      BalanceStep(loanAmount, r, payment, Balance(loanAmount, r, payment, k - 1), Power(1.0 + r, k - 1));
    }
  }

  /** Without interest, k instalments reduce the balance by k times the instalment. */
  lemma {:induction false} BalanceWithoutInterest(loanAmount: real, payment: real, k: nat)
    ensures Balance(loanAmount, 0.0, payment, k) == loanAmount - k as real * payment
  {
    if k > 0 {
      BalanceWithoutInterest(loanAmount, payment, k - 1);
    }
  }

  /** The defining equation of the EMI: payment·((1+r)^n - 1) = L·r·(1+r)^n. */
  lemma EmiEquation(loanAmount: real, r: real, n: nat)
    requires r > 0.0 && n >= 1
    ensures Power(1.0 + r, n) > 1.0
    ensures EmiPayment(loanAmount, r, n) * (Power(1.0 + r, n) - 1.0) == loanAmount * r * Power(1.0 + r, n)
  {
    PowerAboveOne(1.0 + r, n);
    QuotientTimesDivisor(loanAmount * r * Power(1.0 + r, n), Power(1.0 + r, n) - 1.0);
  }

  /**
   * The EMI is the level payment that repays the loan: after loanTerm instalments the
   * balance is exactly zero, with or without interest.
   */
  lemma EmiRepaysLoan(loanAmount: real, interestRate: real, loanTerm: nat)
    requires interestRate >= 0.0 && loanTerm >= 1
    ensures Balance(loanAmount, MonthlyRate(interestRate), Amortise(loanAmount, interestRate, loanTerm).monthlyPayment, loanTerm) == 0.0
  {
    var r := MonthlyRate(interestRate);
    var m := Amortise(loanAmount, interestRate, loanTerm).monthlyPayment;
    if r == 0.0 {
      BalanceWithoutInterest(loanAmount, m, loanTerm);
      QuotientTimesDivisor(loanAmount, loanTerm as real);
    } else {
      EmiEquation(loanAmount, r, loanTerm);
      BalanceClosedForm(loanAmount, r, m, loanTerm);
      CancelFactor(Balance(loanAmount, r, m, loanTerm), 0.0, r);
    }
  }

  /** The instalments add up to the total repayment, in both branches. */
  lemma InstalmentsSumToRepayment(loanAmount: real, capitalGains: real, loanTerm: nat, interestRate: real)
    requires interestRate >= 0.0 && loanTerm >= 1
    ensures Amortise(loanAmount, interestRate, loanTerm).monthlyPayment * loanTerm as real
            == CalculateLoan(loanAmount, capitalGains, loanTerm, interestRate).totalRepayment
  {
    if MonthlyRate(interestRate) == 0.0 {
      QuotientTimesDivisor(loanAmount, loanTerm as real);
    }
  }

  // ---------------------------------------------------------------------------
  // Interest

  /** At a zero rate no interest is charged and each instalment is an equal share of the loan. */
  lemma ZeroRateLoan(loanAmount: real, capitalGains: real, loanTerm: nat)
    requires loanTerm >= 1
    ensures Amortise(loanAmount, 0.0, loanTerm).monthlyPayment == loanAmount / loanTerm as real
    ensures CalculateLoan(loanAmount, capitalGains, loanTerm, 0.0).totalInterest == 0.0
    ensures CalculateLoan(loanAmount, capitalGains, loanTerm, 0.0).totalRepayment == loanAmount
  {
  }

  /** The interest per rupee borrowed at a positive monthly rate r over n months. */
  function InterestFactor(r: real, n: nat): real
    requires r > 0.0 && n >= 1
  {
    EmiPayment(1.0, r, n) * n as real - 1.0
  }

  /**
   * With a positive rate the interest is a fixed positive fraction of the loan, so it
   * has the sign of the loan amount and grows with it.
   */
  lemma InterestIsPositiveFraction(loanAmount: real, interestRate: real, loanTerm: nat)
    requires interestRate > 0.0 && loanTerm >= 1
    ensures Amortise(loanAmount, interestRate, loanTerm).totalInterest == loanAmount * InterestFactor(MonthlyRate(interestRate), loanTerm)
    ensures InterestFactor(MonthlyRate(interestRate), loanTerm) > 0.0
  {
    var r := MonthlyRate(interestRate);
    var e := EmiPayment(1.0, r, loanTerm);
    EmiIsLinear(loanAmount, r, loanTerm);
    InterestFactorPositive(r, loanTerm);
    assert (loanAmount * e) * loanTerm as real - loanAmount == loanAmount * (e * loanTerm as real - 1.0);
  }

  /** The EMI is linear in the loan amount. */
  lemma EmiIsLinear(loanAmount: real, r: real, n: nat)
    requires r > 0.0 && n >= 1
    ensures EmiPayment(loanAmount, r, n) == loanAmount * EmiPayment(1.0, r, n)
  {
    var p := Power(1.0 + r, n);
    var e := EmiPayment(1.0, r, n);
    EmiEquation(loanAmount, r, n);
    EmiEquation(1.0, r, n);
    assert (loanAmount * e) * (p - 1.0) == loanAmount * r * p;
    CancelFactor(EmiPayment(loanAmount, r, n), loanAmount * e, p - 1.0);
  }

  /** The interest per rupee is positive because r·n·(1+r)^n > (1+r)^n - 1. */
  lemma InterestFactorPositive(r: real, n: nat)
    requires r > 0.0 && n >= 1
    ensures InterestFactor(r, n) > 0.0
  {
    var k := n as real;
    var p := Power(1.0 + r, n);
    var e := EmiPayment(1.0, r, n);
    EmiEquation(1.0, r, n);
    GrowthBelowLinearBound(r, n);
    assert e * (p - 1.0) == r * p;
    assert (e * k) * (p - 1.0) == k * (e * (p - 1.0));
    AboveOneByMultiple(e * k, p - 1.0, r * k * p);
  }

  /** Interest is never negative for a non-negative loan, and is positive for a positive loan at a positive rate. */
  lemma InterestSign(loanAmount: real, capitalGains: real, loanTerm: nat, interestRate: real)
    requires interestRate >= 0.0 && loanTerm >= 1
    ensures loanAmount >= 0.0 ==> CalculateLoan(loanAmount, capitalGains, loanTerm, interestRate).totalInterest >= 0.0
    ensures loanAmount > 0.0 && interestRate > 0.0 ==> CalculateLoan(loanAmount, capitalGains, loanTerm, interestRate).totalInterest > 0.0
  {
    if interestRate > 0.0 {
      InterestIsPositiveFraction(loanAmount, interestRate, loanTerm);
      if loanAmount > 0.0 {
        ProductPositive(loanAmount, InterestFactor(MonthlyRate(interestRate), loanTerm));
      }
    }
  }

  /** For a one-month loan the interest is exactly one month's interest on the principal. */
  lemma OneMonthInterest(loanAmount: real, capitalGains: real, interestRate: real)
    requires interestRate > 0.0
    ensures CalculateLoan(loanAmount, capitalGains, 1, interestRate).totalInterest == loanAmount * MonthlyRate(interestRate)
  {
    var r := MonthlyRate(interestRate);
    var m := EmiPayment(loanAmount, r, 1);
    EmiEquation(loanAmount, r, 1);
    assert Power(1.0 + r, 1) == 1.0 + r;
    assert m * r == (loanAmount * (1.0 + r)) * r;
    CancelFactor(m, loanAmount * (1.0 + r), r);
  }

  /** Borrowing more costs strictly more interest at a positive rate, and needs strictly more collateral. */
  lemma LargerLoanCostsMore(a: real, b: real, capitalGains: real, loanTerm: nat, interestRate: real)
    requires interestRate >= 0.0 && loanTerm >= 1 && a < b
    ensures CalculateLoan(a, capitalGains, loanTerm, interestRate).collateralRequired
          < CalculateLoan(b, capitalGains, loanTerm, interestRate).collateralRequired
    ensures interestRate > 0.0 ==>
              (CalculateLoan(a, capitalGains, loanTerm, interestRate).totalInterest
               < CalculateLoan(b, capitalGains, loanTerm, interestRate).totalInterest)
  {
    if interestRate > 0.0 {
      InterestIsPositiveFraction(a, interestRate, loanTerm);
      InterestIsPositiveFraction(b, interestRate, loanTerm);
      var f := InterestFactor(MonthlyRate(interestRate), loanTerm);
      ScaleOrder(a, b, f, Amortise(a, interestRate, loanTerm).totalInterest, Amortise(b, interestRate, loanTerm).totalInterest);
    }
  }

  // ---------------------------------------------------------------------------
  // The rate: the instalment is the loan divided by an annuity factor that shrinks as
  // the rate grows, so a higher rate never lowers the interest

  /**
   * The value today of one rupee paid at the end of each of n months at monthly rate r:
   * the sum of (1+r)^-k for k = 1..n, built up from the last month.
   */
  function Annuity(r: real, n: nat): real
    requires r >= 0.0
  {
    if n == 0 then 0.0 else (1.0 + Annuity(r, n - 1)) / (1.0 + r)
  }

  /** a ≤ b and c ≥ d > 0 give a / c ≤ b / d, for a ≥ 0. */
  lemma QuotientOrder(a: real, b: real, c: real, d: real)
    requires 0.0 <= a <= b && c >= d > 0.0
    ensures a / c <= b / d
  {
    var x, y := a / c, b / d;
    QuotientTimesDivisor(a, c);
    QuotientTimesDivisor(b, d);
    assert x >= 0.0;
    assert x * d <= x * c;
    if x > y {
      assert x * d > y * d;
    }
  }

  /** Two reciprocals: the smaller positive number has the larger reciprocal. */
  lemma ReciprocalOrder(x1: real, a1: real, x2: real, a2: real)
    requires 0.0 < a2 <= a1 && x1 * a1 == 1.0 && x2 * a2 == 1.0
    ensures x1 <= x2
  {
    assert x1 > 0.0;
    assert x1 * a2 <= x1 * a1;
    assert (x1 - x2) * a2 <= 0.0;
  }

  lemma {:induction false} AnnuityPositive(r: real, n: nat)
    requires r >= 0.0
    ensures Annuity(r, n) >= 0.0
    ensures n >= 1 ==> Annuity(r, n) > 0.0
  {
    if n > 0 {
      AnnuityPositive(r, n - 1);
    }
  }

  /** A higher rate discounts every payment more, so the annuity factor does not grow with the rate. */
  lemma {:induction false} AnnuityShrinksWithRate(r1: real, r2: real, n: nat)
    requires 0.0 <= r1 <= r2
    ensures Annuity(r2, n) <= Annuity(r1, n)
  {
    if n > 0 {
      AnnuityShrinksWithRate(r1, r2, n - 1);
      AnnuityPositive(r2, n - 1);
      QuotientOrder(1.0 + Annuity(r2, n - 1), 1.0 + Annuity(r1, n - 1), 1.0 + r2, 1.0 + r1);
    }
  }

  /** The closed form of the annuity factor: r·(1+r)^n·a = (1+r)^n - 1. */
  lemma {:induction false} AnnuityClosedForm(r: real, n: nat)
    requires r >= 0.0
    ensures r * Power(1.0 + r, n) * Annuity(r, n) == Power(1.0 + r, n) - 1.0
  {
    if n > 0 {
      AnnuityClosedForm(r, n - 1);
      var a, p := Annuity(r, n - 1), Power(1.0 + r, n - 1);
      var an := Annuity(r, n);
      QuotientTimesDivisor(1.0 + a, 1.0 + r);
      assert an * (1.0 + r) == 1.0 + a;
      calc {
        r * Power(1.0 + r, n) * an;
        == r * p * (an * (1.0 + r));
        == r * p * (1.0 + a);
        == r * p + r * p * a;
        == (1.0 + r) * p - 1.0;
      }
    }
  }

  /** Multiplying the EMI equation through by the annuity factor. */
  lemma ScaleByAnnuity(e: real, a: real, p: real, l: real, r: real)
    requires p > 1.0 && e * (p - 1.0) == l * r * p && r * p * a == p - 1.0
    ensures e * a == l
  {
    calc {
      (e * a) * (p - 1.0);
      == (e * (p - 1.0)) * a;
      == l * (r * p * a);
      == l * (p - 1.0);
    }
    CancelFactor(e * a, l, p - 1.0);
  }

  /** n payments of the EMI are worth exactly the loan today: the EMI is the loan over the annuity factor. */
  lemma EmiTimesAnnuity(loanAmount: real, r: real, n: nat)
    requires r > 0.0 && n >= 1
    ensures Annuity(r, n) > 0.0
    ensures EmiPayment(loanAmount, r, n) * Annuity(r, n) == loanAmount
  {
    AnnuityPositive(r, n);
    AnnuityClosedForm(r, n);
    EmiEquation(loanAmount, r, n);
    ScaleByAnnuity(EmiPayment(loanAmount, r, n), Annuity(r, n), Power(1.0 + r, n), loanAmount, r);
  }

  /** The interest per rupee does not fall as the monthly rate rises. */
  lemma InterestFactorGrowsWithRate(r1: real, r2: real, n: nat)
    requires 0.0 < r1 <= r2 && n >= 1
    ensures InterestFactor(r1, n) <= InterestFactor(r2, n)
  {
    EmiTimesAnnuity(1.0, r1, n);
    EmiTimesAnnuity(1.0, r2, n);
    AnnuityShrinksWithRate(r1, r2, n);
    ReciprocalOrder(EmiPayment(1.0, r1, n), Annuity(r1, n), EmiPayment(1.0, r2, n), Annuity(r2, n));
  }

  /** A higher interest rate never lowers the total interest on a non-negative loan. */
  lemma HigherRateCostsMore(loanAmount: real, capitalGains: real, loanTerm: nat, rate1: real, rate2: real)
    requires 0.0 <= rate1 <= rate2 && loanTerm >= 1 && loanAmount >= 0.0
    ensures CalculateLoan(loanAmount, capitalGains, loanTerm, rate1).totalInterest
         <= CalculateLoan(loanAmount, capitalGains, loanTerm, rate2).totalInterest
  {
    InterestSign(loanAmount, capitalGains, loanTerm, rate2);
    if rate1 > 0.0 {
      InterestIsPositiveFraction(loanAmount, rate1, loanTerm);
      InterestIsPositiveFraction(loanAmount, rate2, loanTerm);
      var f1, f2 := InterestFactor(MonthlyRate(rate1), loanTerm), InterestFactor(MonthlyRate(rate2), loanTerm);
      InterestFactorGrowsWithRate(MonthlyRate(rate1), MonthlyRate(rate2), loanTerm);
      ScaleByNonNegative(loanAmount, f1, f2, Amortise(loanAmount, rate1, loanTerm).totalInterest, Amortise(loanAmount, rate2, loanTerm).totalInterest);
    }
  }

  // ---------------------------------------------------------------------------
  // Tax, benefit and collateral

  /** Collateral is sized at 50% loan-to-value: the loan is half of the pledged value. */
  lemma CollateralAtHalfLtv(loanAmount: real, capitalGains: real, loanTerm: nat, interestRate: real)
    requires interestRate >= 0.0 && loanTerm >= 1
    ensures CalculateLoan(loanAmount, capitalGains, loanTerm, interestRate).collateralRequired == 2.0 * loanAmount
    ensures loanAmount != 0.0 ==> loanAmount / CalculateLoan(loanAmount, capitalGains, loanTerm, interestRate).collateralRequired == 0.5
  {
  }

  /**
   * The tax avoided is 31.2% of the gains, none is paid with the loan, and the net
   * benefit is negative exactly when the interest exceeds the tax saved.
   */
  lemma TaxAndBenefit(loanAmount: real, capitalGains: real, loanTerm: nat, interestRate: real)
    requires interestRate >= 0.0 && loanTerm >= 1
    ensures CalculateLoan(loanAmount, capitalGains, loanTerm, interestRate).taxOnSale == capitalGains * 0.312
    ensures CalculateLoan(loanAmount, capitalGains, loanTerm, interestRate).taxSavings == capitalGains * 0.312
    ensures CalculateLoan(loanAmount, capitalGains, loanTerm, interestRate).netBenefit < 0.0
        <==> CalculateLoan(loanAmount, capitalGains, loanTerm, interestRate).totalInterest > capitalGains * 0.312
  {
  }

  /**
   * The thresholds are the collateral values at which the loan-to-value ratio reaches
   * 71.6% and 83.33%; for a non-negative loan the warning comes first, and both lie
   * below the collateral pledged at origination.
   */
  lemma ThresholdOrdering(loanAmount: real, capitalGains: real, loanTerm: nat, interestRate: real)
    requires interestRate >= 0.0 && loanTerm >= 1
    ensures var c := CalculateLoan(loanAmount, capitalGains, loanTerm, interestRate);
            loanAmount != 0.0 ==> loanAmount / c.warningCollateral == WarningLtv && loanAmount / c.liquidationCollateral == LiquidationLtv
    ensures var c := CalculateLoan(loanAmount, capitalGains, loanTerm, interestRate);
            loanAmount >= 0.0 ==> loanAmount <= c.liquidationCollateral <= c.warningCollateral <= c.collateralRequired
    ensures var c := CalculateLoan(loanAmount, capitalGains, loanTerm, interestRate);
            loanAmount > 0.0 ==> loanAmount < c.liquidationCollateral < c.warningCollateral < c.collateralRequired
  {
  }

  /** A one-month 20% loan of ten lakh with no gains avoided leaves a negative net benefit. */
  lemma NegativeBenefitExample()
    ensures CalculateLoan(1000000.0, 0.0, 1, 20.0).taxOnSale == 0.0
    ensures CalculateLoan(1000000.0, 0.0, 1, 20.0).netBenefit < 0.0
  {
    OneMonthInterest(1000000.0, 0.0, 20.0);
  }

  // ---------------------------------------------------------------------------
  // The input fields

  /** `value.replace(/,/g, '')`: the text with every comma removed. */
  function StripCommas(s: string): (r: string)
    ensures |r| <= |s|
    ensures forall i :: 0 <= i < |r| ==> r[i] != ','
  {
    if s == [] then []
    else if s[0] == ',' then StripCommas(s[1..])
    else [s[0]] + StripCommas(s[1..])
  }

  /** Removing commas keeps every other character, in order. */
  lemma {:induction false} StripCommasKeepsOthers(s: string, t: string)
    ensures StripCommas(s + t) == StripCommas(s) + StripCommas(t)
  {
    if s == [] {
      assert s + t == t;
    } else {
      assert (s + t)[0] == s[0];
      assert (s + t)[1..] == s[1..] + t;
      StripCommasKeepsOthers(s[1..], t);
    }
  }

  /** Text that already has no comma passes through unchanged; so stripping twice is stripping once. */
  lemma {:induction false} StripCommasIdempotent(s: string)
    ensures StripCommas(StripCommas(s)) == StripCommas(s)
  {
    var r := StripCommas(s);
    NoCommaUnchanged(r);
  }

  lemma {:induction false} NoCommaUnchanged(s: string)
    requires forall i :: 0 <= i < |s| ==> s[i] != ','
    ensures StripCommas(s) == s
  {
    if s != [] {
      NoCommaUnchanged(s[1..]);
    }
  }

  /** The events on the interest-rate field. */
  datatype RateEvent = Typed(value: JsNumber) | Blurred

  /** The rate after one event: a typed value is taken only if it is at least 13.5; blur lifts the rate to 13.5. */
  function ApplyRateEvent(rate: real, e: RateEvent): (r: real)
    ensures e.Typed? && e.value.Num? && e.value.value >= MinInterestRate ==> r == e.value.value
    ensures e.Typed? && !(e.value.Num? && e.value.value >= MinInterestRate) ==> r == rate
    ensures e.Blurred? ==> r == (if rate < MinInterestRate then MinInterestRate else rate)
  {
    match e
    case Typed(v) => if v.Num? && v.value >= MinInterestRate then v.value else rate
    case Blurred => if rate < MinInterestRate then MinInterestRate else rate
  }

  /** The rate after a sequence of events, applied in order. */
  function ApplyRateEvents(rate: real, es: seq<RateEvent>): real
    decreases |es|
  {
    if es == [] then rate else ApplyRateEvents(ApplyRateEvent(rate, es[0]), es[1..])
  }

  /** Once the rate is at its floor or above, losing focus never changes it. */
  lemma BlurKeepsValidRate(rate: real)
    requires rate >= MinInterestRate
    ensures ApplyRateEvent(rate, Blurred) == rate
  {
  }

  /** Whatever is typed and however often the field loses focus, the rate never drops below 13.5. */
  lemma {:induction false} RateFloorHolds(rate: real, es: seq<RateEvent>)
    requires rate >= MinInterestRate
    ensures ApplyRateEvents(rate, es) >= MinInterestRate
    decreases |es|
  {
    if es != [] {
      RateFloorHolds(ApplyRateEvent(rate, es[0]), es[1..]);
    }
  }

  /** The term options `1 … 12` of the select. */
  function TermOptions(): (opts: seq<int>)
    ensures |opts| == 12
    ensures forall i :: 0 <= i < |opts| ==> opts[i] == i + 1
  {
    seq(12, i => i + 1)
  }

  /**
   * The calculator's state: the four inputs and the last calculation (None while
   * the guide is shown).
   */
  class CalculatorState {
    var loanAmount: real
    var capitalGains: real
    var loanTerm: nat
    var interestRate: real
    var calculation: Option<LoanCalculation>

    /** The rate never drops below its floor and the term is one of the options. */
    ghost predicate Valid()
      reads this
    {
      interestRate >= MinInterestRate && 1 <= loanTerm <= 12
    }

    constructor ()
      ensures Valid()
      ensures loanAmount == 100000.0 && capitalGains == 50000.0
      ensures loanTerm == 12 && interestRate == 13.5 && calculation == None
    {
      loanAmount := 100000.0;
      capitalGains := 50000.0;
      loanTerm := 12;
      interestRate := 13.5;
      calculation := None;
    }

    /** A number typed into the loan text field, after its commas are removed and it is converted. */
    method OnLoanText(text: string, toNumber: string -> JsNumber)
      requires Valid()
      modifies this
      ensures Valid()
      ensures loanAmount == (match toNumber(StripCommas(text)) case Num(v) => v case NaN => old(loanAmount))
      ensures capitalGains == old(capitalGains) && loanTerm == old(loanTerm)
      ensures interestRate == old(interestRate) && calculation == old(calculation)
    {
      var val := toNumber(StripCommas(text));
      if val.Num? {
        loanAmount := val.value;
      }
    }

    /** The same rule for the capital-gains text field. */
    method OnCapitalGainsText(text: string, toNumber: string -> JsNumber)
      requires Valid()
      modifies this
      ensures Valid()
      ensures capitalGains == (match toNumber(StripCommas(text)) case Num(v) => v case NaN => old(capitalGains))
      ensures loanAmount == old(loanAmount) && loanTerm == old(loanTerm)
      ensures interestRate == old(interestRate) && calculation == old(calculation)
    {
      var val := toNumber(StripCommas(text));
      if val.Num? {
        capitalGains := val.value;
      }
    }

    /** The loan slider, which ranges over 10,000 … 10,000,000. */
    method OnLoanSlider(value: real)
      requires Valid() && 10000.0 <= value <= 10000000.0
      modifies this
      ensures Valid()
      ensures loanAmount == value && capitalGains == old(capitalGains) && loanTerm == old(loanTerm)
      ensures interestRate == old(interestRate) && calculation == old(calculation)
    {
      loanAmount := value;
    }

    /** The capital-gains slider, which ranges over 0 … 10,000,000. */
    method OnCapitalGainsSlider(value: real)
      requires Valid() && 0.0 <= value <= 10000000.0
      modifies this
      ensures Valid()
      ensures capitalGains == value && loanAmount == old(loanAmount) && loanTerm == old(loanTerm)
      ensures interestRate == old(interestRate) && calculation == old(calculation)
    {
      capitalGains := value;
    }

    /** Picking one of the term options. */
    method OnTermSelect(months: nat)
      requires Valid() && months in TermOptions()
      modifies this
      ensures Valid()
      ensures loanTerm == months && loanAmount == old(loanAmount) && capitalGains == old(capitalGains)
      ensures interestRate == old(interestRate) && calculation == old(calculation)
    {
      loanTerm := months;
    }

    /** A value typed into the rate field is kept only when it is at least 13.5 (NaN never is). */
    method OnRateInput(value: JsNumber)
      requires Valid()
      modifies this
      ensures Valid()
      ensures interestRate == ApplyRateEvent(old(interestRate), Typed(value))
      ensures loanAmount == old(loanAmount) && capitalGains == old(capitalGains)
      ensures loanTerm == old(loanTerm) && calculation == old(calculation)
    {
      if value.Num? && value.value >= MinInterestRate {
        interestRate := value.value;
      }
    }

    /**
     * Leaving the rate field lifts a rate below 13.5 to 13.5. This restores the rate
     * floor from any state; in a valid state it changes nothing (BlurKeepsValidRate).
     */
    method OnRateBlur()
      requires 1 <= loanTerm <= 12
      modifies this
      ensures Valid()
      ensures interestRate == ApplyRateEvent(old(interestRate), Blurred)
      ensures loanAmount == old(loanAmount) && capitalGains == old(capitalGains)
      ensures loanTerm == old(loanTerm) && calculation == old(calculation)
    {
      if interestRate < MinInterestRate {
        interestRate := MinInterestRate;
      }
    }

    /** "Calculate Savings": the calculation from the current inputs replaces the previous one. */
    method Calculate()
      requires Valid()
      modifies this
      ensures Valid()
      ensures calculation == Some(CalculateLoan(loanAmount, capitalGains, loanTerm, interestRate))
      ensures loanAmount == old(loanAmount) && capitalGains == old(capitalGains)
      ensures loanTerm == old(loanTerm) && interestRate == old(interestRate)
    {
      calculation := Some(CalculateLoan(loanAmount, capitalGains, loanTerm, interestRate));
    }

    /** "Show Guide": the result is dropped. */
    method ShowGuide()
      requires Valid()
      modifies this
      ensures Valid()
      ensures calculation == None
      ensures loanAmount == old(loanAmount) && capitalGains == old(capitalGains)
      ensures loanTerm == old(loanTerm) && interestRate == old(interestRate)
    {
      calculation := None;
    }
  }
}
