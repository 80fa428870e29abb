/** The funding arithmetic of the plan tools: the funding gap
    `max(0, price - (loan + assets))` over tolerantly coerced integers, and
    the two-bucket monthly compounding simulation with its 600-month cap
    (server/api/tools/plan_agent_tools.py). Python floats are read as exact
    reals; the model states control-flow facts, not rounded balances. */
module Funding {
  import opened Optional
  import opened Text
  import opened Values

  // ---------------------------------------------------------------------
  // Tolerant coercion
  // ---------------------------------------------------------------------

  /** `_to_int(v, default)`: `default` for None, otherwise `int(float(v))`,
      and `default` again when that raises. */
  function ToInt(v: Value, default: int): (r: int)
    ensures v.Null? ==> r == default
    ensures v.Int? ==> r == v.i
    ensures v.Float? ==> r == Trunc(v.x)
    ensures v.Str? && ParseDecimal(v.s).None? ==> r == default
    ensures v.Str? && ParseDecimal(v.s).Some? ==> r == Trunc(ParseDecimal(v.s).value)
  {
    match IntOfFloat(v)
    case None => default
    case Some(i) => i
  }

  /** `_to_float(v, default)`: `default` for None, otherwise `float(v)`, and
      `default` again when that raises. */
  function ToReal(v: Value, default: real): (r: real)
    ensures v.Null? ==> r == default
    ensures v.Int? ==> r == v.i as real
    ensures v.Float? ==> r == v.x
    ensures v.Bool? ==> r == (if v.b then 1.0 else 0.0)
    ensures v.Str? && ParseDecimal(v.s).None? ==> r == default
    ensures v.Str? && ParseDecimal(v.s).Some? ==> r == ParseDecimal(v.s).value
  {
    FloatOf(v).GetOr(default)
  }

  // ---------------------------------------------------------------------
  // calc_shortage_amount
  // ---------------------------------------------------------------------

  /** The shortage and the coerced inputs the tool echoes back. */
  datatype Shortage = Shortage(shortage: int, hopePrice: int, loanAmount: int, initialProp: int)

  /** `max(0, hope_price - (loan_amount + initial_prop))`. */
  function Gap(price: int, loan: int, assets: int): (r: int)
    ensures r >= 0
    ensures r == 0 <==> price <= loan + assets
    ensures r > 0 ==> r + loan + assets == price
  {
    if price - (loan + assets) > 0 then price - (loan + assets) else 0
  }

  /** `calc_shortage_amount(payload)`: missing or unreadable amounts count as
      0, and the tool never fails. */
  function CalcShortage(payload: map<string, Value>): (r: Shortage)
    ensures r.hopePrice == ToInt(Lookup(payload, "hope_price"), 0)
    ensures r.loanAmount == ToInt(Lookup(payload, "loan_amount"), 0)
    ensures r.initialProp == ToInt(Lookup(payload, "initial_prop"), 0)
    ensures r.shortage >= 0
    ensures r.shortage == 0 <==> r.hopePrice <= r.loanAmount + r.initialProp
    ensures r.shortage > 0 ==> r.shortage + r.loanAmount + r.initialProp == r.hopePrice
  {
    var price := ToInt(Lookup(payload, "hope_price"), 0);
    var loan := ToInt(Lookup(payload, "loan_amount"), 0);
    var assets := ToInt(Lookup(payload, "initial_prop"), 0);
    Shortage(Gap(price, loan, assets), price, loan, assets)
  }

  /** The documented example: 800M price, 400M loan, 200M assets leave a
      200M gap. */
  lemma {:induction false} ShortageExample()
    ensures CalcShortage(map["hope_price" := Int(800_000_000), "loan_amount" := Int(400_000_000),
                             "initial_prop" := Int(200_000_000)]).shortage == 200_000_000
  {
  }

  /** An amount that is missing, or a string without a digit, counts as
      nothing. */
  lemma {:induction false} UnreadableAmountIsZero(payload: map<string, Value>)
    requires "loan_amount" in payload ==> payload["loan_amount"].Str? && !HasDigit(payload["loan_amount"].s)
    ensures CalcShortage(payload).loanAmount == 0
  {
    var v := Lookup(payload, "loan_amount");
    assert v.Str? ==> ParseDecimal(v.s).None?;
  }

  /** A bigger loan never widens the gap. */
  lemma {:induction false} GapAntitone(price: int, loan1: int, loan2: int, assets: int)
    requires loan1 <= loan2
    ensures Gap(price, loan2, assets) <= Gap(price, loan1, assets)
  {
  }

  // ---------------------------------------------------------------------
  // simulate_investment
  // ---------------------------------------------------------------------

  /** The simulation's inputs after coercion. */
  datatype SimInput = SimInput(
    shortage: int,
    availableAssets: int,
    monthlyIncome: real,
    incomeUsageRatio: real,
    savingYield: real,
    fundYield: real,
    savingRatio: real,
    fundRatio: real)

  /** The month cap: 50 years. */
  const MaxMonths: nat := 600

  /** The amount invested each month. */
  function MonthlyInvest(p: SimInput): real {
    p.monthlyIncome * (p.incomeUsageRatio / 100.0)
  }

  /** The two balances (saving, fund) after `n` months: the assets are split
      by the two ratios; each month adds the ratio-split contribution to each
      bucket and then applies that bucket's monthly rate, a twelfth of its
      yearly percentage. */
  function Buckets(p: SimInput, n: nat): (b: (real, real))
  {
    if n == 0 then
      (p.availableAssets as real * p.savingRatio, p.availableAssets as real * p.fundRatio)
    else
      var prev := Buckets(p, n - 1);
      (SavingStep(p, prev.0), FundStep(p, prev.1))
  }

  /** One month of the saving bucket: add its share, then compound. */
  function SavingStep(p: SimInput, x: real): real {
    (x + MonthlyInvest(p) * p.savingRatio) * (1.0 + p.savingYield / 100.0 / 12.0)
  }

  /** One month of the fund bucket: add its share, then compound. */
  function FundStep(p: SimInput, x: real): real {
    (x + MonthlyInvest(p) * p.fundRatio) * (1.0 + p.fundYield / 100.0 / 12.0)
  }

  function Balance(p: SimInput, n: nat): real {
    Buckets(p, n).0 + Buckets(p, n).1
  }

  /** Reference definition of the months needed: the first month from `k` on
      whose balance reaches the shortage, or the cap. */
  function MonthsFrom(p: SimInput, k: nat): (m: nat)
    requires k <= MaxMonths
    ensures k <= m <= MaxMonths
    ensures m < MaxMonths ==> Balance(p, m) >= p.shortage as real
    ensures forall j :: k <= j < m ==> Balance(p, j) < p.shortage as real
    decreases MaxMonths - k
  {
    if k == MaxMonths || Balance(p, k) >= p.shortage as real then k else MonthsFrom(p, k + 1)
  }

  /** The months needed, when there is a shortage at all. */
  function MonthsNeeded(p: SimInput): (m: nat)
    ensures m <= MaxMonths
  {
    if p.shortage <= 0 then 0 else MonthsFrom(p, 0)
  }

  /** The first month that reaches the shortage is the months needed: the
      bound, the reach and the minimality pin it down. */
  lemma {:induction false} MonthsFromUnique(p: SimInput, k: nat, m: nat)
    requires k <= m <= MaxMonths
    requires m < MaxMonths ==> Balance(p, m) >= p.shortage as real
    requires forall j :: k <= j < m ==> Balance(p, j) < p.shortage as real
    ensures MonthsFrom(p, k) == m
    decreases m - k
  {
    if k < m {
      MonthsFromUnique(p, k + 1, m);
    }
  }

  /** The tool's reply. */
  datatype SimResult = SimResult(
    monthsNeeded: nat,
    totalBalance: int,
    monthlyInvest: int,
    savingRatio: real,
    fundRatio: real)

  /** `_simulate`: with no shortage it returns at once with the assets as the
      balance; otherwise it compounds month by month until the balance
      reaches the shortage or 600 months have passed. */
  method Simulate(p: SimInput) returns (r: SimResult)
    ensures p.shortage <= 0 ==> r.monthsNeeded == 0 && r.totalBalance == p.availableAssets
    ensures r.monthsNeeded <= MaxMonths
    ensures r.monthsNeeded == MonthsNeeded(p)
    ensures p.shortage > 0 && r.monthsNeeded < MaxMonths ==>
              Balance(p, r.monthsNeeded) >= p.shortage as real
    ensures p.shortage > 0 ==> forall j :: 0 <= j < r.monthsNeeded ==> Balance(p, j) < p.shortage as real
    ensures p.shortage > 0 ==> r.totalBalance == Trunc(Balance(p, r.monthsNeeded))
    ensures r.monthlyInvest == Trunc(MonthlyInvest(p))
    ensures r.savingRatio == p.savingRatio && r.fundRatio == p.fundRatio
  {
    if p.shortage <= 0 {
      return SimResult(0, p.availableAssets, Trunc(MonthlyInvest(p)), p.savingRatio, p.fundRatio);
    }
    var saving := p.availableAssets as real * p.savingRatio;
    var fund := p.availableAssets as real * p.fundRatio;
    var invest := MonthlyInvest(p);
    var total := saving + fund;
    var months: nat := 0;
    while total < p.shortage as real && months < MaxMonths
      invariant months <= MaxMonths
      invariant saving == Buckets(p, months).0 && fund == Buckets(p, months).1
      invariant total == Balance(p, months)
      invariant forall j :: 0 <= j < months ==> Balance(p, j) < p.shortage as real
      decreases MaxMonths - months
    {
      months := months + 1;
      saving := SavingStep(p, saving);
      fund := FundStep(p, fund);
      total := saving + fund;
    }
    MonthsFromUnique(p, 0, months);
    r := SimResult(months, Trunc(total), Trunc(invest), p.savingRatio, p.fundRatio);
  }

  /** A larger shortage never needs fewer months. */
  lemma {:induction false} MonthsMonotone(p: SimInput, q: SimInput)
    requires q == p.(shortage := q.shortage)
    requires 0 < p.shortage <= q.shortage
    ensures MonthsNeeded(p) <= MonthsNeeded(q)
  {
    var n := MonthsNeeded(q);
    BucketsIgnoreShortage(p, q, n);
    assert n < MaxMonths ==> Balance(p, n) >= p.shortage as real;
  }

  /** The balances do not depend on the shortage. */
  lemma {:induction false} BucketsIgnoreShortage(p: SimInput, q: SimInput, n: nat)
    requires q == p.(shortage := q.shortage)
    ensures Buckets(q, n) == Buckets(p, n)
  {
    assert q.availableAssets == p.availableAssets && q.savingRatio == p.savingRatio && q.fundRatio == p.fundRatio;
    if n > 0 {
      BucketsIgnoreShortage(p, q, n - 1);
      var b := Buckets(p, n - 1);
      StepsIgnoreShortage(p, q, b.0, b.1);
      assert Buckets(q, n) == (SavingStep(q, b.0), FundStep(q, b.1));
    } else {
      assert Buckets(q, n).0 == Buckets(p, n).0 && Buckets(q, n).1 == Buckets(p, n).1;
    }
  }

  /** One month's step does not depend on the shortage. */
  lemma {:induction false} StepsIgnoreShortage(p: SimInput, q: SimInput, x: real, y: real)
    requires q == p.(shortage := q.shortage)
    ensures SavingStep(q, x) == SavingStep(p, x) && FundStep(q, y) == FundStep(p, y)
  {
    assert q.monthlyIncome == p.monthlyIncome && q.incomeUsageRatio == p.incomeUsageRatio;
    assert MonthlyInvest(q) == MonthlyInvest(p);
    assert q.savingRatio == p.savingRatio && q.savingYield == p.savingYield;
    assert q.fundRatio == p.fundRatio && q.fundYield == p.fundYield;
  }

  /** With non-negative assets, ratios, income and yields, the balance never
      shrinks from one month to the next. */
  lemma {:induction false} BalanceGrows(p: SimInput, n: nat)
    requires p.availableAssets >= 0 && p.monthlyIncome >= 0.0 && p.incomeUsageRatio >= 0.0
    requires p.savingRatio >= 0.0 && p.fundRatio >= 0.0
    requires p.savingYield >= 0.0 && p.fundYield >= 0.0
    ensures Balance(p, n) <= Balance(p, n + 1)
  {
    BucketsNonNegative(p, n);
    var b := Buckets(p, n);
    StepsGrow(p, b.0, b.1);
  }

  /** One month never shrinks a non-negative bucket. */
  lemma {:induction false} StepsGrow(p: SimInput, x: real, y: real)
    requires p.monthlyIncome >= 0.0 && p.incomeUsageRatio >= 0.0
    requires p.savingRatio >= 0.0 && p.fundRatio >= 0.0
    requires p.savingYield >= 0.0 && p.fundYield >= 0.0
    requires x >= 0.0 && y >= 0.0
    ensures x <= SavingStep(p, x) && y <= FundStep(p, y)
  {
    var m := MonthlyInvest(p);
    assert m >= 0.0 by {
      assert p.incomeUsageRatio / 100.0 >= 0.0;
    }
    Grows(x, m * p.savingRatio, 1.0 + p.savingYield / 100.0 / 12.0);
    Grows(y, m * p.fundRatio, 1.0 + p.fundYield / 100.0 / 12.0);
  }

  lemma {:induction false} Grows(x: real, add: real, g: real)
    requires x >= 0.0 && add >= 0.0 && g >= 1.0
    ensures x <= (x + add) * g
  {
    assert (x + add) * g == (x + add) + (x + add) * (g - 1.0);
    assert (x + add) * (g - 1.0) >= 0.0;
  }

  lemma {:induction false} BucketsNonNegative(p: SimInput, n: nat)
    requires p.availableAssets >= 0 && p.monthlyIncome >= 0.0 && p.incomeUsageRatio >= 0.0
    requires p.savingRatio >= 0.0 && p.fundRatio >= 0.0
    requires p.savingYield >= 0.0 && p.fundYield >= 0.0
    ensures Buckets(p, n).0 >= 0.0 && Buckets(p, n).1 >= 0.0
  {
    if n > 0 {
      BucketsNonNegative(p, n - 1);
      var b := Buckets(p, n - 1);
      StepsGrow(p, b.0, b.1);
    } else {
      var a := p.availableAssets as real;
      assert a * p.savingRatio >= 0.0 && a * p.fundRatio >= 0.0;
    }
  }

  /** The payload read with the tool's defaults: 20% of income invested,
      3% and 6% yearly yields, and an even split. */
  function ReadSimInput(payload: map<string, Value>): (p: SimInput)
    ensures "shortage" !in payload ==> p.shortage == 0
    ensures "available_assets" !in payload ==> p.availableAssets == 0
    ensures "monthly_income" !in payload ==> p.monthlyIncome == 0.0
    ensures "income_usage_ratio" !in payload ==> p.incomeUsageRatio == 20.0
    ensures "saving_yield" !in payload ==> p.savingYield == 3.0
    ensures "fund_yield" !in payload ==> p.fundYield == 6.0
    ensures "saving_ratio" !in payload ==> p.savingRatio == 0.5
    ensures "fund_ratio" !in payload ==> p.fundRatio == 0.5
  {
    SimInput(
      ToInt(Lookup(payload, "shortage"), 0),
      ToInt(Lookup(payload, "available_assets"), 0),
      ToReal(Lookup(payload, "monthly_income"), 0.0),
      ToReal(Lookup(payload, "income_usage_ratio"), 20.0),
      ToReal(Lookup(payload, "saving_yield"), 3.0),
      ToReal(Lookup(payload, "fund_yield"), 6.0),
      ToReal(Lookup(payload, "saving_ratio"), 0.5),
      ToReal(Lookup(payload, "fund_ratio"), 0.5))
  }

  /** `simulate_investment(payload)`: the simulation on the payload read with
      its defaults. */
  method SimulateInvestment(payload: map<string, Value>) returns (r: SimResult)
    ensures r.monthsNeeded <= MaxMonths
    ensures r.monthsNeeded == MonthsNeeded(ReadSimInput(payload))
    ensures ToInt(Lookup(payload, "shortage"), 0) <= 0 ==> r.monthsNeeded == 0
    ensures "saving_ratio" !in payload ==> r.savingRatio == 0.5
  {
    r := Simulate(ReadSimInput(payload));
  }
}
