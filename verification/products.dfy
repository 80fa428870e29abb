/** The two product-recommendation tools of the plan service
    (server/api/tools/plan_agent_tools.py): the deposit and saving filter,
    which keeps the products a user qualifies for and returns the three best
    rates of each kind, and the fund selector, which keeps the best fund of
    each risk level and lists them by expected return. Loading the CSV and
    JSON files is not modelled: the tools' record lists are inputs. */
module Products {
  import opened Optional
  import opened Text
  import opened Values
  import opened Ranking

  // ---------------------------------------------------------------------
  // filter_top_savings_products
  // ---------------------------------------------------------------------

  /** One row of the deposit and saving table, with the columns the filter
      reads. */
  datatype Product = Product(
    name: string,
    productType: string,
    minAge: int,
    firstCustomerOnly: bool,
    minTerm: int,
    maxTerm: int,
    maxRate: real)

  const DepositType := "예금"
  const SavingType := "적금"

  /** The user's age, whether they are a first-time customer, and the goal
      period in months. */
  datatype Criteria = Criteria(age: int, isFirstCustomer: bool, period: int)

  /** The criteria read from `user_data`: `int(age or 0)`,
      `bool(is_first_customer)` with `True` when the key is absent, and
      `int(period_goal_months or 12)`; None when an `int()` raises, which
      fails the whole tool. */
  function ReadCriteria(user: map<string, Value>): (r: Option<Criteria>)
    ensures "age" !in user && "period_goal_months" !in user && "is_first_customer" !in user ==>
              r == Some(Criteria(0, true, 12))
    ensures r.Some? ==> r.value.isFirstCustomer == ("is_first_customer" !in user || Truthy(user["is_first_customer"]))
    ensures r.Some? ==> Some(r.value.age) == IntOf(OrElse(Lookup(user, "age"), Int(0)))
    ensures r.Some? ==> Some(r.value.period) == IntOf(OrElse(Lookup(user, "period_goal_months"), Int(12)))
  {
    var first := "is_first_customer" !in user || Truthy(user["is_first_customer"]);
    match (IntOf(OrElse(Lookup(user, "age"), Int(0))), IntOf(OrElse(Lookup(user, "period_goal_months"), Int(12))))
    case (Some(age), Some(period)) => Some(Criteria(age, first, period))
    case _ => None
  }

  /** The filter's conditions: the kind, the minimum age, the first-customer
      condition (waived for first-time customers), and a term range that
      holds the goal period. */
  predicate Eligible(p: Product, c: Criteria, kind: string) {
    && p.productType == kind
    && p.minAge <= c.age
    && (c.isFirstCustomer || !p.firstCustomerOnly)
    && p.minTerm <= c.period <= p.maxTerm
  }

  /** The rows that pass the filter, in table order. */
  function Qualifying(products: seq<Product>, c: Criteria, kind: string): (r: seq<Product>)
    ensures forall k :: 0 <= k < |r| ==> Eligible(r[k], c, kind)
    ensures multiset(r) <= multiset(products)
    ensures forall p :: p in products && Eligible(p, c, kind) ==> p in r
    ensures forall p :: multiset(r)[p] == if Eligible(p, c, kind) then multiset(products)[p] else 0
  {
    if products == [] then []
    else
      var rest := Qualifying(products[1..], c, kind);
      assert products == [products[0]] + products[1..];
      assert multiset(products) == multiset{products[0]} + multiset(products[1..]);
      if Eligible(products[0], c, kind) then [products[0]] + rest else rest
  }

  /** Filtering keeps table order: the rows of two tables joined are the
      rows of each, joined. */
  lemma {:induction false} QualifyingAppend(a: seq<Product>, b: seq<Product>, c: Criteria, kind: string)
    ensures Qualifying(a + b, c, kind) == Qualifying(a, c, kind) + Qualifying(b, c, kind)
  {
    if a != [] {
      var ab := a + b;
      assert ab[0] == a[0] && ab[1..] == a[1..] + b;
      QualifyingAppend(a[1..], b, c, kind);
      var rest := Qualifying(ab[1..], c, kind);
      var qa, qb := Qualifying(a[1..], c, kind), Qualifying(b, c, kind);
      assert rest == qa + qb;
      if Eligible(a[0], c, kind) {
        assert Qualifying(ab, c, kind) == [a[0]] + rest;
        assert Qualifying(a, c, kind) == [a[0]] + qa;
        ConsAssoc(a[0], qa, qb);
      } else {
        assert Qualifying(ab, c, kind) == rest;
        assert Qualifying(a, c, kind) == qa;
      }
    } else {
      assert a + b == b;
    }
  }

  lemma {:induction false} ConsAssoc<T>(x: T, p: seq<T>, q: seq<T>)
    ensures [x] + (p + q) == ([x] + p) + q
  {
  }

  function Rate(p: Product): real {
    p.maxRate
  }

  /** The three best rates among the qualifying rows of one kind. */
  function TopThree(products: seq<Product>, c: Criteria, kind: string): (r: seq<Product>)
    ensures |r| <= 3
    ensures forall k :: 0 <= k < |r| ==> Eligible(r[k], c, kind)
  {
    var q := Qualifying(products, c, kind);
    var r := Take(SortDesc(q, Rate), 3);
    assert forall k :: 0 <= k < |r| ==> r[k] in multiset(q);
    r
  }

  /** What the top-three lists promise: at most three qualifying rows of the
      right kind, taken from the table, best rate first; all of them when
      fewer than three qualify; and no qualifying row left out has a better
      rate than the last one kept. Equal rates come in no promised order. */
  lemma {:induction false} TopThreeBest(products: seq<Product>, c: Criteria, kind: string)
    ensures SortedDesc(TopThree(products, c, kind), Rate)
    ensures multiset(TopThree(products, c, kind)) <= multiset(products)
    ensures |Qualifying(products, c, kind)| <= 3 ==>
              multiset(TopThree(products, c, kind)) == multiset(Qualifying(products, c, kind))
    ensures |Qualifying(products, c, kind)| > 3 ==> |TopThree(products, c, kind)| == 3
    ensures forall p :: p in multiset(Qualifying(products, c, kind)) - multiset(TopThree(products, c, kind)) ==>
              p.maxRate <= TopThree(products, c, kind)[2].maxRate
  {
    var q := Qualifying(products, c, kind);
    TopByKey(q, Rate, 3);
  }

  /** The tool's reply. */
  datatype SavingsReply = SavingsReply(success: bool, topDeposits: seq<Product>, topSavings: seq<Product>)

  /** `filter_top_savings_products` on a loaded table: both lists from the
      same criteria, or failure with empty lists when the criteria cannot be
      read. */
  function FilterTopSavings(user: map<string, Value>, products: seq<Product>): (r: SavingsReply)
    ensures r.success <==> ReadCriteria(user).Some?
    ensures !r.success ==> r.topDeposits == [] && r.topSavings == []
    ensures r.success ==> r.topDeposits == TopThree(products, ReadCriteria(user).value, DepositType)
    ensures r.success ==> r.topSavings == TopThree(products, ReadCriteria(user).value, SavingType)
    ensures forall k :: 0 <= k < |r.topDeposits| ==> r.topDeposits[k].productType == DepositType
    ensures forall k :: 0 <= k < |r.topSavings| ==> r.topSavings[k].productType == SavingType
  {
    match ReadCriteria(user)
    case None => SavingsReply(false, [], [])
    case Some(c) => SavingsReply(true, TopThree(products, c, DepositType), TopThree(products, c, SavingType))
  }

  /** A first-customer-only product is never offered to a returning
      customer. */
  lemma {:induction false} ReturningCustomerExcluded(products: seq<Product>, c: Criteria, kind: string, k: nat)
    requires !c.isFirstCustomer && k < |TopThree(products, c, kind)|
    ensures !TopThree(products, c, kind)[k].firstCustomerOnly
  {
  }

  // ---------------------------------------------------------------------
  // select_top_funds_by_risk
  // ---------------------------------------------------------------------

  /** The fields of a fund record the selector reads; a missing field is
      `Null`. */
  datatype Fund = Fund(
    riskLevel: Value,
    productName: Value,
    name: Value,
    expectedReturn: Value,
    description: Value)

  /** `_parse_expected_return`: None is 0; a number (a bool counts as one)
      is itself; a string is stripped, loses one trailing `%` and is
      stripped again, then read as a float, and is 0 when that fails. */
  function ParseExpectedReturn(v: Value): (r: real)
    ensures v.Null? ==> r == 0.0
    ensures v.Int? ==> r == v.i as real
    ensures v.Float? ==> r == v.x
    ensures v.Str? ==> r == ReturnText(v.s)
  {
    match v
    case Null => 0.0
    case Bool(b) => if b then 1.0 else 0.0
    case Int(i) => i as real
    case Float(x) => x
    case Str(s) => ReturnText(s)
  }

  /** The text after stripping and dropping one trailing `%`. */
  function ReturnLiteral(s: string): (r: string)
    ensures |r| <= |s|
  {
    var t := Strip(s);
    if |t| > 0 && t[|t| - 1] == '%' then Strip(t[..|t| - 1]) else t
  }

  function ReturnText(s: string): (r: real)
    ensures !HasDigit(s) ==> r == 0.0
  {
    var lit := ReturnLiteral(s);
    ReturnLiteralChars(s);
    HasDigitTransfer(lit, s);
    ParseDecimal(lit).GetOr(0.0)
  }

  lemma {:induction false} ReturnLiteralChars(s: string)
    ensures forall x :: x in ReturnLiteral(s) ==> x in s
  {
    var t := Strip(s);
    if |t| > 0 && t[|t| - 1] == '%' {
      assert forall x :: x in t[..|t| - 1] ==> x in t;
    }
  }

  /** A number followed by `%` reads as that number, as does the bare
      number: `"12%"` and `"12"` are both 12. */
  lemma {:induction false} PercentReturnRoundTrip(i: int)
    ensures ParseExpectedReturn(Str(IntToString(i) + "%")) == i as real
    ensures ParseExpectedReturn(Str(IntToString(i))) == i as real
  {
    var s := IntToString(i);
    NumeralNoSpace(i);
    NumeralNoPercent(i);
    assert s[|s| - 1] in s;
    NumeralReturn(s, i);
    PercentNumeralReturn(s, i);
  }

  lemma {:induction false} NumeralReturn(s: string, i: int)
    requires s == IntToString(i) && NoSpace(s) && s[|s| - 1] != '%'
    ensures ParseExpectedReturn(Str(s)) == i as real
  {
    DecimalRoundTrip(i);
    BareLiteral(s);
    ReturnOfLiteral(s, s, i as real);
  }

  lemma {:induction false} PercentNumeralReturn(s: string, i: int)
    requires s == IntToString(i) && NoSpace(s) && s[|s| - 1] != '%'
    ensures ParseExpectedReturn(Str(s + "%")) == i as real
  {
    DecimalRoundTrip(i);
    PercentLiteral(s);
    ReturnOfLiteral(s + "%", s, i as real);
  }

  lemma {:induction false} ReturnOfLiteral(s: string, lit: string, x: real)
    requires ReturnLiteral(s) == lit && ParseDecimal(lit) == Some(x)
    ensures ParseExpectedReturn(Str(s)) == x
  {
  }

  lemma {:induction false} PercentLiteral(s: string)
    requires NoSpace(s) && s != [] && s[|s| - 1] != '%'
    ensures ReturnLiteral(s + "%") == s
  {
    var t := s + "%";
    assert NoSpace(t);
    StripNoSpace(t);
    assert t[..|t| - 1] == s;
    StripNoSpace(s);
  }

  lemma {:induction false} BareLiteral(s: string)
    requires NoSpace(s) && s != [] && s[|s| - 1] != '%'
    ensures ReturnLiteral(s) == s
  {
    StripNoSpace(s);
  }

  /** The score the selector ranks a fund by. */
  function Score(f: Fund): real {
    ParseExpectedReturn(f.expectedReturn)
  }

  /** One entry of `best_by_risk`: a risk level and the position of its
      current best fund. */
  datatype Entry = Entry(level: Value, pos: nat)

  /** The running table, in the order the levels were first seen (dict
      order). */
  type Table = seq<Entry>

  function Levels(t: Table): (r: seq<Value>)
    ensures |r| == |t|
    ensures forall k :: 0 <= k < |t| ==> r[k] == t[k].level
  {
    if t == [] then [] else Levels(t[..|t| - 1]) + [t[|t| - 1].level]
  }

  /** The entry of `level`, if any (`best_by_risk.get(level)`). */
  function FindLevel(t: Table, level: Value): (r: Option<nat>)
    ensures r.Some? ==> r.value < |t| && t[r.value].level == level
    ensures r.None? ==> level !in Levels(t)
  {
    if t == [] then None
    else if t[|t| - 1].level == level then Some(|t| - 1)
    else
      var r := FindLevel(t[..|t| - 1], level);
      assert Levels(t) == Levels(t[..|t| - 1]) + [t[|t| - 1].level];
      r
  }

  /** One step of the loop: a fund without a truthy risk level is skipped; a
      new level is appended; a known level's entry is replaced only by a
      strictly better score. */
  function Visit(funds: seq<Fund>, t: Table, n: nat): (r: Table)
    requires n < |funds|
    requires forall k :: 0 <= k < |t| ==> t[k].pos < |funds|
    ensures forall k :: 0 <= k < |r| ==> r[k].pos < |funds|
  {
    var f := funds[n];
    if !Truthy(f.riskLevel) then t
    else
      match FindLevel(t, f.riskLevel)
      case None => t + [Entry(f.riskLevel, n)]
      case Some(k) => if Score(funds[t[k].pos]) < Score(f) then t[k := Entry(f.riskLevel, n)] else t
  }

  /** The table after the first `n` funds. */
  function Group(funds: seq<Fund>, n: nat): (t: Table)
    requires n <= |funds|
    ensures forall k :: 0 <= k < |t| ==> t[k].pos < n
  {
    if n == 0 then [] else
      var t := Group(funds, n - 1);
      var r := Visit(funds, t, n - 1);
      assert forall k :: 0 <= k < |r| ==> r[k].pos < n by {
        if Truthy(funds[n - 1].riskLevel) && FindLevel(t, funds[n - 1].riskLevel).Some? {
          assert forall k :: 0 <= k < |r| ==> r[k].pos == t[k].pos || r[k].pos == n - 1;
        }
      }
      r
  }

  /** Every entry names a fund of its own, truthy, level. */
  ghost predicate EntriesValid(funds: seq<Fund>, n: nat, t: Table)
    requires n <= |funds|
  {
    forall k :: 0 <= k < |t| ==>
      t[k].pos < n && funds[t[k].pos].riskLevel == t[k].level && Truthy(t[k].level)
  }

  /** No level has two entries. */
  ghost predicate LevelsDistinct(t: Table) {
    forall k, l :: 0 <= k < l < |t| ==> t[k].level != t[l].level
  }

  /** Every truthy level among the first `n` funds has an entry. */
  ghost predicate LevelsCovered(funds: seq<Fund>, n: nat, t: Table)
    requires n <= |funds|
  {
    forall j :: 0 <= j < n && Truthy(funds[j].riskLevel) ==> funds[j].riskLevel in Levels(t)
  }

  /** Each entry's fund scores at least as well as every fund of its level
      among the first `n`. */
  ghost predicate EntriesBest(funds: seq<Fund>, n: nat, t: Table)
    requires n <= |funds| && EntriesValid(funds, n, t)
  {
    forall k, j :: 0 <= k < |t| && 0 <= j < n && funds[j].riskLevel == t[k].level ==>
      Score(funds[j]) <= Score(funds[t[k].pos])
  }

  /** Each entry's fund scores strictly better than every earlier fund of its
      level. */
  ghost predicate EntriesFirst(funds: seq<Fund>, t: Table)
    requires forall k :: 0 <= k < |t| ==> t[k].pos < |funds|
  {
    forall k, j :: 0 <= k < |t| && 0 <= j < t[k].pos && funds[j].riskLevel == t[k].level ==>
      Score(funds[j]) < Score(funds[t[k].pos])
  }

  ghost predicate GroupFacts(funds: seq<Fund>, n: nat, t: Table)
    requires n <= |funds|
  {
    && EntriesValid(funds, n, t)
    && LevelsDistinct(t)
    && LevelsCovered(funds, n, t)
    && EntriesBest(funds, n, t)
    && EntriesFirst(funds, t)
  }

  lemma {:induction false} GroupKeepsFacts(funds: seq<Fund>, n: nat)
    requires n <= |funds|
    ensures GroupFacts(funds, n, Group(funds, n))
  {
    if n > 0 {
      GroupKeepsFacts(funds, n - 1);
      GroupStep(funds, n);
      VisitStepFacts(funds, n - 1, Group(funds, n - 1), Group(funds, n));
    }
  }

  /** The facts about a table carry over to the table one visit later. */
  lemma {:induction false} VisitStepFacts(funds: seq<Fund>, n: nat, t: Table, r: Table)
    requires n < |funds| && (forall k :: 0 <= k < |t| ==> t[k].pos < |funds|)
    requires r == Visit(funds, t, n)
    ensures GroupFacts(funds, n, t) ==> GroupFacts(funds, n + 1, r)
  {
    if GroupFacts(funds, n, t) {
      VisitKeepsFacts(funds, n, t);
    }
  }

  /** One more fund is one more visit. */
  lemma {:induction false} GroupStep(funds: seq<Fund>, n: nat)
    requires 0 < n <= |funds|
    ensures Group(funds, n) == Visit(funds, Group(funds, n - 1), n - 1)
  {
  }

  lemma {:induction false} VisitKeepsFacts(funds: seq<Fund>, n: nat, t: Table)
    requires n < |funds| && GroupFacts(funds, n, t)
    ensures GroupFacts(funds, n + 1, Visit(funds, t, n))
  {
    var f := funds[n];
    if !Truthy(f.riskLevel) {
      SkipKeepsFacts(funds, n, t);
    } else {
      match FindLevel(t, f.riskLevel)
      case None =>
        AppendKeepsFacts(funds, n, t);
      case Some(k) =>
        if Score(funds[t[k].pos]) < Score(f) {
          ReplaceKeepsFacts(funds, n, t, k);
        } else {
          KeepKeepsFacts(funds, n, t, k);
        }
    }
  }

  lemma {:induction false} SkipKeepsFacts(funds: seq<Fund>, n: nat, t: Table)
    requires n < |funds| && GroupFacts(funds, n, t) && !Truthy(funds[n].riskLevel)
    ensures GroupFacts(funds, n + 1, t)
  {
  }

  lemma {:induction false} AppendKeepsFacts(funds: seq<Fund>, n: nat, t: Table)
    requires n < |funds| && GroupFacts(funds, n, t)
    requires Truthy(funds[n].riskLevel) && funds[n].riskLevel !in Levels(t)
    ensures GroupFacts(funds, n + 1, t + [Entry(funds[n].riskLevel, n)])
  {
    var e := Entry(funds[n].riskLevel, n);
    NewLevelUnseen(funds, n, t);
    NewLevelNoEntry(t, e.level);
    AppendBest(funds, n, t);
    AppendDistinct(t, e);
    AppendCovered(funds, n, t);
    AppendFirst(funds, n, t);
  }

  lemma {:induction false} NewLevelNoEntry(t: Table, level: Value)
    requires level !in Levels(t)
    ensures forall k :: 0 <= k < |t| ==> t[k].level != level
  {
    forall k | 0 <= k < |t| ensures t[k].level != level {
      assert Levels(t)[k] == t[k].level;
    }
  }

  lemma {:induction false} AppendDistinct(t: Table, e: Entry)
    requires LevelsDistinct(t) && forall k :: 0 <= k < |t| ==> t[k].level != e.level
    ensures LevelsDistinct(t + [e])
  {
  }

  lemma {:induction false} AppendCovered(funds: seq<Fund>, n: nat, t: Table)
    requires n < |funds| && LevelsCovered(funds, n, t)
    ensures LevelsCovered(funds, n + 1, t + [Entry(funds[n].riskLevel, n)])
  {
    var t' := t + [Entry(funds[n].riskLevel, n)];
    assert Levels(t') == Levels(t) + [funds[n].riskLevel];
  }

  lemma {:induction false} AppendFirst(funds: seq<Fund>, n: nat, t: Table)
    requires n < |funds| && forall k :: 0 <= k < |t| ==> t[k].pos < |funds|
    requires EntriesFirst(funds, t)
    requires forall j :: 0 <= j < n ==> funds[j].riskLevel != funds[n].riskLevel
    ensures EntriesFirst(funds, t + [Entry(funds[n].riskLevel, n)])
  {
    var t' := t + [Entry(funds[n].riskLevel, n)];
    forall k, j | 0 <= k < |t'| && 0 <= j < t'[k].pos && funds[j].riskLevel == t'[k].level
      ensures Score(funds[j]) < Score(funds[t'[k].pos])
    {
      assert k < |t| && t'[k] == t[k];
    }
  }

  /** A level without an entry has not been seen among the first `n`. */
  lemma {:induction false} NewLevelUnseen(funds: seq<Fund>, n: nat, t: Table)
    requires n < |funds| && LevelsCovered(funds, n, t)
    requires funds[n].riskLevel !in Levels(t) && Truthy(funds[n].riskLevel)
    ensures forall j :: 0 <= j < n ==> funds[j].riskLevel != funds[n].riskLevel
  {
  }

  lemma {:induction false} AppendBest(funds: seq<Fund>, n: nat, t: Table)
    requires n < |funds| && EntriesValid(funds, n, t) && EntriesBest(funds, n, t)
    requires forall j :: 0 <= j < n ==> funds[j].riskLevel != funds[n].riskLevel
    requires forall k :: 0 <= k < |t| ==> t[k].level != funds[n].riskLevel
    requires Truthy(funds[n].riskLevel)
    ensures EntriesValid(funds, n + 1, t + [Entry(funds[n].riskLevel, n)])
    ensures EntriesBest(funds, n + 1, t + [Entry(funds[n].riskLevel, n)])
  {
    var t' := t + [Entry(funds[n].riskLevel, n)];
    forall k, j | 0 <= k < |t'| && 0 <= j < n + 1 && funds[j].riskLevel == t'[k].level
      ensures Score(funds[j]) <= Score(funds[t'[k].pos])
    {
      if k < |t| {
        assert t'[k] == t[k];
      }
    }
  }

  lemma {:induction false} ReplaceKeepsFacts(funds: seq<Fund>, n: nat, t: Table, k: nat)
    requires n < |funds| && GroupFacts(funds, n, t)
    requires k < |t| && t[k].level == funds[n].riskLevel
    requires Score(funds[t[k].pos]) < Score(funds[n])
    ensures GroupFacts(funds, n + 1, t[k := Entry(funds[n].riskLevel, n)])
  {
    ReplaceShape(funds, n, t, k);
    ReplaceBest(funds, n, t, k);
    ReplaceFirst(funds, n, t, k);
  }

  /** Replacing an entry by one of the same level keeps the set of levels. */
  lemma {:induction false} ReplaceShape(funds: seq<Fund>, n: nat, t: Table, k: nat)
    requires n < |funds| && GroupFacts(funds, n, t)
    requires k < |t| && t[k].level == funds[n].riskLevel
    ensures var t' := t[k := Entry(funds[n].riskLevel, n)];
      Levels(t') == Levels(t) && LevelsDistinct(t') && LevelsCovered(funds, n + 1, t')
  {
    var t' := t[k := Entry(funds[n].riskLevel, n)];
    ReplaceLevels(t, k, Entry(funds[n].riskLevel, n));
    assert Levels(t)[k] == funds[n].riskLevel;
  }

  lemma {:induction false} ReplaceLevels(t: Table, k: nat, e: Entry)
    requires k < |t| && t[k].level == e.level
    ensures Levels(t[k := e]) == Levels(t)
  {
    var l, l' := Levels(t), Levels(t[k := e]);
    assert forall i :: 0 <= i < |l| ==> l'[i] == l[i];
  }

  lemma {:induction false} ReplaceBest(funds: seq<Fund>, n: nat, t: Table, k: nat)
    requires n < |funds| && GroupFacts(funds, n, t)
    requires k < |t| && t[k].level == funds[n].riskLevel
    requires Score(funds[t[k].pos]) < Score(funds[n])
    ensures EntriesValid(funds, n + 1, t[k := Entry(funds[n].riskLevel, n)])
    ensures EntriesBest(funds, n + 1, t[k := Entry(funds[n].riskLevel, n)])
  {
    var t' := t[k := Entry(funds[n].riskLevel, n)];
    assert EntriesValid(funds, n + 1, t') by {
      forall l | 0 <= l < |t'|
        ensures t'[l].pos < n + 1 && funds[t'[l].pos].riskLevel == t'[l].level && Truthy(t'[l].level)
      {
        if l != k {
          assert t'[l] == t[l];
        }
      }
    }
    forall l, j | 0 <= l < |t'| && 0 <= j < n + 1 && funds[j].riskLevel == t'[l].level
      ensures Score(funds[j]) <= Score(funds[t'[l].pos])
    {
      if l == k {
        if j < n {
          assert Score(funds[j]) <= Score(funds[t[k].pos]);
        }
      } else {
        assert t'[l] == t[l] && t[l].level != t[k].level;
        assert j < n;
      }
    }
  }

  lemma {:induction false} ReplaceFirst(funds: seq<Fund>, n: nat, t: Table, k: nat)
    requires n < |funds| && GroupFacts(funds, n, t)
    requires k < |t| && t[k].level == funds[n].riskLevel
    requires Score(funds[t[k].pos]) < Score(funds[n])
    ensures EntriesFirst(funds, t[k := Entry(funds[n].riskLevel, n)])
  {
    var t' := t[k := Entry(funds[n].riskLevel, n)];
    forall l, j | 0 <= l < |t'| && 0 <= j < t'[l].pos && funds[j].riskLevel == t'[l].level
      ensures Score(funds[j]) < Score(funds[t'[l].pos])
    {
      if l == k {
        assert Score(funds[j]) <= Score(funds[t[k].pos]);
      }
    }
  }

  lemma {:induction false} KeepKeepsFacts(funds: seq<Fund>, n: nat, t: Table, k: nat)
    requires n < |funds| && GroupFacts(funds, n, t)
    requires k < |t| && t[k].level == funds[n].riskLevel
    requires Score(funds[n]) <= Score(funds[t[k].pos])
    ensures GroupFacts(funds, n + 1, t)
  {
    KeepBest(funds, n, t, k);
    KeepCovered(funds, n, t, k);
  }

  lemma {:induction false} KeepBest(funds: seq<Fund>, n: nat, t: Table, k: nat)
    requires n < |funds| && EntriesValid(funds, n, t) && EntriesBest(funds, n, t) && LevelsDistinct(t)
    requires k < |t| && t[k].level == funds[n].riskLevel
    requires Score(funds[n]) <= Score(funds[t[k].pos])
    ensures EntriesValid(funds, n + 1, t) && EntriesBest(funds, n + 1, t)
  {
    assert forall l :: 0 <= l < |t| && l != k ==> t[l].level != funds[n].riskLevel;
  }

  lemma {:induction false} KeepCovered(funds: seq<Fund>, n: nat, t: Table, k: nat)
    requires n < |funds| && LevelsCovered(funds, n, t)
    requires k < |t| && t[k].level == funds[n].riskLevel
    ensures LevelsCovered(funds, n + 1, t)
  {
    assert Levels(t)[k] == funds[n].riskLevel;
  }

  /** One recommendation line. */
  datatype Recommendation = Recommendation(
    riskLevel: Value,
    productName: Value,
    expectedReturn: Value,
    description: Value)

  /** The line for a table entry: `product_name or name`. */
  function Recommend(f: Fund): (r: Recommendation)
    ensures r.riskLevel == f.riskLevel && r.expectedReturn == f.expectedReturn
    ensures Truthy(f.productName) ==> r.productName == f.productName
    ensures !Truthy(f.productName) ==> r.productName == f.name
  {
    Recommendation(f.riskLevel, OrElse(f.productName, f.name), f.expectedReturn, f.description)
  }

  function RecommendationScore(r: Recommendation): real {
    ParseExpectedReturn(r.expectedReturn)
  }

  /** The table's lines in first-seen order. */
  function Lines(funds: seq<Fund>, t: Table): (r: seq<Recommendation>)
    requires forall k :: 0 <= k < |t| ==> t[k].pos < |funds|
    ensures |r| == |t|
    ensures forall k :: 0 <= k < |t| ==> r[k] == Recommend(funds[t[k].pos])
  {
    if t == [] then [] else Lines(funds, t[..|t| - 1]) + [Recommend(funds[t[|t| - 1].pos])]
  }

  /** The tool's reply. */
  datatype FundReply =
    | NoFunds
    | Recommended(recommendations: seq<Recommendation>, totalInputFunds: nat, uniqueRiskLevels: nat)

  /** `select_top_funds_by_risk` on a loaded fund list: an empty list fails;
      otherwise the best fund of each level, best score first. */
  function SelectTopFunds(funds: seq<Fund>): (r: FundReply)
    ensures r.NoFunds? <==> funds == []
    ensures r.Recommended? ==> r.totalInputFunds == |funds|
    ensures r.Recommended? ==> r.uniqueRiskLevels == |r.recommendations|
    ensures r.Recommended? ==>
              multiset(r.recommendations) == multiset(Lines(funds, Group(funds, |funds|)))
  {
    if funds == [] then NoFunds
    else
      var t := Group(funds, |funds|);
      Recommended(SortDesc(Lines(funds, t), RecommendationScore), |funds|, |t|)
  }

  /** What the recommendations promise: best expected return first; exactly
      one entry per risk level that some fund has, and none for a level no
      fund has; each entry's fund scores at least as well as every fund of
      its level and strictly better than every earlier one, so among equals
      the first wins; lines with equal returns keep their first-seen level
      order. */
  lemma {:induction false} SelectTopFundsBest(funds: seq<Fund>)
    requires funds != []
    ensures SortedDesc(SelectTopFunds(funds).recommendations, RecommendationScore)
    ensures GroupFacts(funds, |funds|, Group(funds, |funds|))
    ensures forall k :: WithKey(SelectTopFunds(funds).recommendations, RecommendationScore, k) ==
                        WithKey(Lines(funds, Group(funds, |funds|)), RecommendationScore, k)
  {
    GroupKeepsFacts(funds, |funds|);
    SortDescSorted(Lines(funds, Group(funds, |funds|)), RecommendationScore);
    forall k {
      SortDescStable(Lines(funds, Group(funds, |funds|)), RecommendationScore, k);
    }
  }

  /** Two funds of one level with equal scores: the first is kept. */
  lemma {:induction false} FirstOfEqualsWins(a: Fund, b: Fund)
    requires Truthy(a.riskLevel) && a.riskLevel == b.riskLevel && Score(a) == Score(b)
    ensures Group([a, b], 2) == [Entry(a.riskLevel, 0)]
  {
    assert Group([a, b], 1) == [Entry(a.riskLevel, 0)];
  }
}
