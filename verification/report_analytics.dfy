/** The two report calculations of server/api/tools/report_agent_tools.py:
    portfolio totals (`api_analyze_investment_profit`) and the detector of
    changes in salary, debt and credit score between two reports
    (`analyze_user_profile_changes`). Request bodies are maps from keys to
    JSON scalars; a Python exception, which the handler does not catch,
    is None. */
module ReportAnalytics {
  import opened Optional
  import opened Text
  import opened Values

  // ---------------------------------------------------------------------
  // Investment profit
  // ---------------------------------------------------------------------

  type Product = map<string, Value>

  /** The totals the tool reports; `profit_rate` is not modelled. */
  datatype Profit = Profit(totalPrincipal: int, totalValuation: int, netProfit: int, productsCount: nat)

  /** `p.get(key, 0) or 0` as a number that can be added to a running
      total: a missing or falsy value counts 0, `True` counts 1, and a
      non-empty string makes the addition raise TypeError. */
  function Amount(p: Product, key: string): (r: Option<real>)
    ensures !Truthy(Lookup(p, key)) ==> r == Some(0.0)
    ensures Lookup(p, key).Int? ==> r == Some(Lookup(p, key).i as real)
    ensures r.None? <==> Lookup(p, key).Str? && Lookup(p, key).s != ""
  {
    match OrElse(Lookup(p, key), Int(0))
    case Null => Some(0.0)
    case Bool(b) => Some(if b then 1.0 else 0.0)
    case Int(i) => Some(i as real)
    case Float(x) => Some(x)
    case Str(_) => None
  }

  /** The running totals (principal, valuation) after the loop. */
  function Totals(ps: seq<Product>): (r: Option<(real, real)>)
    ensures r.Some? ==> forall k :: 0 <= k < |ps| ==> !Unaddable(ps[k])
  {
    if ps == [] then Some((0.0, 0.0))
    else
      match (Amount(ps[0], "total_principal"), Amount(ps[0], "current_valuation"))
      case (Some(a), Some(b)) =>
        (match Totals(ps[1..])
         case None => None
         case Some(t) =>
           assert forall k :: 1 <= k < |ps| ==> ps[k] == ps[1..][k - 1];
           Some((a + t.0, b + t.1)))
      case _ => None
  }

  /** The loop raises exactly when some product holds a non-empty string
      where an amount is read. */
  predicate Unaddable(p: Product) {
    Amount(p, "total_principal").None? || Amount(p, "current_valuation").None?
  }

  lemma {:induction false} TotalsFail(ps: seq<Product>)
    ensures Totals(ps).None? <==> exists k :: 0 <= k < |ps| && Unaddable(ps[k])
  {
    if ps != [] {
      TotalsFail(ps[1..]);
      if exists k :: 0 <= k < |ps[1..]| && Unaddable(ps[1..][k]) {
        var k :| 0 <= k < |ps[1..]| && Unaddable(ps[1..][k]);
        assert ps[k + 1] == ps[1..][k];
      }
      if exists k :: 0 <= k < |ps| && Unaddable(ps[k]) {
        var k :| 0 <= k < |ps| && Unaddable(ps[k]);
        if k > 0 {
          assert ps[1..][k - 1] == ps[k];
        }
      }
    }
  }

  /** Totals add up over a split of the product list. */
  lemma {:induction false} TotalsAppend(a: seq<Product>, b: seq<Product>)
    requires Totals(a).Some? && Totals(b).Some?
    ensures Totals(a + b) == Some((Totals(a).value.0 + Totals(b).value.0, Totals(a).value.1 + Totals(b).value.1))
  {
    if a == [] {
      assert a + b == b;
    } else {
      assert (a + b)[0] == a[0] && (a + b)[1..] == a[1..] + b;
      TotalsAppend(a[1..], b);
    }
  }

  /** `api_analyze_investment_profit`: an empty list reports zeros;
      otherwise the totals are truncated with `int()` and the net profit is
      valuation minus principal. */
  function AnalyzeProfit(ps: seq<Product>): (r: Option<Profit>)
    ensures ps == [] ==> r == Some(Profit(0, 0, 0, 0))
    ensures r.Some? ==> r.value.productsCount == |ps|
    ensures ps != [] ==> (r.None? <==> Totals(ps).None?)
  {
    if ps == [] then Some(Profit(0, 0, 0, 0))
    else
      match Totals(ps)
      case None => None
      case Some((tp, tv)) => Some(Profit(Trunc(tp), Trunc(tv), Trunc(tv - tp), |ps|))
  }

  /** Whole-number amounts are added exactly, so the net profit is the
      valuation total minus the principal total. */
  lemma {:induction false} WholeAmounts(ps: seq<Product>, tp: int, tv: int)
    requires ps != [] && Totals(ps) == Some((tp as real, tv as real))
    ensures AnalyzeProfit(ps) == Some(Profit(tp, tv, tv - tp, |ps|))
  {
    var t := Totals(ps).value;
    assert t.0 == tp as real && t.1 == tv as real;
    ProfitOfTotals(ps);
    TruncWholes(tp, tv);
  }

  lemma {:induction false} TruncWholes(tp: int, tv: int)
    ensures Trunc(tp as real) == tp && Trunc(tv as real) == tv
    ensures Trunc(tv as real - tp as real) == tv - tp
  {
    TruncWhole(tp);
    TruncWhole(tv);
    TruncWhole(tv - tp);
  }

  lemma {:induction false} ProfitOfTotals(ps: seq<Product>)
    requires ps != [] && Totals(ps).Some?
    ensures var t := Totals(ps).value;
      AnalyzeProfit(ps) == Some(Profit(Trunc(t.0), Trunc(t.1), Trunc(t.1 - t.0), |ps|))
  {
  }

  lemma {:induction false} TruncWhole(i: int)
    ensures Trunc(i as real) == i
  {
  }

  /** A product without amounts adds nothing: a list of such products
      reports zero totals but still counts them. */
  lemma {:induction false} EmptyProducts(ps: seq<Product>)
    requires forall k :: 0 <= k < |ps| ==> "total_principal" !in ps[k] && "current_valuation" !in ps[k]
    ensures Totals(ps) == Some((0.0, 0.0))
  {
    if ps != [] {
      EmptyProducts(ps[1..]);
    }
  }

  /** Two products, 1,000,000 invested now worth 1,200,000 and 500,000 now
      worth 450,000, net a profit of 150,000. */
  lemma {:induction false} TwoProductsExample()
    ensures AnalyzeProfit([map["total_principal" := Int(1000000), "current_valuation" := Int(1200000)],
                           map["total_principal" := Int(500000), "current_valuation" := Int(450000)]])
            == Some(Profit(1500000, 1650000, 150000, 2))
  {
    var p1 := map["total_principal" := Int(1000000), "current_valuation" := Int(1200000)];
    var p2 := map["total_principal" := Int(500000), "current_valuation" := Int(450000)];
    var ps := [p1, p2];
    assert ps[1..] == [p2] && [p2][1..] == [];
    assert Amount(p1, "total_principal") == Some(1000000.0);
    assert Amount(p1, "current_valuation") == Some(1200000.0);
    assert Amount(p2, "total_principal") == Some(500000.0);
    assert Amount(p2, "current_valuation") == Some(450000.0);
    assert Totals([p2]) == Some((500000.0, 450000.0));
    assert Totals(ps) == Some((1500000.0, 1650000.0));
    WholeAmounts(ps, 1500000, 1650000);
  }

  // ---------------------------------------------------------------------
  // Profile changes
  // ---------------------------------------------------------------------

  type Profile = map<string, Value>

  /** The compared fields with their report labels, in report order. */
  const Fields: seq<(string, string)> := [
    ("annual_salary", "연봉"),
    ("total_debt", "총 부채"),
    ("credit_score", "신용 점수")
  ]

  /** A report line: a change, or on a first report the value recorded. The
      numbers are the ones the line prints. */
  datatype ChangeLine =
    | Changed(name: string, previous: int, current: int, diff: int)
    | FirstRecord(name: string, current: int)

  datatype ProfileReport = ProfileReport(lines: seq<ChangeLine>, isFirstReport: bool, message: Option<string>)

  const NoChangeMessage := "직전 보고서 대비 주요 개인 금융 지표(연봉, 부채, 신용 점수)의 변동 사항은 없습니다."

  predicate Tracked(key: string) {
    key == "annual_salary" || key == "total_debt" || key == "credit_score"
  }

  /** `all(v == 0 for k, v in previous_data.items() if k in [...])`: every
      tracked field the previous report has equals zero; a report without
      any of them is a first report. */
  predicate IsFirstReport(previous: Profile) {
    forall k :: k in previous && Tracked(k) ==> EqualsZero(previous[k])
  }

  /** `int(d.get(field, 0) or 0)`; None where `int()` raises. */
  function FieldValue(d: Profile, key: string): (r: Option<int>)
    ensures !Truthy(Lookup(d, key)) ==> r == Some(0)
    ensures Lookup(d, key).Int? ==> r == Some(Lookup(d, key).i)
  {
    IntOf(OrElse(Lookup(d, key), Int(0)))
  }

  /** The line one field contributes, if any. */
  function FieldLine(name: string, previous: int, current: int, first: bool): (r: seq<ChangeLine>)
    ensures |r| <= 1
    ensures !first ==> (r != [] <==> current != previous)
    ensures first ==> (r != [] <==> current != 0)
    ensures forall l :: l in r ==> l.name == name
  {
    if !first && current - previous != 0 then [Changed(name, previous, current, current - previous)]
    else if first && current != 0 then [FirstRecord(name, current)]
    else []
  }

  /** The loop over `fields`. */
  function LinesFor(current: Profile, previous: Profile, first: bool, fields: seq<(string, string)>): (r: Option<seq<ChangeLine>>)
    ensures r.Some? ==> |r.value| <= |fields|
  {
    if fields == [] then Some([])
    else
      match (FieldValue(current, fields[0].0), FieldValue(previous, fields[0].0))
      case (Some(c), Some(p)) =>
        (match LinesFor(current, previous, first, fields[1..])
         case None => None
         case Some(rest) => Some(FieldLine(fields[0].1, p, c, first) + rest))
      case _ => None
  }

  /** `analyze_user_profile_changes`. */
  function AnalyzeProfileChanges(current: Profile, previous: Profile): (r: Option<ProfileReport>)
    ensures r.Some? ==> |r.value.lines| <= 3
    ensures r.Some? ==> (r.value.message.Some? <==> r.value.lines == [])
    ensures r.Some? ==> r.value.isFirstReport == IsFirstReport(previous)
  {
    var first := IsFirstReport(previous);
    match LinesFor(current, previous, first, Fields)
    case None => None
    case Some(lines) => Some(ProfileReport(lines, first, if lines == [] then Some(NoChangeMessage) else None))
  }

  /** Fields that can be read give the lines of `FieldLine` one after the
      other; a field that cannot be read fails the whole call. */
  lemma {:induction false} LinesForSplit(current: Profile, previous: Profile, first: bool, fields: seq<(string, string)>)
    requires fields != []
    ensures LinesFor(current, previous, first, fields).Some? <==>
              FieldValue(current, fields[0].0).Some? && FieldValue(previous, fields[0].0).Some? &&
              LinesFor(current, previous, first, fields[1..]).Some?
  {
  }

  /** The report per field: whether the field has a line, and which. */
  lemma {:induction false} ProfileLines(current: Profile, previous: Profile, sal: (int, int), debt: (int, int), credit: (int, int))
    requires FieldValue(current, "annual_salary") == Some(sal.0) && FieldValue(previous, "annual_salary") == Some(sal.1)
    requires FieldValue(current, "total_debt") == Some(debt.0) && FieldValue(previous, "total_debt") == Some(debt.1)
    requires FieldValue(current, "credit_score") == Some(credit.0) && FieldValue(previous, "credit_score") == Some(credit.1)
    ensures var first := IsFirstReport(previous);
      AnalyzeProfileChanges(current, previous).Some? &&
      AnalyzeProfileChanges(current, previous).value.lines ==
        FieldLine("연봉", sal.1, sal.0, first) + FieldLine("총 부채", debt.1, debt.0, first) +
        FieldLine("신용 점수", credit.1, credit.0, first)
  {
    var first := IsFirstReport(previous);
    var l1 := FieldLine("연봉", sal.1, sal.0, first);
    var l2 := FieldLine("총 부채", debt.1, debt.0, first);
    var l3 := FieldLine("신용 점수", credit.1, credit.0, first);
    var f3 := [Fields[2]];
    var f2 := [Fields[1], Fields[2]];
    assert f3[1..] == [] && f2[1..] == f3 && Fields[1..] == f2;
    assert LinesFor(current, previous, first, []) == Some([]);
    LinesForStep(current, previous, first, f3, credit.0, credit.1);
    LinesForStep(current, previous, first, f2, debt.0, debt.1);
    LinesForStep(current, previous, first, Fields, sal.0, sal.1);
    assert l1 + (l2 + (l3 + [])) == l1 + l2 + l3;
  }

  /** One step of the loop over fields that can be read. */
  lemma {:induction false} LinesForStep(current: Profile, previous: Profile, first: bool, fields: seq<(string, string)>, c: int, p: int)
    requires fields != []
    requires FieldValue(current, fields[0].0) == Some(c) && FieldValue(previous, fields[0].0) == Some(p)
    requires LinesFor(current, previous, first, fields[1..]).Some?
    ensures LinesFor(current, previous, first, fields) ==
              Some(FieldLine(fields[0].1, p, c, first) + LinesFor(current, previous, first, fields[1..]).value)
  {
  }

  /** A failure to read any field with `int()` fails the call. */
  lemma {:induction false} UnreadableField(current: Profile, previous: Profile, k: nat)
    requires k < |Fields|
    requires FieldValue(current, Fields[k].0).None? || FieldValue(previous, Fields[k].0).None?
    ensures AnalyzeProfileChanges(current, previous).None?
  {
    var first := IsFirstReport(previous);
    LinesForFail(current, previous, first, Fields, k);
  }

  lemma {:induction false} LinesForFail(current: Profile, previous: Profile, first: bool, fields: seq<(string, string)>, k: nat)
    requires k < |fields|
    requires FieldValue(current, fields[k].0).None? || FieldValue(previous, fields[k].0).None?
    ensures LinesFor(current, previous, first, fields).None?
  {
    if k > 0 {
      LinesForFail(current, previous, first, fields[1..], k - 1);
    }
  }

  /** A previous `None` is not zero, so it makes the report a follow-up
      one, yet it is read as 0 for the difference. */
  lemma {:induction false} NullPrevious(previous: Profile)
    requires "annual_salary" in previous && previous["annual_salary"] == Null
    ensures !IsFirstReport(previous)
    ensures FieldValue(previous, "annual_salary") == Some(0)
  {
    assert Tracked("annual_salary");
  }

  /** A previous report without any tracked field counts as a first
      report. */
  lemma {:induction false} NoTrackedFields(previous: Profile)
    requires forall k :: k in previous ==> !Tracked(k)
    ensures IsFirstReport(previous)
  {
  }

  /** Nothing changed since a follow-up report: no lines, and the message. */
  lemma {:induction false} Unchanged(current: Profile, previous: Profile, sal: int, debt: int, credit: int)
    requires !IsFirstReport(previous)
    requires FieldValue(current, "annual_salary") == Some(sal) && FieldValue(previous, "annual_salary") == Some(sal)
    requires FieldValue(current, "total_debt") == Some(debt) && FieldValue(previous, "total_debt") == Some(debt)
    requires FieldValue(current, "credit_score") == Some(credit) && FieldValue(previous, "credit_score") == Some(credit)
    ensures AnalyzeProfileChanges(current, previous) == Some(ProfileReport([], false, Some(NoChangeMessage)))
  {
    ProfileLines(current, previous, (sal, sal), (debt, debt), (credit, credit));
  }

  /** On a first report only the non-zero current values are recorded,
      whatever the previous values. */
  lemma {:induction false} FirstReportRecords(current: Profile, previous: Profile, sal: int, debt: int, credit: int)
    requires IsFirstReport(previous)
    requires FieldValue(current, "annual_salary") == Some(sal) && FieldValue(current, "total_debt") == Some(debt)
    requires FieldValue(current, "credit_score") == Some(credit)
    requires FieldValue(previous, "annual_salary").Some? && FieldValue(previous, "total_debt").Some?
    requires FieldValue(previous, "credit_score").Some?
    ensures AnalyzeProfileChanges(current, previous).Some?
    ensures AnalyzeProfileChanges(current, previous).value.lines ==
              (if sal != 0 then [FirstRecord("연봉", sal)] else []) +
              (if debt != 0 then [FirstRecord("총 부채", debt)] else []) +
              (if credit != 0 then [FirstRecord("신용 점수", credit)] else [])
  {
    ProfileLines(current, previous,
      (sal, FieldValue(previous, "annual_salary").value),
      (debt, FieldValue(previous, "total_debt").value),
      (credit, FieldValue(previous, "credit_score").value));
  }
}
