/** The newer plan-input tools: the percent parser, the location table and
    the batch validator that checks for missing fields before it parses
    anything (server/api/tools/plan_agent_tools.py). */
module PlanInput {
  import opened Optional
  import opened Text
  import opened Values
  import opened Currency

  // ---------------------------------------------------------------------
  // parse_ratio
  // ---------------------------------------------------------------------

  /** The `success` and `ratio` fields of the tool's reply. */
  datatype RatioResult = RatioResult(success: bool, ratio: int)

  const RatioFailure := RatioResult(false, 0)

  /** The text the percent parser reads: every '%' removed, then stripped. */
  function RatioText(s: string): (r: string)
    ensures '%' !in r
    ensures |r| <= |s|
  {
    Strip(RemoveChar(s, '%'))
  }

  /** `int(str(value).replace("%", "").strip())`, with any exception turned
      into a failure carrying ratio 0. `str` of an int is its numeral; `str`
      of `True` is "True" and `str` of a float always holds '.', 'e', "inf" or
      "nan", so `int` rejects both. */
  function ParseRatio(v: Value): (r: RatioResult)
    ensures !Truthy(v) ==> r == RatioFailure
    ensures !r.success ==> r.ratio == 0
    ensures v.Int? ==> r == if v.i == 0 then RatioFailure else RatioResult(true, v.i)
    ensures v.Float? || v.Bool? ==> r == RatioFailure
    ensures v.Str? && r.success ==> HasDigit(v.s)
  {
    if !Truthy(v) then RatioFailure
    else
      match v
      case Int(i) =>
        NumeralRatio(i);
        ParseStringRatio(IntToString(i))
      case Str(s) => ParseStringRatio(s)
      case _ => RatioFailure
  }

  /** The string case of the percent parser. */
  function ParseStringRatio(s: string): (r: RatioResult)
    ensures !r.success ==> r.ratio == 0
    ensures r.success ==> HasDigit(s)
  {
    match ParseIntLiteral(RatioText(s))
    case None => RatioFailure
    case Some(n) =>
      HasDigitTransfer(RatioText(s), s);
      RatioResult(true, n)
  }

  /** A numeral is its own ratio text. */
  lemma {:induction false} NumeralRatioText(i: int)
    ensures RatioText(IntToString(i)) == IntToString(i)
  {
    NumeralNoPercent(i);
    NumeralNoSpace(i);
    StripNoSpace(IntToString(i));
  }

  /** A numeral reads back as its integer. */
  lemma {:induction false} NumeralRatio(i: int)
    ensures ParseStringRatio(IntToString(i)) == RatioResult(true, i)
  {
    NumeralRatioText(i);
    IntLiteralRoundTrip(i);
  }

  /** A percent sign anywhere in the text is ignored. */
  lemma {:induction false} PercentIgnored(a: string, b: string)
    ensures ParseStringRatio(a + "%" + b) == ParseStringRatio(a + b)
  {
    RemoveCharDrop(a, b, '%');
  }

  /** Every integer, written with a percent sign, reads back as itself. */
  lemma {:induction false} RatioRoundTrip(n: int)
    ensures ParseRatio(Str(IntToString(n) + "%")) == RatioResult(true, n)
  {
    NumeralRatio(n);
    PercentSuffix(IntToString(n), n);
  }

  lemma {:induction false} NumeralPercent(s: string, n: int)
    requires s == IntToString(n)
    ensures ParseRatio(Str(s + "%")) == RatioResult(true, n)
  {
    RatioRoundTrip(n);
  }

  lemma {:induction false} PercentSuffix(s: string, n: int)
    requires ParseStringRatio(s) == RatioResult(true, n)
    ensures ParseRatio(Str(s + "%")) == RatioResult(true, n)
  {
    PercentAppended(s);
    StringRatio(s + "%");
  }

  lemma {:induction false} PercentAppended(s: string)
    ensures ParseStringRatio(s + "%") == ParseStringRatio(s)
  {
    PercentIgnored(s, "");
    assert s + "%" + "" == s + "%";
    assert s + "" == s;
  }

  /** A non-empty string goes to the string case of the parser. */
  lemma {:induction false} StringRatio(t: string)
    requires t != ""
    ensures ParseRatio(Str(t)) == ParseStringRatio(t)
  {
  }

  /** "30%" is 30, " 40 % " is 40 and "" fails. */
  lemma {:induction false} RatioExamples()
    ensures ParseRatio(Str("30%")) == RatioResult(true, 30)
    ensures ParseRatio(Str(" 40 % ")) == RatioResult(true, 40)
    ensures ParseRatio(Str("")) == RatioFailure
  {
    ThirtyPercent();
    FortyPercent();
  }

  lemma {:induction false} ThirtyPercent()
    ensures ParseRatio(Str("30%")) == RatioResult(true, 30)
  {
    ThirtyNumeral();
    ThirtyText();
    RatioOfText("30%", "30", 30);
  }

  lemma {:induction false} ThirtyText()
    ensures RatioText("30%") == "30"
  {
    assert "30%" == "30" + "%" + "";
    RemoveCharDrop("30", "", '%');
    assert "30" + "" == "30";
    assert RemoveChar("30", '%') == "30";
    StripTrimmed("30");
  }

  lemma {:induction false} ThirtyNumeral()
    ensures IntToString(30) == "30"
  {
    assert NatToString(3) == "3";
  }

  lemma {:induction false} FortyPercent()
    ensures ParseRatio(Str(" 40 % ")) == RatioResult(true, 40)
  {
    FortyNumeral();
    FortyText();
    RatioOfText(" 40 % ", "40", 40);
  }

  lemma {:induction false} FortyNumeral()
    ensures IntToString(40) == "40"
  {
    assert NatToString(4) == "4";
  }

  /** A text whose ratio text is a numeral reads as that numeral's value. */
  lemma {:induction false} RatioOfText(s: string, t: string, n: int)
    requires s != "" && RatioText(s) == t && t == IntToString(n)
    ensures ParseRatio(Str(s)) == RatioResult(true, n)
  {
    NumeralRatio(n);
    NumeralRatioText(n);
    StringRatio(s);
  }

  lemma {:induction false} FortyText()
    ensures RatioText(" 40 % ") == "40"
  {
    assert " 40 % " == " 40 " + "%" + " ";
    RemoveCharDrop(" 40 ", " ", '%');
    assert " 40 " + " " == " 40  ";
    assert RemoveChar(" 40  ", '%') == " 40  ";
    StripExample();
  }

  lemma {:induction false} StripExample()
    ensures Strip(" 40  ") == "40"
  {
    assert " 40  " == " " + "40" + "  ";
    StripPadded(" ", "40", "  ");
  }

  // ---------------------------------------------------------------------
  // normalize_location
  // ---------------------------------------------------------------------

  /** The short names the tool knows and their official names. */
  const LocationTable: seq<(string, string)> := [
    ("서울 동작구", "서울특별시 동작구"),
    ("서울 마포구", "서울특별시 마포구"),
    ("서울 송파구", "서울특별시 송파구"),
    ("부산 해운대구", "부산광역시 해운대구"),
    ("대구 수성구", "대구광역시 수성구")
  ]

  predicate IsShortName(s: string) {
    exists i :: 0 <= i < |LocationTable| && LocationTable[i].0 == s
  }

  predicate IsOfficialName(s: string) {
    exists i :: 0 <= i < |LocationTable| && LocationTable[i].1 == s
  }

  /** `mapping.get(key, default)` on the table. */
  function LookupLocation(key: string, default: string): (r: string)
    ensures IsShortName(key) ==> IsOfficialName(r)
    ensures forall i :: 0 <= i < |LocationTable| && LocationTable[i].0 == key ==> r == LocationTable[i].1
    ensures !IsShortName(key) ==> r == default
  {
    TableKeysDistinct();
    LookupFrom(LocationTable, key, default)
  }

  /** The table lists each short name once. */
  lemma {:induction false} TableKeysDistinct()
    ensures forall i, j :: 0 <= i < j < |LocationTable| ==> LocationTable[i].0 != LocationTable[j].0
  {
    assert LocationTable[0].0[3] != LocationTable[1].0[3];
    assert LocationTable[0].0[3] != LocationTable[2].0[3];
    assert LocationTable[1].0[3] != LocationTable[2].0[3];
    assert forall i :: 0 <= i < 3 ==> LocationTable[i].0[0] == '서';
    assert LocationTable[3].0[0] == '부' && LocationTable[4].0[0] == '대';
  }

  /** `dict.get` on a list of pairs: the value paired with the first
      occurrence of the key, or the default. */
  function LookupFrom(t: seq<(string, string)>, key: string, default: string): (r: string)
    ensures forall i :: 0 <= i < |t| && t[i].0 == key ==> exists j :: 0 <= j < |t| && r == t[j].1
    ensures forall i :: 0 <= i < |t| && t[i].0 == key && (forall j :: 0 <= j < i ==> t[j].0 != key) ==> r == t[i].1
    ensures (forall i :: 0 <= i < |t| ==> t[i].0 != key) ==> r == default
  {
    if |t| == 0 then default
    else if t[0].0 == key then t[0].1
    else
      var r := LookupFrom(t[1..], key, default);
      assert forall j :: 0 <= j < |t[1..]| ==> t[1..][j] == t[j + 1];
      r
  }

  /** The `success` and `normalized` fields of the tool's reply. */
  datatype LocationResult = LocationResult(success: bool, normalized: Value)

  /** `mapping.get(location.strip(), location)`: a known short name, once
      stripped, becomes its official name; anything else comes back exactly
      as given. A non-string has no `strip` and fails, echoing the input. */
  function NormalizeLocation(v: Value): (r: LocationResult)
    ensures r.success <==> v.Str?
    ensures v.Str? && IsShortName(Strip(v.s)) ==> r.normalized.Str? && IsOfficialName(r.normalized.s)
    ensures v.Str? ==> forall i :: 0 <= i < |LocationTable| && LocationTable[i].0 == Strip(v.s) ==>
              r.normalized == Str(LocationTable[i].1)
    ensures !(v.Str? && IsShortName(Strip(v.s))) ==> r.normalized == v
  {
    match v
    case Str(s) => LocationResult(true, Str(LookupLocation(Strip(s), s)))
    case _ => LocationResult(false, v)
  }

  /** No official name is itself a short name. */
  lemma {:induction false} OfficialNotShort(s: string)
    requires IsOfficialName(s)
    ensures !IsShortName(Strip(s))
  {
    TableShape();
    var i :| 0 <= i < |LocationTable| && LocationTable[i].1 == s;
    StripTrimmed(s);
  }

  /** Short names have at most seven characters, official names at least
      nine, and official names start and end with a letter. */
  lemma {:induction false} TableShape()
    ensures forall i :: 0 <= i < |LocationTable| ==>
      |LocationTable[i].0| <= 7 && 9 <= |LocationTable[i].1| &&
      !IsSpace(LocationTable[i].1[0]) && !IsSpace(LocationTable[i].1[|LocationTable[i].1| - 1])
  {
  }

  /** Normalising twice is normalising once. */
  lemma {:induction false} NormalizeIdempotent(v: Value)
    ensures NormalizeLocation(NormalizeLocation(v).normalized).normalized == NormalizeLocation(v).normalized
  {
    var r := NormalizeLocation(v).normalized;
    if v.Str? && IsShortName(Strip(v.s)) {
      OfficialNotShort(r.s);
    }
  }

  /** "서울 동작구" becomes "서울특별시 동작구". */
  lemma {:induction false} LocationExample()
    ensures NormalizeLocation(Str("서울 동작구")) == LocationResult(true, Str("서울특별시 동작구"))
  {
    StripTrimmed("서울 동작구");
  }

  // ---------------------------------------------------------------------
  // validate_input_data
  // ---------------------------------------------------------------------

  /** The required fields, in the order they are reported. */
  const Required: seq<string> :=
    ["initial_prop", "hope_location", "hope_price", "hope_housing_type", "income_usage_ratio"]

  /** A required field counts as missing when `data.get(field)` is one of
      `None`, "", 0 or "0". */
  predicate IsMissing(data: map<string, Value>, field: string) {
    IsMissingMarker(Lookup(data, field))
  }

  /** The position of `x` in `xs`, or `|xs|` when absent. */
  function Position(xs: seq<string>, x: string): (r: nat)
    ensures r <= |xs|
    ensures r < |xs| ==> xs[r] == x
    ensures forall k :: 0 <= k < r ==> xs[k] != x
  {
    if |xs| == 0 then 0 else if xs[0] == x then 0 else 1 + Position(xs[1..], x)
  }

  /** The missing fields of `fields`, in their order. */
  function MissingFields(data: map<string, Value>, fields: seq<string>): (r: seq<string>)
    ensures forall f :: f in r <==> f in fields && IsMissing(data, f)
    ensures |r| <= |fields|
  {
    if |fields| == 0 then []
    else
      var rest := MissingFields(data, fields[1..]);
      if IsMissing(data, fields[0]) then [fields[0]] + rest else rest
  }

  /** The missing fields keep the order of the list they come from. */
  lemma {:induction false} MissingFieldsOrdered(data: map<string, Value>, fields: seq<string>)
    requires forall i, j :: 0 <= i < j < |fields| ==> fields[i] != fields[j]
    ensures forall i, j :: 0 <= i < j < |MissingFields(data, fields)| ==>
              Position(fields, MissingFields(data, fields)[i]) < Position(fields, MissingFields(data, fields)[j])
  {
    if |fields| > 0 {
      var tail := fields[1..];
      MissingFieldsOrdered(data, tail);
      var rest := MissingFields(data, tail);
      var r := MissingFields(data, fields);
      forall k | 0 <= k < |rest|
        ensures Position(fields, rest[k]) == 1 + Position(tail, rest[k])
      {
        PositionTail(fields, rest[k]);
      }
      if IsMissing(data, fields[0]) {
        assert r == [fields[0]] + rest;
        ConsOrdered(fields, rest);
      } else {
        assert r == rest;
      }
    }
  }

  /** Putting the head of `fields` before a list ordered by position in the
      tail keeps it ordered by position in `fields`. */
  lemma {:induction false} ConsOrdered(fields: seq<string>, rest: seq<string>)
    requires |fields| > 0
    requires forall k :: 0 <= k < |rest| ==> Position(fields, rest[k]) == 1 + Position(fields[1..], rest[k])
    requires forall i, j :: 0 <= i < j < |rest| ==> Position(fields[1..], rest[i]) < Position(fields[1..], rest[j])
    ensures var r := [fields[0]] + rest;
      forall i, j :: 0 <= i < j < |r| ==> Position(fields, r[i]) < Position(fields, r[j])
  {
    var r := [fields[0]] + rest;
    assert Position(fields, fields[0]) == 0;
    assert forall k :: 0 < k < |r| ==> r[k] == rest[k - 1];
  }

  /** Past the head, positions in a list without repeats shift by one. */
  lemma {:induction false} PositionTail(fields: seq<string>, f: string)
    requires |fields| > 0 && f in fields[1..]
    requires forall i, j :: 0 <= i < j < |fields| ==> fields[i] != fields[j]
    ensures Position(fields, f) == 1 + Position(fields[1..], f)
  {
    var k :| 0 <= k < |fields[1..]| && fields[1..][k] == f;
    assert fields[k + 1] == f;
  }

  /** The normalised plan inputs (the validation timestamp is not modelled). */
  datatype PlanData = PlanData(
    initialProp: int,
    hopeLocation: Value,
    hopePrice: int,
    hopeHousingType: Value,
    incomeUsageRatio: int)

  /** Either the missing fields (status "incomplete", success false) or the
      normalised data (status "success", success true). */
  datatype Validation = Incomplete(missing: seq<string>) | Validated(data: PlanData)
  {
    predicate Success() { Validated? }
  }

  /** Every required field is present and not a missing marker. */
  predicate Complete(data: map<string, Value>) {
    forall f :: f in Required ==> f in data && !IsMissingMarker(data[f])
  }

  /** The missing-field pass over the required list. */
  function MissingRequired(data: map<string, Value>): (r: seq<string>)
    ensures forall f :: f in r <==> f in Required && IsMissing(data, f)
    ensures r == [] <==> Complete(data)
  {
    var r := MissingFields(data, Required);
    assert r != [] ==> r[0] in r;
    r
  }

  /** The normalised data: each field read with `data.get(field, default)`
      and passed through its parser (the validator calls this only on a
      complete request). */
  function Normalize(data: map<string, Value>): (d: PlanData)
    ensures d.initialProp == ParseKoreanCurrency(GetOr(data, "initial_prop", Str("0")))
    ensures d.hopePrice == ParseKoreanCurrency(GetOr(data, "hope_price", Str("0")))
    ensures d.incomeUsageRatio == ParseRatio(GetOr(data, "income_usage_ratio", Str("0"))).ratio
    ensures d.hopeLocation == NormalizeLocation(GetOr(data, "hope_location", Str(""))).normalized
    ensures d.hopeHousingType == Lookup(data, "hope_housing_type")
  {
    PlanData(
      ParseKoreanCurrency(GetOr(data, "initial_prop", Str("0"))),
      NormalizeLocation(GetOr(data, "hope_location", Str(""))).normalized,
      ParseKoreanCurrency(GetOr(data, "hope_price", Str("0"))),
      Lookup(data, "hope_housing_type"),
      ParseRatio(GetOr(data, "income_usage_ratio", Str("0"))).ratio)
  }

  /** What the normaliser makes of well-formed answers: rendered amounts are
      read as their worths, a numeral with a percent sign as its integer,
      and a short district name (blanks around it allowed) as its official
      name. */
  lemma {:induction false} NormalizeReads(data: map<string, Value>, p: (nat, nat, nat, nat), q: (nat, nat, nat, nat), ratio: int, place: string, i: nat)
    requires "initial_prop" in data && data["initial_prop"] == Str(Render(p.0, p.1, p.2, p.3))
    requires "hope_price" in data && data["hope_price"] == Str(Render(q.0, q.1, q.2, q.3))
    requires "income_usage_ratio" in data && data["income_usage_ratio"] == Str(IntToString(ratio) + "%")
    requires "hope_location" in data && data["hope_location"] == Str(place)
    requires i < |LocationTable| && Strip(place) == LocationTable[i].0
    ensures Normalize(data).initialProp == Worth(p.0, p.1, p.2, p.3)
    ensures Normalize(data).hopePrice == Worth(q.0, q.1, q.2, q.3)
    ensures Normalize(data).incomeUsageRatio == ratio
    ensures Normalize(data).hopeLocation == Str(LocationTable[i].1)
  {
    RenderRoundTrip(p.0, p.1, p.2, p.3);
    RenderRoundTrip(q.0, q.1, q.2, q.3);
    RatioRoundTrip(ratio);
  }

  /** `validate_input_data`: every required field is checked before anything
      is parsed; only a complete request is normalised, and a ratio that does
      not parse is reported as 0 without failing the request. */
  function ValidateInputData(data: map<string, Value>): (r: Validation)
    ensures r.Validated? <==> Complete(data)
    ensures r.Incomplete? ==> r.missing != []
    ensures r.Incomplete? ==> forall f :: f in r.missing <==> f in Required && IsMissing(data, f)
    ensures r.Validated? ==> r.data == Normalize(data)
  {
    var missing := MissingRequired(data);
    if missing != [] then Incomplete(missing) else Validated(Normalize(data))
  }

  /** A request is incomplete exactly when some required field is missing. */
  lemma {:induction false} IncompleteIffMissing(data: map<string, Value>)
    ensures ValidateInputData(data).Incomplete? <==> exists f :: f in Required && IsMissing(data, f)
  {
    var r := ValidateInputData(data);
    if r.Incomplete? {
      assert r.missing[0] in r.missing;
    }
  }

  /** The reported missing fields follow the order of the required list. */
  lemma {:induction false} MissingInRequiredOrder(data: map<string, Value>)
    requires ValidateInputData(data).Incomplete?
    ensures var m := ValidateInputData(data).missing;
      forall i, j :: 0 <= i < j < |m| ==> Position(Required, m[i]) < Position(Required, m[j])
  {
    RequiredDistinct();
    MissingFieldsOrdered(data, Required);
    assert ValidateInputData(data).missing == MissingFields(data, Required);
  }

  /** The required fields have different lengths, so no field is listed
      twice. */
  lemma {:induction false} RequiredDistinct()
    ensures forall i, j :: 0 <= i < j < |Required| ==> Required[i] != Required[j]
  {
    assert |Required[0]| == 12 && |Required[1]| == 13 && |Required[2]| == 10;
    assert |Required[3]| == 17 && |Required[4]| == 18;
  }

  /** A ratio that fails to parse does not fail a complete request. */
  lemma {:induction false} BadRatioStillValid(data: map<string, Value>)
    requires Complete(data)
    requires !ParseRatio(GetOr(data, "income_usage_ratio", Str("0"))).success
    ensures ValidateInputData(data).Validated?
    ensures ValidateInputData(data).data.incomeUsageRatio == 0
  {
  }
}
