/** The older snapshot of the plan-input parsers
    (server/tools/plan_agent_tools.py). Its currency parser sums the same
    unit table as the newer one, but it fails, with result 0, on falsy input,
    on anything that is not a string, and on a string without digits. Its
    percent parser and location table are the same code as the newer ones
    (`PlanInput.ParseRatio`, `PlanInput.NormalizeLocation`). */
module LegacyPlanInput {
  import opened Optional
  import opened Text
  import opened Values
  import opened Currency
  import opened PlanInput

  /** The `success` and `result` fields of the older parser's reply. */
  datatype CurrencyResult = CurrencyResult(success: bool, result: int)

  const CurrencyFailure := CurrencyResult(false, 0)

  /** `value.replace(",", "").replace(" ", "")`: unlike the newer parser,
      nothing is stripped first. */
  function LegacyText(s: string): (r: string)
    ensures ',' !in r && ' ' !in r
    ensures forall x :: x in r ==> x in s
  {
    RemoveChar(RemoveChar(s, ','), ' ')
  }

  /** `parse_currency(value)`: the unit sum when a unit matches, otherwise
      `int(float(digits))`, which raises on an empty digit string. */
  function LegacyParseCurrency(v: Value): (r: CurrencyResult)
    ensures r.success <==> v.Str? && HasDigit(v.s)
    ensures !r.success ==> r.result == 0
    ensures r.result >= 0
  {
    if !Truthy(v) then CurrencyFailure
    else
      match v
      case Str(s) => LegacyParseText(s)
      case _ => CurrencyFailure
  }

  /** The string case, after the falsy test. */
  function LegacyParseText(s: string): (r: CurrencyResult)
    ensures r.success <==> HasDigit(s)
    ensures !r.success ==> r.result == 0
    ensures r.result >= 0
  {
    var text := LegacyText(s);
    LegacyTextDigits(s);
    var total := UnitSum(text, Units);
    if total == 0.0 then
      var digits := KeepDigits(text);
      assert |digits| > 0 ==> IsDigit(digits[0]);
      HasDigitTransfer(digits, text);
      KeepDigitsNonEmpty(text);
      if digits == [] then CurrencyFailure else CurrencyResult(true, DigitsValue(digits))
    else
      NoDigitSumZero(text, Units);
      CurrencyResult(true, total.Floor)
  }

  /** Removing commas and blanks keeps exactly the digits there were. */
  lemma {:induction false} LegacyTextDigits(s: string)
    ensures HasDigit(LegacyText(s)) <==> HasDigit(s)
  {
    RemoveCharKeepsDigits(s, ',');
    RemoveCharKeepsDigits(RemoveChar(s, ','), ' ');
    HasDigitTransfer(LegacyText(s), s);
  }

  lemma {:induction false} KeepDigitsNonEmpty(text: string)
    ensures HasDigit(text) ==> KeepDigits(text) != []
  {
    if HasDigit(text) {
      var k :| 0 <= k < |text| && IsDigit(text[k]);
      KeepDigitsHas(text, k);
    }
  }

  lemma {:induction false} KeepDigitsHas(text: string, k: nat)
    requires k < |text| && IsDigit(text[k])
    ensures KeepDigits(text) != []
  {
    if k > 0 && !IsDigit(text[0]) {
      KeepDigitsHas(text[1..], k - 1);
    }
  }

  /** Only the blank counts as whitespace in `s`. */
  predicate OnlyBlanks(s: string) {
    forall k :: 0 <= k < |s| && IsSpace(s[k]) ==> s[k] == ' '
  }

  /** Without tabs, newlines or other non-blank whitespace, stripping first
      changes nothing: both parsers read the same text. */
  lemma {:induction false} CleanAgrees(s: string)
    requires OnlyBlanks(s)
    ensures Clean(s) == LegacyText(s)
  {
    var pre, post := StripSplit(s);
    var x := Strip(s);
    assert forall k :: 0 <= k < |pre| ==> pre[k] == s[k];
    assert forall k :: 0 <= k < |post| ==> post[k] == s[|pre| + |x| + k];
    RemoveCommasBlanksPadded(pre, x, post);
  }

  /** On the text both parsers read, the older one computes the newer one's
      value whenever there is a digit. */
  lemma {:induction false} ReadAgrees(text: string)
    requires HasDigit(text) && ',' !in text && ' ' !in text
    ensures LegacyParseText(text) == CurrencyResult(true, ParseCleanText(text))
  {
    LegacyTextIdentity(text);
    if AllDigits(text) {
      ReadDigitsAgrees(text);
    } else {
      ReadUnitsAgrees(text);
    }
  }

  lemma {:induction false} ReadDigitsAgrees(text: string)
    requires HasDigit(text) && AllDigits(text) && LegacyText(text) == text
    ensures LegacyParseText(text) == CurrencyResult(true, ParseCleanText(text))
  {
    UnitSumInDigits(text, Units);
    assert KeepDigits(text) == text;
    assert ParseCleanText(text) == DigitsValue(text);
  }

  lemma {:induction false} ReadUnitsAgrees(text: string)
    requires HasDigit(text) && !AllDigits(text) && LegacyText(text) == text
    ensures LegacyParseText(text) == CurrencyResult(true, ParseCleanText(text))
  {
    KeepDigitsNonEmpty(text);
  }

  /** Text that is already free of commas and blanks is read as it is. */
  lemma {:induction false} LegacyTextIdentity(text: string)
    ensures ',' !in text && ' ' !in text ==> LegacyText(text) == text
  {
  }

  /** On a string with a digit and no whitespace other than blanks, the two
      parsers agree, and the older one succeeds. */
  lemma {:induction false} LegacyAgreesWithNewer(s: string)
    requires HasDigit(s) && OnlyBlanks(s)
    ensures LegacyParseCurrency(Str(s)) == CurrencyResult(true, ParseKoreanCurrency(Str(s)))
  {
    CleanAgrees(s);
    var text := LegacyText(s);
    LegacyTextDigits(s);
    LegacyTextIdentity(text);
    ReadAgrees(text);
    assert s != "";
    SameLegacyText(s, text);
  }

  lemma {:induction false} SameLegacyText(s: string, text: string)
    requires text == LegacyText(s) && LegacyText(text) == text
    ensures LegacyParseText(s) == LegacyParseText(text)
  {
  }

  /** Where the two snapshots differ: a string without digits is an error for
      the older parser and 0 for the newer one; a number is an error for the
      older parser and its truncation for the newer one. */
  lemma {:induction false} SnapshotsDiffer(s: string, i: int)
    requires s != "" && !HasDigit(s) && i != 0
    ensures LegacyParseCurrency(Str(s)) == CurrencyFailure
    ensures ParseKoreanCurrency(Str(s)) == 0
    ensures LegacyParseCurrency(Int(i)) == CurrencyFailure
    ensures ParseKoreanCurrency(Int(i)) == i
  {
  }

  /** "3억5천만" is 350,000,000 won for the older parser too. */
  lemma {:induction false} LegacyExample()
    ensures LegacyParseCurrency(Str("3억5천만")) == CurrencyResult(true, 350_000_000)
  {
    var s := "3억5천만";
    ExampleRendering();
    assert IsDigit(s[0]);
    assert forall k :: 0 <= k < |s| ==> !IsSpace(s[k]);
    LegacyRenderRoundTrip(s, 3, 5, 0, 0);
  }

  lemma {:induction false} ExampleRendering()
    ensures Render(3, 5, 0, 0) == "3억5천만"
  {
    assert NatToString(3) == "3";
    assert NatToString(5) == "5";
  }

  /** The older parser reads a rendered amount back as its worth too. */
  lemma {:induction false} LegacyRenderRoundTrip(s: string, a: nat, b: nat, c: nat, d: nat)
    requires s == Render(a, b, c, d) && HasDigit(s) && OnlyBlanks(s)
    ensures LegacyParseCurrency(Str(s)) == CurrencyResult(true, Worth(a, b, c, d))
  {
    RenderRoundTrip(a, b, c, d);
    LegacyAgreesWithNewer(s);
  }

  // ---------------------------------------------------------------------
  // validate_input_data
  // ---------------------------------------------------------------------

  /** The older `validate_input_data`: the same missing-field check, but an
      incomplete reply carries no `success` field, and the amounts come from
      the older parser's `result` field (0 when it failed). */
  function LegacyValidateInputData(data: map<string, Value>): (r: Validation)
    ensures r.Validated? <==> Complete(data)
    ensures r.Incomplete? ==> r.missing != []
    ensures r.Incomplete? ==> forall f :: f in r.missing <==> f in Required && IsMissing(data, f)
    ensures r.Validated? ==> r.data == LegacyNormalize(data)
  {
    var missing := MissingRequired(data);
    if missing != [] then Incomplete(missing) else Validated(LegacyNormalize(data))
  }

  /** The normalised data, with the older currency parser. */
  function LegacyNormalize(data: map<string, Value>): (d: PlanData)
    ensures d.initialProp == LegacyParseCurrency(GetOr(data, "initial_prop", Str("0"))).result
    ensures d.hopePrice == LegacyParseCurrency(GetOr(data, "hope_price", Str("0"))).result
    ensures d.incomeUsageRatio == ParseRatio(GetOr(data, "income_usage_ratio", Str("0"))).ratio
    ensures d.hopeLocation == NormalizeLocation(GetOr(data, "hope_location", Str(""))).normalized
    ensures d.hopeHousingType == Lookup(data, "hope_housing_type")
  {
    PlanData(
      LegacyParseCurrency(GetOr(data, "initial_prop", Str("0"))).result,
      NormalizeLocation(GetOr(data, "hope_location", Str(""))).normalized,
      LegacyParseCurrency(GetOr(data, "hope_price", Str("0"))).result,
      Lookup(data, "hope_housing_type"),
      ParseRatio(GetOr(data, "income_usage_ratio", Str("0"))).ratio)
  }

  /** On rendered amounts without stray whitespace the older normaliser reads
      the worths too, and so agrees with the newer one. */
  lemma {:induction false} LegacyNormalizeReads(data: map<string, Value>, p: (nat, nat, nat, nat), q: (nat, nat, nat, nat))
    requires "initial_prop" in data && data["initial_prop"] == Str(Render(p.0, p.1, p.2, p.3))
    requires "hope_price" in data && data["hope_price"] == Str(Render(q.0, q.1, q.2, q.3))
    requires HasDigit(Render(p.0, p.1, p.2, p.3)) && OnlyBlanks(Render(p.0, p.1, p.2, p.3))
    requires HasDigit(Render(q.0, q.1, q.2, q.3)) && OnlyBlanks(Render(q.0, q.1, q.2, q.3))
    ensures LegacyNormalize(data).initialProp == Worth(p.0, p.1, p.2, p.3)
    ensures LegacyNormalize(data).hopePrice == Worth(q.0, q.1, q.2, q.3)
    ensures LegacyNormalize(data) == Normalize(data)
  {
    LegacyRenderRoundTrip(Render(p.0, p.1, p.2, p.3), p.0, p.1, p.2, p.3);
    LegacyRenderRoundTrip(Render(q.0, q.1, q.2, q.3), q.0, q.1, q.2, q.3);
    RenderRoundTrip(p.0, p.1, p.2, p.3);
    RenderRoundTrip(q.0, q.1, q.2, q.3);
  }

  /** Both validators report the same missing fields; they differ only in
      the amounts: a numeric amount is kept by the newer one and read as 0
      by the older one. */
  lemma {:induction false} ValidatorsCompared(data: map<string, Value>)
    ensures LegacyValidateInputData(data).Incomplete? == ValidateInputData(data).Incomplete?
    ensures LegacyValidateInputData(data).Incomplete? ==>
              LegacyValidateInputData(data).missing == ValidateInputData(data).missing
    ensures LegacyValidateInputData(data).Validated? && GetOr(data, "hope_price", Str("0")).Int? ==>
              LegacyValidateInputData(data).data.hopePrice == 0 &&
              ValidateInputData(data).data.hopePrice == GetOr(data, "hope_price", Str("0")).i
  {
  }
}
