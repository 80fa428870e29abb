/** The Korean money-string parser of the newer plan tools
    (`_parse_korean_currency` inside `api_parse_currency`): numbers followed by
    the magnitude words 억 (10^8), 천만 (10^7), 백만 (10^6) and 만 (10^4) are
    searched for independently and summed; without any unit the digits of the
    text are read as a plain number. The parser never fails. */
module Currency {
  import opened Optional
  import opened Text
  import opened Values

  /** A magnitude word and the number of won it stands for. */
  datatype Unit = Unit(word: string, multiplier: nat)

  const Eok := Unit("억", 100_000_000)
  const CheonMan := Unit("천만", 10_000_000)
  const BaekMan := Unit("백만", 1_000_000)
  const Man := Unit("만", 10_000)

  /** The unit table, in the order the parser scans it. */
  const Units: seq<Unit> := [Eok, CheonMan, BaekMan, Man]

  /** A unit word is non-empty and starts with neither a digit nor a dot. */
  predicate WellFormedWord(w: string) {
    |w| > 0 && !IsDigit(w[0]) && w[0] != '.'
  }

  // ---------------------------------------------------------------------
  // The regular expression (\d+(?:\.\d+)?)W and re.search
  // ---------------------------------------------------------------------

  predicate StartsWith(s: string, w: string) {
    |w| <= |s| && s[..|w|] == w
  }

  /** The pattern `(\d+(?:\.\d+)?)W` anchored at the start of `s`, with the
      value of the captured numeral on success. Because `W` starts with
      neither a digit nor a dot, backtracking can never succeed with a shorter
      digit run: both `\d+` take their whole runs, the optional fraction is
      tried first, then the bare integer. */
  function MatchHere(s: string, w: string): (r: Option<real>)
    ensures r.Some? ==> |s| > 0 && IsDigit(s[0]) && r.value >= 0.0
  {
    var j := RunLen(s);
    if j == 0 then None
    else
      var ip := DigitsValue(s[..j]) as real;
      var f := if j < |s| && s[j] == '.' then RunLen(s[j + 1..]) else 0;
      if f > 0 && StartsWith(s[j + 1 + f..], w) then
        Some(ip + (DigitsValue(s[j + 1..j + 1 + f]) as real) / (Pow10(f) as real))
      else if StartsWith(s[j..], w) then Some(ip)
      else None
  }

  /** `re.search`: the match at the leftmost start index where the pattern
      matches, trying the start indices in order. */
  function Search(s: string, w: string): (r: Option<real>)
    ensures r.Some? ==> HasDigit(s) && r.value >= 0.0
  {
    if |s| == 0 then None
    else
      match MatchHere(s, w)
      case Some(v) => Some(v)
      case None =>
        var r := Search(s[1..], w);
        assert r.Some? ==> HasDigit(s) by {
          if r.Some? {
            var k :| 0 <= k < |s[1..]| && IsDigit(s[1..][k]);
            assert IsDigit(s[k + 1]);
          }
        }
        r
  }

  /** What one unit adds to the total: its first match times its multiplier. */
  function Contribution(text: string, u: Unit): (r: real)
    ensures r >= 0.0
  {
    match Search(text, u.word)
    case None => 0.0
    case Some(v) => v * (u.multiplier as real)
  }

  /** The loop over the unit table: the contributions summed. */
  function UnitSum(text: string, us: seq<Unit>): (r: real)
    ensures r >= 0.0
  {
    if |us| == 0 then 0.0 else Contribution(text, us[0]) + UnitSum(text, us[1..])
  }

  // ---------------------------------------------------------------------
  // The parser
  // ---------------------------------------------------------------------

  /** `str(v).strip().replace(",", "").replace(" ", "")`. */
  function Clean(s: string): (r: string)
    ensures ',' !in r && ' ' !in r
    ensures forall x :: x in r ==> x in s
  {
    RemoveChar(RemoveChar(Strip(s), ','), ' ')
  }

  /** `re.sub(r"[^0-9]", "", text)`: the ASCII digits of `text`, in order. */
  function KeepDigits(s: string): (r: string)
    ensures AllDigits(r)
    ensures |r| <= |s|
    ensures AllDigits(s) ==> r == s
    ensures forall x :: x in r ==> x in s
  {
    if |s| == 0 then []
    else if IsDigit(s[0]) then [s[0]] + KeepDigits(s[1..])
    else KeepDigits(s[1..])
  }

  /** The parser on a string: clean it, then read the cleaned text. */
  function ParseAmountText(s: string): (r: nat)
    ensures !HasDigit(s) ==> r == 0
  {
    HasDigitTransfer(Clean(s), s);
    ParseCleanText(Clean(s))
  }

  /** The cleaned text read as a plain number when it is all digits, otherwise
      as the sum of its units, and as its digits alone when no unit matched. */
  function ParseCleanText(text: string): (r: nat)
    ensures !HasDigit(text) ==> r == 0
    ensures text != [] && AllDigits(text) ==> r == DigitsValue(text)
    ensures text != [] && !AllDigits(text) && UnitSum(text, Units) == 0.0 ==>
              r == DigitsValue(KeepDigits(text))
  {
    if text == [] then 0
    else if AllDigits(text) then DigitsValue(text)
    else
      var total := UnitSum(text, Units);
      if total == 0.0 then
        var digits := KeepDigits(text);
        assert |digits| > 0 ==> IsDigit(digits[0]);
        HasDigitTransfer(digits, text);
        DigitsValue(digits)
      else
        NoDigitSumZero(text, Units);
        total.Floor
  }

  /** Without a digit no unit pattern matches. */
  lemma {:induction false} NoDigitSumZero(text: string, us: seq<Unit>)
    ensures !HasDigit(text) ==> UnitSum(text, us) == 0.0
  {
    if |us| > 0 {
      NoDigitSumZero(text, us[1..]);
    }
  }

  /** A text of digits alone contains no unit word. */
  lemma {:induction false} SearchInDigits(text: string, w: string)
    requires AllDigits(text) && WellFormedWord(w)
    ensures Search(text, w) == None
  {
    if |text| > 0 {
      assert RunLen(text) == |text|;
      assert text[|text|..] == [];
      assert MatchHere(text, w) == None;
      SearchInDigits(text[1..], w);
    }
  }

  /** Hence no unit contributes to a text of digits alone. */
  lemma {:induction false} UnitSumInDigits(text: string, us: seq<Unit>)
    requires AllDigits(text)
    requires forall k :: 0 <= k < |us| ==> WellFormedWord(us[k].word)
    ensures UnitSum(text, us) == 0.0
  {
    if |us| > 0 {
      SearchInDigits(text, us[0].word);
      UnitSumInDigits(text, us[1..]);
    }
  }

  /** `_parse_korean_currency(v)`: None and "" read as 0, numbers are
      truncated toward zero, strings are parsed; it never raises. */
  function ParseKoreanCurrency(v: Value): (r: int)
    ensures v == Null || v == Str("") ==> r == 0
    ensures v.Int? ==> r == v.i
    ensures v.Float? ==> r == Trunc(v.x)
    ensures v.Bool? ==> r == (if v.b then 1 else 0)
    ensures v.Str? ==> r >= 0
    ensures v.Str? && !HasDigit(v.s) ==> r == 0
    ensures v.Str? && Clean(v.s) != [] && AllDigits(Clean(v.s)) ==>
              r == DigitsValue(Clean(v.s))
    ensures v.Str? && Clean(v.s) != [] && !AllDigits(Clean(v.s)) &&
            UnitSum(Clean(v.s), Units) == 0.0 ==>
              r == DigitsValue(KeepDigits(Clean(v.s)))
    ensures v.Str? && !AllDigits(Clean(v.s)) && UnitSum(Clean(v.s), Units) != 0.0 ==>
              r == UnitSum(Clean(v.s), Units).Floor
  {
    match v
    case Null => 0
    case Bool(b) => if b then 1 else 0
    case Int(i) => i
    case Float(x) => Trunc(x)
    case Str(s) => ParseAmountText(s)
  }

  // ---------------------------------------------------------------------
  // Round trip with the canonical rendering of an amount
  // ---------------------------------------------------------------------

  /** One part of a rendered amount: the count and its unit word, or nothing
      for a zero count. */
  function Part(n: nat, u: Unit): string {
    if n == 0 then "" else NatToString(n) + u.word
  }

  /** The canonical compact spelling of `a`억 `b`천만 `c`백만 `d`만, such as
      "3억5천만" or "1200만"; an all-zero amount is spelled "0". */
  function Render(a: nat, b: nat, c: nat, d: nat): string {
    if a == 0 && b == 0 && c == 0 && d == 0 then "0"
    else Part(a, Eok) + Part(b, CheonMan) + Part(c, BaekMan) + Part(d, Man)
  }

  function Worth(a: nat, b: nat, c: nat, d: nat): nat {
    a * 100_000_000 + b * 10_000_000 + c * 1_000_000 + d * 10_000
  }

  /** A digit run followed by a non-digit is exactly the leading run. */
  lemma {:induction false} RunLenAppend(d: string, t: string)
    requires AllDigits(d)
    requires |t| == 0 || !IsDigit(t[0])
    ensures RunLen(d + t) == |d|
  {
    if |d| > 0 {
      assert (d + t)[1..] == d[1..] + t;
      RunLenAppend(d[1..], t);
    } else {
      assert d + t == t;
    }
  }

  /** A search for a word that does not begin with the character after a digit
      run finds nothing inside the run. */
  lemma {:induction false} SkipDigits(d: string, t: string, w': string)
    requires AllDigits(d)
    requires |t| > 0 && !IsDigit(t[0]) && t[0] != '.'
    requires |w'| > 0 && w'[0] != t[0]
    ensures Search(d + t, w') == Search(t, w')
  {
    if |d| > 0 {
      var s := d + t;
      RunLenAppend(d, t);
      assert s[|d|..] == t;
      assert !StartsWith(t, w') by {
        assert |w'| <= |t| ==> t[..|w'|][0] == t[0];
      }
      assert MatchHere(s, w') == None;
      assert s[1..] == d[1..] + t;
      SkipDigits(d[1..], t, w');
    } else {
      assert d + t == t;
    }
  }

  /** No start index inside a run of non-digits begins a match. */
  lemma {:induction false} SkipNonDigits(w: string, rest: string, w': string)
    requires forall k :: 0 <= k < |w| ==> !IsDigit(w[k])
    ensures Search(w + rest, w') == Search(rest, w')
  {
    if |w| > 0 {
      assert RunLen(w + rest) == 0;
      assert (w + rest)[1..] == w[1..] + rest;
      SkipNonDigits(w[1..], rest, w');
    } else {
      assert w + rest == rest;
    }
  }

  /** In `str(n) + W + rest`, a search for the word `W'` either matches the
      leading numeral (when `W' == W`) or skips the whole part: the first
      match of a unit wins, and the other units ignore it. */
  lemma {:induction false} SearchPart(n: nat, w: string, rest: string, w': string)
    requires WellFormedWord(w) && WellFormedWord(w')
    requires forall k :: 0 <= k < |w| ==> !IsDigit(w[k])
    requires w == w' || w[0] != w'[0]
    ensures Search(NatToString(n) + w + rest, w') ==
              if w == w' then Some(n as real) else Search(rest, w')
  {
    var num := NatToString(n);
    var s := num + w + rest;
    assert s == num + (w + rest);
    if w == w' {
      RunLenAppend(num, w + rest);
      assert s[..|num|] == num;
      assert s[|num|..] == w + rest;
      assert StartsWith(w + rest, w') by {
        assert (w + rest)[..|w|] == w;
      }
      assert MatchHere(s, w') == Some(n as real);
    } else {
      SkipDigits(num, w + rest, w');
      SkipNonDigits(w, rest, w');
    }
  }

  /** The rendering of a non-zero amount, before the all-zero case. */
  function Compact(a: nat, b: nat, c: nat, d: nat): string {
    Part(a, Eok) + Part(b, CheonMan) + Part(c, BaekMan) + Part(d, Man)
  }

  lemma {:induction false} NoSpaceAppend(x: string, y: string)
    requires NoSpace(x) && NoSpace(y)
    ensures NoSpace(x + y)
  {
    assert forall k :: |x| <= k < |x + y| ==> (x + y)[k] == y[k - |x|];
  }

  /** A part holds digits and a unit word only. */
  lemma {:induction false} PartPlain(n: nat, u: Unit)
    requires PlainUnit(u) && NoSpace(u.word) && ',' !in u.word
    ensures NoSpace(Part(n, u)) && ',' !in Part(n, u)
  {
    if n > 0 {
      var num := NatToString(n);
      assert forall k :: 0 <= k < |num| ==> IsDigit(num[k]);
      assert NoSpace(num);
      assert NoSpace(u.word);
      NoSpaceAppend(num, u.word);
    }
  }

  /** A rendering holds no whitespace and no comma. */
  lemma {:induction false} CompactPlain(a: nat, b: nat, c: nat, d: nat)
    ensures NoSpace(Compact(a, b, c, d)) && ',' !in Compact(a, b, c, d)
  {
    var pa, pb, pc, pd := Part(a, Eok), Part(b, CheonMan), Part(c, BaekMan), Part(d, Man);
    UnitsPlain();
    PartPlain(a, Eok);
    PartPlain(b, CheonMan);
    PartPlain(c, BaekMan);
    PartPlain(d, Man);
    NoSpaceAppend(pa, pb);
    NoSpaceAppend(pa + pb, pc);
    NoSpaceAppend(pa + pb + pc, pd);
  }

  /** Cleaning leaves a text without whitespace and commas as it is. */
  lemma {:induction false} CleanPlain(s: string)
    requires NoSpace(s) && ',' !in s
    ensures Clean(s) == s
  {
    StripNoSpace(s);
    assert ' ' !in s by {
      assert IsSpace(' ');
    }
  }

  /** A non-zero rendering contains a unit word, so it is not all digits. */
  lemma {:induction false} CompactNotDigits(a: nat, b: nat, c: nat, d: nat)
    requires !(a == 0 && b == 0 && c == 0 && d == 0)
    ensures !AllDigits(Compact(a, b, c, d))
  {
    var s := Compact(a, b, c, d);
    var pa, pb, pc := Part(a, Eok), Part(b, CheonMan), Part(c, BaekMan);
    if a > 0 {
      assert !IsDigit(s[|NatToString(a)|]);
    } else if b > 0 {
      assert !IsDigit(s[|pa| + |NatToString(b)|]);
    } else if c > 0 {
      assert !IsDigit(s[|pa| + |pb| + |NatToString(c)|]);
    } else {
      assert !IsDigit(s[|pa| + |pb| + |pc| + |NatToString(d)|]);
    }
  }

  /** A unit of the table: a well-formed word made of non-digits. */
  predicate PlainUnit(u: Unit) {
    WellFormedWord(u.word) && forall k :: 0 <= k < |u.word| ==> !IsDigit(u.word[k])
  }

  /** A search for a unit word finds the count of its own part first. */
  lemma {:induction false} SearchOwnPart(n: nat, u: Unit, rest: string)
    requires PlainUnit(u) && n > 0
    ensures Search(Part(n, u) + rest, u.word) == Some(n as real)
  {
    SearchPart(n, u.word, rest, u.word);
  }

  /** A search for a word that starts differently skips a part. */
  lemma {:induction false} SearchOtherPart(n: nat, u: Unit, rest: string, w': string)
    requires PlainUnit(u) && WellFormedWord(w') && u.word[0] != w'[0]
    ensures Search(Part(n, u) + rest, w') == Search(rest, w')
  {
    if n == 0 {
      assert Part(n, u) + rest == rest;
    } else {
      SearchPart(n, u.word, rest, w');
    }
  }

  lemma {:induction false} UnitsPlain()
    ensures PlainUnit(Eok) && PlainUnit(CheonMan) && PlainUnit(BaekMan) && PlainUnit(Man)
  {
  }

  // Each unit finds exactly its own count in a rendering, or nothing when
  // that count is zero; one lemma per unit keeps the proofs small.

  lemma {:induction false} SearchCompactEok(a: nat, b: nat, c: nat, d: nat)
    ensures Search(Compact(a, b, c, d), "억") == if a > 0 then Some(a as real) else None
  {
    UnitsPlain();
    var pd := Part(d, Man);
    var pc := Part(c, BaekMan) + pd;
    var pb := Part(b, CheonMan) + pc;
    assert Compact(a, b, c, d) == Part(a, Eok) + pb;
    if a > 0 {
      SearchOwnPart(a, Eok, pb);
    } else {
      assert Part(a, Eok) + pb == pb;
      SearchOtherPart(b, CheonMan, pc, "억");
      SearchOtherPart(c, BaekMan, pd, "억");
      assert pd == Part(d, Man) + "";
      SearchOtherPart(d, Man, "", "억");
    }
  }

  lemma {:induction false} SearchCompactCheonMan(a: nat, b: nat, c: nat, d: nat)
    ensures Search(Compact(a, b, c, d), "천만") == if b > 0 then Some(b as real) else None
  {
    UnitsPlain();
    var pd := Part(d, Man);
    var pc := Part(c, BaekMan) + pd;
    var pb := Part(b, CheonMan) + pc;
    assert Compact(a, b, c, d) == Part(a, Eok) + pb;
    SearchOtherPart(a, Eok, pb, "천만");
    if b > 0 {
      SearchOwnPart(b, CheonMan, pc);
    } else {
      assert Part(b, CheonMan) + pc == pc;
      SearchOtherPart(c, BaekMan, pd, "천만");
      assert pd == Part(d, Man) + "";
      SearchOtherPart(d, Man, "", "천만");
    }
  }

  lemma {:induction false} SearchCompactBaekMan(a: nat, b: nat, c: nat, d: nat)
    ensures Search(Compact(a, b, c, d), "백만") == if c > 0 then Some(c as real) else None
  {
    UnitsPlain();
    var pd := Part(d, Man);
    var pc := Part(c, BaekMan) + pd;
    var pb := Part(b, CheonMan) + pc;
    assert Compact(a, b, c, d) == Part(a, Eok) + pb;
    SearchOtherPart(a, Eok, pb, "백만");
    SearchOtherPart(b, CheonMan, pc, "백만");
    if c > 0 {
      SearchOwnPart(c, BaekMan, pd);
    } else {
      assert Part(c, BaekMan) + pd == pd;
      assert pd == Part(d, Man) + "";
      SearchOtherPart(d, Man, "", "백만");
    }
  }

  lemma {:induction false} SearchCompactMan(a: nat, b: nat, c: nat, d: nat)
    ensures Search(Compact(a, b, c, d), "만") == if d > 0 then Some(d as real) else None
  {
    UnitsPlain();
    var pd := Part(d, Man);
    var pc := Part(c, BaekMan) + pd;
    var pb := Part(b, CheonMan) + pc;
    assert Compact(a, b, c, d) == Part(a, Eok) + pb;
    SearchOtherPart(a, Eok, pb, "만");
    SearchOtherPart(b, CheonMan, pc, "만");
    SearchOtherPart(c, BaekMan, pd, "만");
    SearchLastPart(d, Man);
  }

  /** A search for a unit word in its own part alone. */
  lemma {:induction false} SearchLastPart(n: nat, u: Unit)
    requires PlainUnit(u)
    ensures Search(Part(n, u), u.word) == if n > 0 then Some(n as real) else None
  {
    assert Part(n, u) + "" == Part(n, u);
    if n > 0 {
      SearchOwnPart(n, u, "");
    }
  }

  /** The loop over the four-unit table, unrolled. */
  lemma {:induction false} UnitSumUnits(s: string)
    ensures UnitSum(s, Units) ==
              Contribution(s, Eok) + Contribution(s, CheonMan) + Contribution(s, BaekMan) + Contribution(s, Man)
  {
    assert UnitSum(s, [Man]) == Contribution(s, Man) + UnitSum(s, []);
    assert UnitSum(s, [BaekMan, Man]) == Contribution(s, BaekMan) + UnitSum(s, [Man]);
    assert UnitSum(s, [CheonMan, BaekMan, Man]) ==
             Contribution(s, CheonMan) + UnitSum(s, [BaekMan, Man]);
  }

  /** When each unit finds exactly its count, the units add up to the worth. */
  lemma {:induction false} UnitSumOfCounts(s: string, a: nat, b: nat, c: nat, d: nat)
    requires Search(s, "억") == if a > 0 then Some(a as real) else None
    requires Search(s, "천만") == if b > 0 then Some(b as real) else None
    requires Search(s, "백만") == if c > 0 then Some(c as real) else None
    requires Search(s, "만") == if d > 0 then Some(d as real) else None
    ensures UnitSum(s, Units) == Worth(a, b, c, d) as real
  {
    UnitSumUnits(s);
    assert Contribution(s, Eok) == (a * 100_000_000) as real;
    assert Contribution(s, CheonMan) == (b * 10_000_000) as real;
    assert Contribution(s, BaekMan) == (c * 1_000_000) as real;
    assert Contribution(s, Man) == (d * 10_000) as real;
  }

  lemma {:induction false} CompactSum(a: nat, b: nat, c: nat, d: nat)
    ensures UnitSum(Compact(a, b, c, d), Units) == Worth(a, b, c, d) as real
  {
    SearchCompactEok(a, b, c, d);
    SearchCompactCheonMan(a, b, c, d);
    SearchCompactBaekMan(a, b, c, d);
    SearchCompactMan(a, b, c, d);
    UnitSumOfCounts(Compact(a, b, c, d), a, b, c, d);
  }

  /** A text with a unit in it reads as the sum of its units. */
  lemma {:induction false} ReadUnitText(s: string, total: nat)
    requires s != [] && !AllDigits(s)
    requires UnitSum(s, Units) == total as real && total > 0
    ensures ParseCleanText(s) == total
  {
  }

  /** A text without whitespace and commas, with a unit in it, parses to the
      sum of its units. */
  lemma {:induction false} ParseUnitText(s: string, total: nat)
    requires NoSpace(s) && ',' !in s && s != [] && !AllDigits(s)
    requires UnitSum(s, Units) == total as real && total > 0
    ensures ParseAmountText(s) == total
  {
    CleanPlain(s);
    ReadUnitText(s, total);
  }

  /** Parsing the canonical spelling of a non-zero amount gives back its
      worth: the four unit patterns are found independently and added. */
  lemma {:induction false} CompactRoundTrip(a: nat, b: nat, c: nat, d: nat)
    requires !(a == 0 && b == 0 && c == 0 && d == 0)
    ensures ParseAmountText(Compact(a, b, c, d)) == Worth(a, b, c, d)
  {
    CompactPlain(a, b, c, d);
    CompactNotDigits(a, b, c, d);
    CompactSum(a, b, c, d);
    ParseUnitText(Compact(a, b, c, d), Worth(a, b, c, d));
  }

  /** Parsing the canonical spelling of any amount gives back its worth. */
  lemma {:induction false} RenderRoundTrip(a: nat, b: nat, c: nat, d: nat)
    ensures ParseKoreanCurrency(Str(Render(a, b, c, d))) == Worth(a, b, c, d)
  {
    RenderParse(a, b, c, d);
  }

  lemma {:induction false} RenderParse(a: nat, b: nat, c: nat, d: nat)
    ensures ParseAmountText(Render(a, b, c, d)) == Worth(a, b, c, d)
  {
    if a == 0 && b == 0 && c == 0 && d == 0 {
      ZeroRoundTrip();
    } else {
      assert Render(a, b, c, d) == Compact(a, b, c, d);
      CompactRoundTrip(a, b, c, d);
    }
  }

  lemma {:induction false} ZeroRoundTrip()
    ensures ParseAmountText(Render(0, 0, 0, 0)) == 0
  {
    var z := "0";
    assert Render(0, 0, 0, 0) == z;
    assert NoSpace(z) && ',' !in z by {
      assert z[0] == '0' && !IsSpace('0');
    }
    CleanPlain(z);
    assert AllDigits(z) && DigitsValue(z) == 0 by {
      assert z[..0] == [];
    }
    assert ParseCleanText(z) == 0;
  }

  /** Texts that clean to the same string parse alike. */
  lemma {:induction false} SameClean(s: string, t: string)
    requires Clean(s) == Clean(t)
    ensures ParseAmountText(s) == ParseAmountText(t)
  {
  }

  // ---------------------------------------------------------------------
  // The documented examples
  // ---------------------------------------------------------------------

  /** "3억 5천만" is 350,000,000 won: the space is dropped before the units
      are searched. */
  lemma {:induction false} ExampleEokCheonMan()
    ensures ParseKoreanCurrency(Str("3억 5천만")) == 350_000_000
  {
    var s := "3억 5천만";
    var c := "3억5천만";
    assert NatToString(3) == "3";
    assert NatToString(5) == "5";
    assert Compact(3, 5, 0, 0) == c;
    CompactRoundTrip(3, 5, 0, 0);
    CleanExample();
    CompactPlain(3, 5, 0, 0);
    CleanPlain(c);
    SameClean(s, c);
  }

  lemma {:induction false} CleanExample()
    ensures Clean("3억 5천만") == "3억5천만"
  {
    var s := "3억 5천만";
    StripTrimmed(s);
    assert ',' !in s;
    DropSpaceExample();
  }

  lemma {:induction false} DropSpaceExample()
    ensures RemoveChar("3억 5천만", ' ') == "3억5천만"
  {
    var s := "3억 5천만";
    assert s[2..][1..] == "5천만";
    assert RemoveChar(s[2..], ' ') == "5천만";
    assert s[1..][1..] == s[2..];
    assert RemoveChar(s[1..], ' ') == "억5천만";
  }

  /** "1200만" is 12,000,000 won: 천 does not occur, so only 만 matches. */
  lemma {:induction false} ExampleMan()
    ensures ParseKoreanCurrency(Str("1200만")) == 12_000_000
  {
    assert NatToString(1200) == "1200" by {
      assert NatToString(1) == "1";
      assert NatToString(12) == "12";
      assert NatToString(120) == "120";
    }
    assert Render(0, 0, 0, 1200) == "1200만";
    RenderRoundTrip(0, 0, 0, 1200);
  }
}
