/** Character classes and string operations of Python 3 that the planning and
    reporting tools lean on: `str.strip()`, `str.replace(c, "")`, ASCII digit
    runs, `str(int)`, and the literal grammars accepted by `int(str)` and
    `float(str)`. Strings are `seq<char>` over Unicode scalar values. */
module Text {
  import opened Optional

  // ---------------------------------------------------------------------
  // Whitespace and stripping
  // ---------------------------------------------------------------------

  /** The characters for which Python's `str.isspace()` holds; the same set is
      matched by `\s` in a `str` regular expression and removed by
      `str.strip()` without arguments. */
  predicate IsSpace(c: char) {
    || ('\t' <= c <= '\r')
    || ('\U{1C}' <= c <= '\U{1F}')
    || c == ' '
    || c == '\U{85}'
    || c == '\U{A0}'
    || c == '\U{1680}'
    || ('\U{2000}' <= c <= '\U{200A}')
    || c == '\U{2028}'
    || c == '\U{2029}'
    || c == '\U{202F}'
    || c == '\U{205F}'
    || c == '\U{3000}'
  }

  /** `s.lstrip()`: drops the leading whitespace run. */
  function TrimLeft(s: string): (r: string)
    ensures |r| <= |s| && r == s[|s| - |r|..]
    ensures r == [] || !IsSpace(r[0])
    ensures forall i :: 0 <= i < |s| - |r| ==> IsSpace(s[i])
  {
    if |s| > 0 && IsSpace(s[0]) then TrimLeft(s[1..]) else s
  }

  /** `s.rstrip()`: drops the trailing whitespace run. */
  function TrimRight(s: string): (r: string)
    ensures |r| <= |s| && r == s[..|r|]
    ensures r == [] || !IsSpace(r[|r| - 1])
    ensures forall i :: |r| <= i < |s| ==> IsSpace(s[i])
  {
    if |s| > 0 && IsSpace(s[|s| - 1]) then TrimRight(s[..|s| - 1]) else s
  }

  /** `s.strip()`: the longest infix of `s` that neither starts nor ends with
      whitespace, obtained by removing whitespace only at the two ends. */
  function Strip(s: string): (r: string)
    ensures r == [] || (!IsSpace(r[0]) && !IsSpace(r[|r| - 1]))
    ensures |r| <= |s|
    ensures forall x :: x in r ==> x in s
  {
    var l := TrimLeft(s);
    var r := TrimRight(l);
    assert forall x :: x in l ==> x in s;
    r
  }

  predicate NoSpace(s: string) {
    forall i :: 0 <= i < |s| ==> !IsSpace(s[i])
  }

  lemma {:induction false} TrimLeftNonSpace(x: string)
    requires x == [] || !IsSpace(x[0])
    ensures TrimLeft(x) == x
  {
    var l := TrimLeft(x);
    if x != [] {
      var c := x[0];
      assert !IsSpace(c);
    }
  }

  lemma {:induction false} TrimRightNonSpace(x: string)
    requires x == [] || !IsSpace(x[|x| - 1])
    ensures TrimRight(x) == x
  {
    var r := TrimRight(x);
    if x != [] {
      var c := x[|x| - 1];
      assert !IsSpace(c);
    }
  }

  /** Leading whitespace does not change `lstrip`. */
  lemma {:induction false} TrimLeftSpaces(p: string, x: string)
    requires forall k :: 0 <= k < |p| ==> IsSpace(p[k])
    ensures TrimLeft(p + x) == TrimLeft(x)
  {
    if |p| > 0 {
      assert (p + x)[1..] == p[1..] + x;
      TrimLeftSpaces(p[1..], x);
    } else {
      assert p + x == x;
    }
  }

  /** Trailing whitespace does not change `rstrip`. */
  lemma {:induction false} TrimRightSpaces(x: string, p: string)
    requires forall k :: 0 <= k < |p| ==> IsSpace(p[k])
    ensures TrimRight(x + p) == TrimRight(x)
  {
    if |p| > 0 {
      assert (x + p)[..|x + p| - 1] == x + p[..|p| - 1];
      TrimRightSpaces(x, p[..|p| - 1]);
    } else {
      assert x + p == x;
    }
  }

  /** `strip` removes exactly the whitespace padding around a trimmed core. */
  lemma {:induction false} StripPadded(pre: string, core: string, post: string)
    requires forall k :: 0 <= k < |pre| ==> IsSpace(pre[k])
    requires forall k :: 0 <= k < |post| ==> IsSpace(post[k])
    requires core == [] || (!IsSpace(core[0]) && !IsSpace(core[|core| - 1]))
    ensures Strip(pre + core + post) == core
  {
    assert pre + core + post == pre + (core + post);
    TrimLeftSpaces(pre, core + post);
    if core == [] {
      assert core + post == post;
      TrimLeftSpaces(post, []);
      assert post + [] == post;
    } else {
      TrimLeftNonSpace(core + post);
      TrimRightSpaces(core, post);
      TrimRightNonSpace(core);
    }
  }

  /** A string that neither starts nor ends with whitespace is its own strip
      (whitespace inside it stays). */
  lemma {:induction false} StripTrimmed(s: string)
    requires s == [] || (!IsSpace(s[0]) && !IsSpace(s[|s| - 1]))
    ensures Strip(s) == s
  {
    TrimLeftNonSpace(s);
    TrimRightNonSpace(s);
  }

  /** `strip` cuts a string into whitespace, the stripped text, and
      whitespace. */
  lemma {:induction false} StripSplit(s: string) returns (pre: string, post: string)
    ensures s == pre + Strip(s) + post
    ensures forall k :: 0 <= k < |pre| ==> IsSpace(pre[k])
    ensures forall k :: 0 <= k < |post| ==> IsSpace(post[k])
  {
    var l := TrimLeft(s);
    pre := LeftPad(s);
    post := RightPad(l);
    Rejoin(s, pre, l, Strip(s), post);
  }

  lemma {:induction false} Rejoin(s: string, pre: string, l: string, core: string, post: string)
    requires s == pre + l && l == core + post
    ensures s == pre + core + post
  {
  }

  /** The whitespace `lstrip` removes. */
  lemma {:induction false} LeftPad(s: string) returns (pre: string)
    ensures s == pre + TrimLeft(s)
    ensures forall k :: 0 <= k < |pre| ==> IsSpace(pre[k])
  {
    pre := SpacePrefix(s, TrimLeft(s));
  }

  /** A suffix after nothing but whitespace leaves that whitespace as the
      prefix. */
  lemma {:induction false} SpacePrefix(s: string, l: string) returns (pre: string)
    requires |l| <= |s| && l == s[|s| - |l|..]
    requires forall i :: 0 <= i < |s| - |l| ==> IsSpace(s[i])
    ensures s == pre + l
    ensures forall k :: 0 <= k < |pre| ==> IsSpace(pre[k])
  {
    pre := s[..|s| - |l|];
    assert s == pre + s[|s| - |l|..];
    assert forall k :: 0 <= k < |pre| ==> pre[k] == s[k];
  }

  /** The whitespace `rstrip` removes. */
  lemma {:induction false} RightPad(s: string) returns (post: string)
    ensures s == TrimRight(s) + post
    ensures forall k :: 0 <= k < |post| ==> IsSpace(post[k])
  {
    var r := TrimRight(s);
    post := s[|r|..];
    assert forall k :: 0 <= k < |post| ==> post[k] == s[|r| + k];
  }

  /** A string with no whitespace is its own strip. */
  lemma {:induction false} StripNoSpace(s: string)
    requires NoSpace(s)
    ensures Strip(s) == s
  {
    StripTrimmed(s);
  }

  /** `s.replace(c, "")` for a one-character pattern: every occurrence of `c`
      is deleted, everything else keeps its order. */
  function RemoveChar(s: string, c: char): (r: string)
    ensures c !in r
    ensures |r| <= |s|
    ensures forall x :: x in r ==> x in s
    ensures c !in s ==> r == s
  {
    if |s| == 0 then []
    else if s[0] == c then RemoveChar(s[1..], c)
    else [s[0]] + RemoveChar(s[1..], c)
  }

  lemma {:induction false} RemoveCharAppend(a: string, b: string, c: char)
    ensures RemoveChar(a + b, c) == RemoveChar(a, c) + RemoveChar(b, c)
  {
    if |a| == 0 {
      assert a + b == b;
    } else {
      assert (a + b)[1..] == a[1..] + b;
      RemoveCharAppend(a[1..], b, c);
    }
  }

  /** Removing `c` makes one more `c` in the middle irrelevant. */
  lemma {:induction false} RemoveCharDrop(a: string, b: string, c: char)
    ensures RemoveChar(a + [c] + b, c) == RemoveChar(a + b, c)
  {
    RemoveCharAppend(a + [c], b, c);
    RemoveCharAppend(a, [c], c);
    RemoveCharAppend(a, b, c);
    assert RemoveChar([c], c) == [];
    assert RemoveChar(a, c) + [] == RemoveChar(a, c);
  }

  /** Blanks hold no comma and vanish when blanks are removed. */
  lemma {:induction false} RemoveBlanks(p: string)
    requires forall k :: 0 <= k < |p| ==> p[k] == ' '
    ensures RemoveChar(p, ' ') == [] && RemoveChar(p, ',') == p
  {
    assert ',' !in p;
    if |p| > 0 {
      RemoveBlanks(p[1..]);
    }
  }

  /** Removing commas and then blanks ignores blank padding. */
  lemma {:induction false} RemoveCommasBlanksPadded(pre: string, x: string, post: string)
    requires forall k :: 0 <= k < |pre| ==> pre[k] == ' '
    requires forall k :: 0 <= k < |post| ==> post[k] == ' '
    ensures RemoveChar(RemoveChar(pre + x + post, ','), ' ') == RemoveChar(RemoveChar(x, ','), ' ')
  {
    RemoveBlanks(pre);
    RemoveBlanks(post);
    var y := RemoveChar(x, ',');
    RemoveCharAppend(pre + x, post, ',');
    RemoveCharAppend(pre, x, ',');
    assert RemoveChar(pre + x + post, ',') == pre + y + post;
    RemoveCharAppend(pre + y, post, ' ');
    RemoveCharAppend(pre, y, ' ');
    assert [] + RemoveChar(y, ' ') + [] == RemoveChar(y, ' ');
  }

  /** Removing a non-digit keeps every digit. */
  lemma {:induction false} RemoveCharKeepsDigits(s: string, c: char)
    requires !IsDigit(c)
    ensures HasDigit(s) ==> HasDigit(RemoveChar(s, c))
  {
    if |s| > 0 {
      var r := RemoveChar(s, c);
      RemoveCharKeepsDigits(s[1..], c);
      if IsDigit(s[0]) {
        assert r[0] == s[0];
      } else if HasDigit(s) {
        var k :| 0 <= k < |s| && IsDigit(s[k]);
        assert IsDigit(s[1..][k - 1]);
        var t := RemoveChar(s[1..], c);
        var m :| 0 <= m < |t| && IsDigit(t[m]);
        if s[0] != c {
          assert r[m + 1] == t[m];
        }
      }
    }
  }

  // ---------------------------------------------------------------------
  // ASCII case
  // ---------------------------------------------------------------------

  /** ASCII lower-casing of one character. */
  function LowerChar(c: char): (r: char)
    ensures 'A' <= c <= 'Z' ==> 'a' <= r <= 'z'
    ensures !('A' <= c <= 'Z') ==> r == c
  {
    if 'A' <= c <= 'Z' then (c as int - 'A' as int + 'a' as int) as char else c
  }

  /** `s.lower()` restricted to ASCII letters. */
  function Lower(s: string): (r: string)
    ensures |r| == |s|
    ensures forall i :: 0 <= i < |s| ==> r[i] == LowerChar(s[i])
  {
    if |s| == 0 then [] else [LowerChar(s[0])] + Lower(s[1..])
  }

  /** `needle` occurs in `hay` starting at index `i`. */
  predicate OccursAt(hay: string, needle: string, i: int) {
    0 <= i <= |hay| - |needle| && hay[i..i + |needle|] == needle
  }

  /** `needle in hay` for strings: `needle` occurs as a contiguous infix. */
  predicate Contains(hay: string, needle: string) {
    exists i :: 0 <= i <= |hay| - |needle| && OccursAt(hay, needle, i)
  }

  // ---------------------------------------------------------------------
  // ASCII digits and decimal numerals
  // ---------------------------------------------------------------------

  predicate IsDigit(c: char) {
    '0' <= c <= '9'
  }

  predicate AllDigits(s: string) {
    forall i :: 0 <= i < |s| ==> IsDigit(s[i])
  }

  predicate HasDigit(s: string) {
    exists i :: 0 <= i < |s| && IsDigit(s[i])
  }

  /** The length of the run of ASCII digits at the start of `s`. */
  function RunLen(s: string): (n: nat)
    ensures n <= |s|
    ensures forall k :: 0 <= k < n ==> IsDigit(s[k])
    ensures n == |s| || !IsDigit(s[n])
  {
    if |s| > 0 && IsDigit(s[0]) then 1 + RunLen(s[1..]) else 0
  }

  /** A digit of a string whose characters all occur in another is a digit of
      that other string. */
  lemma {:induction false} HasDigitTransfer(t: string, s: string)
    requires forall x :: x in t ==> x in s
    ensures HasDigit(t) ==> HasDigit(s)
  {
    if HasDigit(t) {
      var k :| 0 <= k < |t| && IsDigit(t[k]);
      assert t[k] in s;
      var m :| 0 <= m < |s| && s[m] == t[k];
    }
  }

  function DigitValue(c: char): (r: nat)
    requires IsDigit(c)
    ensures r < 10
  {
    c as int - '0' as int
  }

  function DigitChar(d: nat): (c: char)
    requires d < 10
    ensures IsDigit(c) && DigitValue(c) == d
  {
    ('0' as int + d) as char
  }

  /** The value of a string of ASCII decimal digits, most significant first
      (the empty string reads as 0). */
  function DigitsValue(s: string): nat
    requires AllDigits(s)
  {
    if |s| == 0 then 0 else DigitsValue(s[..|s| - 1]) * 10 + DigitValue(s[|s| - 1])
  }

  function Pow10(n: nat): (r: nat)
    ensures r >= 1
  {
    if n == 0 then 1 else 10 * Pow10(n - 1)
  }

  /** A digit string is worth less than ten to the power of its length. */
  lemma {:induction false} DigitsValueBound(s: string)
    requires AllDigits(s)
    ensures DigitsValue(s) < Pow10(|s|)
  {
    if |s| > 0 {
      DigitsValueBound(s[..|s| - 1]);
    }
  }

  /** Reading `a + b` shifts `a` left by the width of `b`. */
  lemma {:induction false} DigitsValueAppend(a: string, b: string)
    requires AllDigits(a) && AllDigits(b)
    ensures AllDigits(a + b)
    ensures DigitsValue(a + b) == DigitsValue(a) * Pow10(|b|) + DigitsValue(b)
  {
    if |b| == 0 {
      assert a + b == a;
    } else {
      var b' := b[..|b| - 1];
      var d := DigitValue(b[|b| - 1]);
      assert (a + b)[..|a + b| - 1] == a + b';
      assert (a + b)[|a + b| - 1] == b[|b| - 1];
      DigitsValueAppend(a, b');
      var x, y := DigitsValue(a), DigitsValue(b');
      assert DigitsValue(a + b) == DigitsValue(a + b') * 10 + d;
      assert DigitsValue(b) == y * 10 + d;
      assert Pow10(|b|) == Pow10(|b'|) * 10;
      ShiftDigit(x, Pow10(|b'|), y, d);
    }
  }

  /** `(x * p + y) * 10 + d == x * (p * 10) + (y * 10 + d)`. */
  lemma {:induction false} ShiftDigit(x: int, p: int, y: int, d: int)
    ensures (x * p + y) * 10 + d == x * (p * 10) + (y * 10 + d)
  {
  }

  /** `str(n)` for a non-negative int: the shortest decimal numeral. */
  function NatToString(n: nat): (r: string)
    ensures |r| > 0 && AllDigits(r)
    ensures DigitsValue(r) == n
    ensures r[0] != '0' || n == 0
    decreases n
  {
    if n < 10 then [DigitChar(n)]
    else
      var p := NatToString(n / 10);
      var r := p + [DigitChar(n % 10)];
      assert r[..|r| - 1] == p;
      r
  }

  /** Distinct numbers have distinct numerals. */
  lemma {:induction false} NatToStringInjective(m: nat, n: nat)
    requires NatToString(m) == NatToString(n)
    ensures m == n
  {
  }

  /** A numeral followed by text that does not start with a digit can be
      split only one way: the numbers and the rests agree. */
  lemma {:induction false} NumeralPrefix(a: nat, x: string, b: nat, y: string)
    requires NatToString(a) + x == NatToString(b) + y
    requires x == [] || !IsDigit(x[0])
    requires y == [] || !IsDigit(y[0])
    ensures a == b && x == y
  {
    var na, nb := NatToString(a), NatToString(b);
    if |na| < |nb| {
      NumeralLonger(na, x, nb, y);
    } else if |nb| < |na| {
      NumeralLonger(nb, y, na, x);
    }
    assert na == (na + x)[..|na|];
    assert nb == (nb + y)[..|nb|];
    NatToStringInjective(a, b);
    assert x == (na + x)[|na|..];
    assert y == (nb + y)[|nb|..];
  }

  /** The shorter of two digit runs cannot be followed by a non-digit where
      the longer goes on. */
  lemma {:induction false} NumeralLonger(na: string, x: string, nb: string, y: string)
    requires AllDigits(nb) && |na| < |nb|
    requires x == [] || !IsDigit(x[0])
    ensures na + x != nb + y
  {
    if x != [] {
      assert (na + x)[|na|] == x[0];
      assert (nb + y)[|na|] == nb[|na|];
    }
  }

  /** `str(i)` for any int: a minus sign before the numeral of `|i|`. */
  function IntToString(i: int): (r: string)
    ensures |r| > 0
    ensures i >= 0 ==> r == NatToString(i)
    ensures i < 0 ==> r == "-" + NatToString(-i)
  {
    if i < 0 then "-" + NatToString(-i) else NatToString(i)
  }

  /** Splits an optional leading `+` or `-`: returns (negative?, rest). */
  function SplitSign(s: string): (r: (bool, string))
    ensures |r.1| <= |s|
    ensures |s| > 0 && (s[0] == '+' || s[0] == '-') ==> r == (s[0] == '-', s[1..])
    ensures !(|s| > 0 && (s[0] == '+' || s[0] == '-')) ==> r == (false, s)
  {
    if |s| > 0 && (s[0] == '+' || s[0] == '-') then (s[0] == '-', s[1..]) else (false, s)
  }

  /** The digit part of a Python `int(str)` literal: ASCII digits, where single
      underscores may separate two digits. */
  predicate IntBody(b: string) {
    && |b| > 0
    && IsDigit(b[0]) && IsDigit(b[|b| - 1])
    && (forall i :: 0 <= i < |b| ==> IsDigit(b[i]) || b[i] == '_')
    && (forall i :: 0 <= i < |b| - 1 ==> !(b[i] == '_' && b[i + 1] == '_'))
  }

  lemma {:induction false} DigitsAreIntBody(b: string)
    requires |b| > 0 && AllDigits(b)
    ensures IntBody(b)
  {
  }

  /** Python's `int(s)` for a string in base 10: surrounding whitespace is
      ignored, one optional sign, then an underscore-separated digit run.
      Anything else raises ValueError, modelled as None. */
  function ParseIntLiteral(s: string): (r: Option<int>)
    ensures r.Some? ==> HasDigit(s)
  {
    var sign := SplitSign(Strip(s));
    if !IntBody(sign.1) then None
    else
      assert IsDigit(sign.1[0]) && sign.1[0] in Strip(s);
      var v: int := IntBodyValue(sign.1);
      Some(if sign.0 then -v else v)
  }

  /** The value of an underscore-separated digit run. */
  function IntBodyValue(b: string): nat
    requires IntBody(b)
  {
    UnderscoresRemovedAreDigits(b);
    DigitsValue(RemoveChar(b, '_'))
  }

  lemma {:induction false} UnderscoresRemovedAreDigits(b: string)
    requires forall i :: 0 <= i < |b| ==> IsDigit(b[i]) || b[i] == '_'
    ensures AllDigits(RemoveChar(b, '_'))
  {
    if |b| > 0 {
      UnderscoresRemovedAreDigits(b[1..]);
    }
  }

  /** The numeral of an int contains no whitespace. */
  lemma {:induction false} NumeralNoSpace(i: int)
    ensures NoSpace(IntToString(i))
  {
    var s := IntToString(i);
    var d := NatToString(if i < 0 then -i else i);
    forall k | 0 <= k < |s| ensures !IsSpace(s[k]) {
      if i < 0 && k > 0 {
        assert s[k] == d[k - 1];
        assert IsDigit(d[k - 1]);
      } else if i >= 0 {
        assert IsDigit(s[k]);
      }
    }
  }

  /** A numeral holds no percent sign. */
  lemma {:induction false} NumeralNoPercent(i: int)
    ensures '%' !in IntToString(i)
  {
    var s := IntToString(i);
    var d := NatToString(if i < 0 then -i else i);
    assert forall k :: 0 <= k < |d| ==> IsDigit(d[k]);
    assert i < 0 ==> forall k :: 0 < k < |s| ==> s[k] == d[k - 1];
  }

  /** `int(str(i)) == i` for every int. */
  lemma {:induction false} IntLiteralRoundTrip(i: int)
    ensures ParseIntLiteral(IntToString(i)) == Some(i)
  {
    var s := IntToString(i);
    var d := NatToString(if i < 0 then -i else i);
    NumeralNoSpace(i);
    StripNoSpace(s);
    assert SplitSign(s) == (i < 0, d);
    DigitsAreIntBody(d);
    assert RemoveChar(d, '_') == d by {
      assert forall k :: 0 <= k < |d| ==> IsDigit(d[k]);
    }
  }

  // ---------------------------------------------------------------------
  // Python float literals, read as exact rationals
  // ---------------------------------------------------------------------

  /** `x * 10^e` for an integer exponent. */
  function Scale(x: real, e: int): real
  {
    if e >= 0 then x * (Pow10(e) as real) else x / (Pow10(-e) as real)
  }

  /** Index of the first occurrence of `c` in `s`, if any. */
  function IndexOf(s: string, c: char): (r: Option<nat>)
    ensures r.Some? ==> r.value < |s| && s[r.value] == c && c !in s[..r.value]
    ensures r.None? ==> c !in s
  {
    if |s| == 0 then None
    else if s[0] == c then Some(0)
    else
      match IndexOf(s[1..], c)
      case None => None
      case Some(k) =>
        assert s[..k + 1] == [s[0]] + s[1..][..k];
        Some(k + 1)
  }

  /** The mantissa of a float literal: `digits`, `digits.`, `digits.digits`
      or `.digits`. */
  function ParseMantissa(m: string): (r: Option<real>)
    ensures r.Some? ==> r.value >= 0.0
  {
    match IndexOf(m, '.')
    case None =>
      if |m| > 0 && AllDigits(m) then Some(DigitsValue(m) as real) else None
    case Some(k) =>
      var ip := m[..k];
      var fp := m[k + 1..];
      if AllDigits(ip) && AllDigits(fp) && |ip| + |fp| > 0 then
        var frac := (DigitsValue(fp) as real) / (Pow10(|fp|) as real);
        QuotientNonNegative(DigitsValue(fp) as real, Pow10(|fp|) as real);
        Some(DigitsValue(ip) as real + frac)
      else None
  }

  lemma {:induction false} QuotientNonNegative(a: real, b: real)
    requires a >= 0.0 && b > 0.0
    ensures a / b >= 0.0
  {
    assert a / b * b == a;
  }

  /** An optional exponent suffix `[+-]digits`, as the power of ten it
      denotes. */
  function ParseExponent(es: string): (r: Option<int>)
  {
    var (eneg, edigits) := SplitSign(es);
    if |edigits| > 0 && AllDigits(edigits) then
      var ev: int := DigitsValue(edigits);
      Some(if eneg then -ev else ev)
    else None
  }

  /** An unsigned float literal: a mantissa, then optionally `e` or `E` and an
      exponent. */
  function ParseUnsignedDecimal(body: string): (r: Option<real>)
    ensures r.Some? ==> r.value >= 0.0
  {
    var e := match IndexOf(body, 'e') case Some(k) => Some(k) case None => IndexOf(body, 'E');
    match e
    case None => ParseMantissa(body)
    case Some(k) =>
      match (ParseMantissa(body[..k]), ParseExponent(body[k + 1..]))
      case (Some(mv), Some(ev)) =>
        assert mv >= 0.0;
        Some(Scale(mv, ev))
      case _ => None
  }

  /** Python's `float(s)` on a finite decimal literal: surrounding whitespace,
      one optional sign, a mantissa and an optional exponent `e[+-]digits`.
      The special spellings `inf`/`nan` and underscore separators read as None
      (see the README). It succeeds only on text that holds a digit: a string
      without digits always raises. */
  function ParseDecimal(s: string): (r: Option<real>)
    ensures r.Some? ==> HasDigit(s)
  {
    var (neg, body) := SplitSign(Strip(s));
    match ParseUnsignedDecimal(body)
    case None => None
    case Some(v) =>
      assert HasDigit(s) by {
        UnsignedDecimalHasDigit(body);
        assert forall x :: x in body ==> x in Strip(s);
        HasDigitTransfer(body, s);
      }
      Some(if neg then -v else v)
  }

  /** Every float literal has a digit in its mantissa. */
  lemma {:induction false} MantissaHasDigit(m: string)
    ensures ParseMantissa(m).Some? ==> HasDigit(m)
  {
    if ParseMantissa(m).Some? {
      match IndexOf(m, '.')
      case None =>
        assert IsDigit(m[0]);
      case Some(k) =>
        var ip := m[..k];
        var fp := m[k + 1..];
        if |ip| > 0 {
          assert IsDigit(ip[0]) && ip[0] == m[0];
        } else {
          assert IsDigit(fp[0]) && fp[0] == m[k + 1];
        }
    }
  }

  lemma {:induction false} UnsignedDecimalHasDigit(body: string)
    ensures ParseUnsignedDecimal(body).Some? ==> HasDigit(body)
  {
    if ParseUnsignedDecimal(body).Some? {
      var e := match IndexOf(body, 'e') case Some(k) => Some(k) case None => IndexOf(body, 'E');
      match e
      case None =>
        MantissaHasDigit(body);
      case Some(k) =>
        MantissaHasDigit(body[..k]);
        HasDigitTransfer(body[..k], body);
    }
  }

  /** A plain digit run is an unsigned float literal worth its digits. */
  lemma {:induction false} DigitsAreDecimal(d: string)
    requires |d| > 0 && AllDigits(d)
    ensures ParseUnsignedDecimal(d) == Some(DigitsValue(d) as real)
  {
    assert 'e' !in d && 'E' !in d && '.' !in d by {
      assert forall k :: 0 <= k < |d| ==> IsDigit(d[k]);
    }
  }

  /** `float(str(i)) == i` for every int. */
  lemma {:induction false} DecimalRoundTrip(i: int)
    ensures ParseDecimal(IntToString(i)) == Some(i as real)
  {
    var s := IntToString(i);
    var n: nat := if i < 0 then -i else i;
    var d := NatToString(n);
    NumeralNoSpace(i);
    StripNoSpace(s);
    assert SplitSign(Strip(s)) == (i < 0, d);
    DigitsAreDecimal(d);
    assert ParseUnsignedDecimal(d) == Some(n as real);
    assert (if i < 0 then -(n as real) else n as real) == i as real;
  }

  // ---------------------------------------------------------------------
  // Truncation of reals
  // ---------------------------------------------------------------------

  /** Python's `int(x)` on a finite float: rounds toward zero. */
  function Trunc(x: real): (r: int)
    ensures x >= 0.0 ==> 0 <= r && r as real <= x < r as real + 1.0
    ensures x < 0.0 ==> r <= 0 && r as real - 1.0 < x <= r as real
  {
    if x >= 0.0 then x.Floor else -((-x).Floor)
  }
}
