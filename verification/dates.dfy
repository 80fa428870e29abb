/** Calendar dates as the report tools use them: `datetime`'s range and
    month lengths, `strftime("%Y-%m-%d")`, `strptime(s, "%Y-%m-%d")`, and the
    month after a given month (`relativedelta(months=1)` from the first of a
    month). */
module Dates {
  import opened Optional
  import opened Text

  datatype Date = Date(year: int, month: int, day: int)

  /** The Gregorian leap-year rule. */
  predicate IsLeap(y: int) {
    y % 4 == 0 && (y % 100 != 0 || y % 400 == 0)
  }

  function DaysInMonth(y: int, m: int): (r: int)
    requires 1 <= m <= 12
    ensures 28 <= r <= 31
    ensures m == 2 ==> (r == 29 <==> IsLeap(y))
  {
    if m == 2 then (if IsLeap(y) then 29 else 28)
    else if m == 4 || m == 6 || m == 9 || m == 11 then 30
    else 31
  }

  /** What `datetime(year, month, day)` accepts: years 1 to 9999, months 1
      to 12, and a day the month has. */
  predicate ValidDate(d: Date) {
    1 <= d.year <= 9999 && 1 <= d.month <= 12 && 1 <= d.day <= DaysInMonth(d.year, d.month)
  }

  /** Two zero-padded digits. */
  function Pad2(n: nat): (r: string)
    requires n < 100
    ensures |r| == 2 && AllDigits(r) && DigitsValue(r) == n
  {
    var r := [DigitChar(n / 10), DigitChar(n % 10)];
    TwoDigits(r);
    r
  }

  /** Four zero-padded digits. */
  function Pad4(n: nat): (r: string)
    requires n < 10000
    ensures |r| == 4 && AllDigits(r) && DigitsValue(r) == n
  {
    var r := Pad2(n / 100) + Pad2(n % 100);
    DigitsValueAppend(Pad2(n / 100), Pad2(n % 100));
    r
  }

  /** `strftime("%Y-%m-%d")` on a valid date. */
  function FormatIso(d: Date): (r: string)
    requires ValidDate(d)
    ensures |r| == 10 && r[4] == '-' && r[7] == '-'
  {
    Pad4(d.year) + "-" + Pad2(d.month) + "-" + Pad2(d.day)
  }

  /** The `%m` field at position `i`: the alternatives `1[0-2]`, `0[1-9]`,
      `[1-9]`, tried in that order; the value and the position after it.
      When an alternative matches, the ones after it cannot be followed by
      the `-` that the format needs next, so trying them changes nothing. */
  function MonthField(s: string, i: nat): (r: Option<(int, nat)>)
    ensures r.Some? ==> i < r.value.1 <= |s| && 1 <= r.value.0 <= 12
  {
    if i + 1 < |s| && s[i] == '1' && '0' <= s[i + 1] <= '2' then Some((10 + DigitValue(s[i + 1]), i + 2))
    else if i + 1 < |s| && s[i] == '0' && '1' <= s[i + 1] <= '9' then Some((DigitValue(s[i + 1]), i + 2))
    else if i < |s| && '1' <= s[i] <= '9' then Some((DigitValue(s[i]), i + 1))
    else None
  }

  /** The `%d` field at position `i`: the alternatives `3[01]`, `[12]\d`,
      `0[1-9]`, `[1-9]` and ` [1-9]`, tried in that order; nothing follows
      the field, so the first that matches is taken. */
  function DayField(s: string, i: nat): (r: Option<(int, nat)>)
    ensures r.Some? ==> i < r.value.1 <= |s| && 1 <= r.value.0 <= 31
  {
    if i + 1 < |s| && s[i] == '3' && '0' <= s[i + 1] <= '1' then Some((30 + DigitValue(s[i + 1]), i + 2))
    else if i + 1 < |s| && '1' <= s[i] <= '2' && IsDigit(s[i + 1]) then
      Some((10 * DigitValue(s[i]) + DigitValue(s[i + 1]), i + 2))
    else if i + 1 < |s| && s[i] == '0' && '1' <= s[i + 1] <= '9' then Some((DigitValue(s[i + 1]), i + 2))
    else if i < |s| && '1' <= s[i] <= '9' then Some((DigitValue(s[i]), i + 1))
    else if i + 1 < |s| && s[i] == ' ' && '1' <= s[i + 1] <= '9' then Some((DigitValue(s[i + 1]), i + 2))
    else None
  }

  /** `datetime.strptime(s, "%Y-%m-%d")`: four digits, `-`, the month field,
      `-`, the day field, nothing left over, and a date `datetime` accepts;
      None where Python raises ValueError. */
  function ParseIsoDate(s: string): (r: Option<Date>)
    ensures r.Some? ==> ValidDate(r.value)
  {
    if |s| < 5 || !AllDigits(s[..4]) || s[4] != '-' then None
    else
      match MonthField(s, 5)
      case None => None
      case Some((m, i)) =>
        if i >= |s| || s[i] != '-' then None
        else
          match DayField(s, i + 1)
          case None => None
          case Some((d, j)) =>
            var date := Date(DigitsValue(s[..4]), m, d);
            if j == |s| && ValidDate(date) then Some(date) else None
  }

  /** The field parsers read back a zero-padded month and day. */
  lemma {:induction false} MonthFieldPadded(s: string, i: nat, m: int)
    requires 1 <= m <= 12 && i + 2 <= |s| && s[i..i + 2] == Pad2(m)
    ensures MonthField(s, i) == Some((m, i + 2))
  {
    assert s[i] == Pad2(m)[0] && s[i + 1] == Pad2(m)[1];
  }

  lemma {:induction false} DayFieldPadded(s: string, i: nat, d: int)
    requires 1 <= d <= 31 && i + 2 <= |s| && s[i..i + 2] == Pad2(d)
    ensures DayField(s, i) == Some((d, i + 2))
  {
    assert s[i] == Pad2(d)[0] && s[i + 1] == Pad2(d)[1];
  }

  /** `strptime` reads back what `strftime` wrote. */
  lemma {:induction false} IsoRoundTrip(d: Date)
    requires ValidDate(d)
    ensures ParseIsoDate(FormatIso(d)) == Some(d)
  {
    var s := FormatIso(d);
    var y := Pad4(d.year);
    var m := Pad2(d.month);
    var dd := Pad2(d.day);
    assert s == y + "-" + m + "-" + dd;
    assert s[..4] == y;
    assert s[4] == '-' && s[7] == '-';
    assert s[5..7] == m;
    assert s[8..10] == dd;
    MonthFieldPadded(s, 5, d.month);
    DayFieldPadded(s, 8, d.day);
  }

  /** A ten-character string without blanks that parses is exactly the
      date written back. (With a blank, `%d` also reads " 5" as day 5, which
      is written back as "05".) */
  lemma {:induction false} IsoCanonical(s: string)
    requires ParseIsoDate(s).Some? && |s| == 10 && ' ' !in s
    ensures FormatIso(ParseIsoDate(s).value) == s
  {
    var d := ParseIsoDate(s).value;
    var (m, i) := MonthField(s, 5).value;
    var (dd, j) := DayField(s, i + 1).value;
    assert i == 7 && j == 10 && s[7] == '-';
    assert s[5..7] == [s[5], s[6]] && s[8..10] == [s[8], s[9]];
    assert IsDigit(s[5]) && IsDigit(s[6]) && IsDigit(s[8]) && IsDigit(s[9]);
    TwoDigits(s[5..7]);
    TwoDigits(s[8..10]);
    PadOfDigits2(s[5..7], m);
    PadOfDigits2(s[8..10], dd);
    PadOfDigits4(s[..4]);
    assert s == s[..4] + "-" + s[5..7] + "-" + s[8..10];
  }

  /** The value of a two-digit string. */
  lemma {:induction false} TwoDigits(t: string)
    requires |t| == 2 && AllDigits(t)
    ensures DigitsValue(t) == DigitValue(t[0]) * 10 + DigitValue(t[1])
  {
    var h := t[..1];
    assert h[..0] == [] && h[0] == t[0] && |h| == 1;
    assert DigitsValue(h) == DigitValue(t[0]);
  }

  lemma {:induction false} PadOfDigits2(t: string, v: int)
    requires |t| == 2 && AllDigits(t) && v == DigitsValue(t)
    ensures 0 <= v < 100 && Pad2(v) == t
  {
    TwoDigits(t);
  }

  lemma {:induction false} PadOfDigits4(y: string)
    requires |y| == 4 && AllDigits(y)
    ensures DigitsValue(y) < 10000 && Pad4(DigitsValue(y)) == y
  {
    var hi := DigitsValue(y[..2]);
    var lo := DigitsValue(y[2..]);
    assert y == y[..2] + y[2..];
    DigitsValueAppend(y[..2], y[2..]);
    assert Pow10(2) == 100;
    PadOfDigits2(y[..2], hi);
    PadOfDigits2(y[2..], lo);
    SplitHundreds(hi, lo);
  }

  lemma {:induction false} SplitHundreds(hi: int, lo: int)
    requires 0 <= hi < 100 && 0 <= lo < 100
    ensures (hi * 100 + lo) / 100 == hi && (hi * 100 + lo) % 100 == lo
    ensures hi * 100 + lo < 10000
  {
  }

  // ---------------------------------------------------------------------
  // Months
  // ---------------------------------------------------------------------

  /** Months counted from year 0: one more for each month. */
  function MonthIndex(y: int, m: int): int {
    12 * y + (m - 1)
  }

  /** The month after (y, m): December rolls over to January of the next
      year. */
  function NextMonth(y: int, m: int): (r: (int, int))
    requires 1 <= m <= 12
    ensures 1 <= r.1 <= 12
    ensures MonthIndex(r.0, r.1) == MonthIndex(y, m) + 1
  {
    if m == 12 then (y + 1, 1) else (y, m + 1)
  }

  /** Months are determined by their index. */
  lemma {:induction false} MonthIndexInjective(y1: int, m1: int, y2: int, m2: int)
    requires 1 <= m1 <= 12 && 1 <= m2 <= 12
    requires MonthIndex(y1, m1) == MonthIndex(y2, m2)
    ensures y1 == y2 && m1 == m2
  {
    assert 12 * (y1 - y2) == m2 - m1;
  }

  /** Different months have different next months. */
  lemma {:induction false} NextMonthInjective(y1: int, m1: int, y2: int, m2: int)
    requires 1 <= m1 <= 12 && 1 <= m2 <= 12
    requires NextMonth(y1, m1) == NextMonth(y2, m2)
    ensures y1 == y2 && m1 == m2
  {
    var a := NextMonth(y1, m1);
    MonthIndexInjective(y1, m1, y2, m2);
  }
}
