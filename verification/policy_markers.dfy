/** Post-processing of policy-change markers (`_find_policies_by_marker_regex`
    in server/api/tools/report_agent_tools.py). The marker regex yields, per
    match, the clause text, the change type (신설 or 개정) and the text of the
    marker's dates; the model takes those triples as its input. Each match is
    dropped when its clause carries an annex tag `<별표N>`, when its marker
    holds no `YYYY.M.D` date, or when its last date is not a calendar date;
    the rest get a zero-padded effective date, an optional filter on that
    date, and whitespace-normalised text. */
module PolicyMarkers {
  import opened Optional
  import opened Text
  import opened Dates

  /** One regex match: clause text, change type and the dates text. */
  datatype MarkerMatch = MarkerMatch(policyText: string, changeType: string, datesText: string)

  /** One extracted change: `effective_date` and `policy_text`. */
  datatype PolicyChange = PolicyChange(effectiveDate: string, policyText: string)

  // ---------------------------------------------------------------------
  // The annex tag `<별표\d+>`
  // ---------------------------------------------------------------------

  const AnnexOpen := "<별표"

  /** `<별표`, one or more digits and `>` start at position `i`. */
  predicate AnnexAt(t: string, i: nat) {
    i + 3 <= |t| && t[i..i + 3] == AnnexOpen &&
    var n := RunLen(t[i + 3..]);
    0 < n && i + 3 + n < |t| && t[i + 3 + n] == '>'
  }

  /** `re.search(r'<별표\d+>', t)` finds something. */
  predicate HasAnnexTag(t: string) {
    exists i: nat :: i < |t| && AnnexAt(t, i)
  }

  /** A clause that quotes an annex tag is recognised as such. */
  lemma {:induction false} AnnexTagFound(pre: string, n: nat, post: string)
    ensures HasAnnexTag(pre + AnnexOpen + NatToString(n) + ">" + post)
  {
    var t := pre + AnnexOpen + NatToString(n) + ">" + post;
    var i := |pre|;
    var d := NatToString(n);
    assert t[i..i + 3] == AnnexOpen;
    var rest := t[i + 3..];
    assert rest == d + ">" + post;
    assert forall k :: 0 <= k < |d| ==> rest[k] == d[k];
    assert rest[|d|] == '>';
    assert forall k :: 0 <= k < |d| ==> IsDigit(rest[k]);
    assert !IsDigit(rest[|d|]);
    assert RunLen(rest) == |d|;
    assert AnnexAt(t, i);
  }

  // ---------------------------------------------------------------------
  // Dates in the marker: `re.findall(r'(\d{4})\.(\d{1,2})\.(\d{1,2})', ...)`
  // ---------------------------------------------------------------------

  /** The three captured groups of one date match. */
  datatype DateText = DateText(year: string, month: string, day: string)

  predicate WellFormed(t: DateText) {
    |t.year| == 4 && AllDigits(t.year) &&
    1 <= |t.month| <= 2 && AllDigits(t.month) &&
    1 <= |t.day| <= 2 && AllDigits(t.day)
  }

  /** `datetime(int(year), int(month), int(day))`'s arguments. */
  function ToDate(t: DateText): Date
    requires WellFormed(t)
  {
    Date(DigitsValue(t.year), DigitsValue(t.month), DigitsValue(t.day))
  }

  /** Width of `(\d{1,2})\.` at `j`: greedy two digits, else one, in both
      cases followed by a dot. */
  function MonthWidth(s: string, j: nat): (r: Option<nat>)
    ensures r.Some? ==>
              (r.value == 1 || r.value == 2) && j + r.value < |s| &&
              AllDigits(s[j..j + r.value]) && s[j + r.value] == '.'
  {
    if j + 2 < |s| && IsDigit(s[j]) && IsDigit(s[j + 1]) && s[j + 2] == '.' then Some(2)
    else if j + 1 < |s| && IsDigit(s[j]) && s[j + 1] == '.' then Some(1)
    else None
  }

  /** Width of the final `(\d{1,2})` at `j`: greedy, nothing after it. */
  function DayWidth(s: string, j: nat): (r: Option<nat>)
    ensures r.Some? ==>
              (r.value == 1 || r.value == 2) && j + r.value <= |s| &&
              AllDigits(s[j..j + r.value])
  {
    if j + 1 < |s| && IsDigit(s[j]) && IsDigit(s[j + 1]) then Some(2)
    else if j < |s| && IsDigit(s[j]) then Some(1)
    else None
  }

  /** The date pattern matched at position `i`: its groups and where the
      match ends. */
  function DateMatchAt(s: string, i: nat): (r: Option<(DateText, nat)>)
    ensures r.Some? ==> WellFormed(r.value.0) && i < r.value.1 <= |s|
  {
    if i + 5 <= |s| && AllDigits(s[i..i + 4]) && s[i + 4] == '.' then
      match MonthWidth(s, i + 5)
      case None => None
      case Some(mw) =>
        var j := i + 5 + mw + 1;
        match DayWidth(s, j)
        case None => None
        case Some(dw) => Some((DateText(s[i..i + 4], s[i + 5..i + 5 + mw], s[j..j + dw]), j + dw))
    else None
  }

  /** `findall` from position `i`: try each start in turn and resume after
      each match, so matches do not overlap. */
  function DatesFrom(s: string, i: nat): (r: seq<DateText>)
    requires i <= |s|
    ensures forall k :: 0 <= k < |r| ==> WellFormed(r[k])
    decreases |s| - i
  {
    if i == |s| then []
    else
      match DateMatchAt(s, i)
      case Some((t, e)) => [t] + DatesFrom(s, e)
      case None => DatesFrom(s, i + 1)
  }

  function AllDates(s: string): (r: seq<DateText>)
    ensures forall k :: 0 <= k < |r| ==> WellFormed(r[k])
  {
    DatesFrom(s, 0)
  }

  /** A date as markers write it: `2024.7.24`. */
  function DottedText(d: Date): string
    requires ValidDate(d)
  {
    Pad4(d.year) + "." + NatToString(d.month) + "." + NatToString(d.day)
  }

  /** Numbers below 100 are written with one or two digits. */
  lemma {:induction false} SmallNumeral(n: nat)
    requires n < 100
    ensures 1 <= |NatToString(n)| <= 2
  {
    if n >= 10 {
      assert NatToString(n) == NatToString(n / 10) + [DigitChar(n % 10)];
    }
  }

  /** A dotted date, followed by anything that does not continue its day,
      matches with the date's own groups and reads back as the date. */
  lemma {:induction false} DottedMatch(d: Date, post: string)
    requires ValidDate(d)
    requires post == [] || !IsDigit(post[0])
    ensures DateMatchAt(DottedText(d) + post, 0) ==
              Some((DateText(Pad4(d.year), NatToString(d.month), NatToString(d.day)), |DottedText(d)|))
    ensures ToDate(DateText(Pad4(d.year), NatToString(d.month), NatToString(d.day))) == d
  {
    SmallNumeral(d.month);
    SmallNumeral(d.day);
    var s := DottedText(d) + post;
    assert s[0..] == s;
    GroupsMatch(s, 0, Pad4(d.year), NatToString(d.month), NatToString(d.day), post);
  }

  /** Four digits, a dot, one or two digits, a dot and one or two digits,
      not followed by another digit, match as exactly those groups. */
  lemma {:induction false} GroupsMatch(s: string, i: nat, y: string, m: string, dd: string, post: string)
    requires i <= |s| && s[i..] == y + "." + m + "." + dd + post
    requires |y| == 4 && AllDigits(y) && 1 <= |m| <= 2 && AllDigits(m) && 1 <= |dd| <= 2 && AllDigits(dd)
    requires post == [] || !IsDigit(post[0])
    ensures DateMatchAt(s, i) == Some((DateText(y, m, dd), i + |y| + |m| + |dd| + 2))
  {
    GroupWidths(s, i, y, m, dd, post);
    MatchOfGroups(s, i, y, m, dd);
  }

  /** The year, month and day groups sit where their widths say. */
  lemma {:induction false} GroupWidths(s: string, i: nat, y: string, m: string, dd: string, post: string)
    requires i <= |s| && s[i..] == y + "." + m + "." + dd + post
    requires |y| == 4 && AllDigits(y) && 1 <= |m| <= 2 && AllDigits(m) && 1 <= |dd| <= 2 && AllDigits(dd)
    requires post == [] || !IsDigit(post[0])
    ensures i + 5 <= |s| && s[i..i + 4] == y && s[i + 4] == '.'
    ensures MonthWidth(s, i + 5) == Some(|m|) && s[i + 5..i + 5 + |m|] == m
    ensures DayWidth(s, i + 5 + |m| + 1) == Some(|dd|) && s[i + 5 + |m| + 1..i + 5 + |m| + 1 + |dd|] == dd
  {
    var rest := m + "." + dd + post;
    YearAt(s, i, y, rest);
    var j := i + 5 + |m| + 1;
    var rest2 := dd + post;
    assert s[i + 5..] == m + "." + rest2 by {
      assert s[i..] == y + "." + rest;
    }
    MonthWidthOf(s, i + 5, m, rest2);
    assert s[j..] == rest2;
    DayWidthOf(s, j, dd, post);
  }

  /** Once the year is read and the month and day widths are known, the
      match is the three groups they delimit. */
  lemma {:induction false} MatchOfGroups(s: string, i: nat, y: string, m: string, dd: string)
    requires |y| == 4 && i + 5 <= |s| && s[i..i + 4] == y && AllDigits(y) && s[i + 4] == '.'
    requires MonthWidth(s, i + 5) == Some(|m|) && s[i + 5..i + 5 + |m|] == m
    requires DayWidth(s, i + 5 + |m| + 1) == Some(|dd|) && s[i + 5 + |m| + 1..i + 5 + |m| + 1 + |dd|] == dd
    ensures DateMatchAt(s, i) == Some((DateText(y, m, dd), i + |y| + |m| + |dd| + 2))
  {
  }

  lemma {:induction false} YearAt(s: string, i: nat, y: string, rest: string)
    requires i <= |s| && s[i..] == y + "." + rest
    requires |y| == 4 && AllDigits(y)
    ensures i + 5 <= |s| && s[i..i + 4] == y && AllDigits(s[i..i + 4]) && s[i + 4] == '.'
    ensures s[i + 5..] == rest
  {
    assert s[i..i + 4] == s[i..][..4];
    assert s[i + 5..] == s[i..][5..];
  }

  lemma {:induction false} MonthWidthOf(s: string, j: nat, m: string, rest: string)
    requires j <= |s| && s[j..] == m + "." + rest
    requires 1 <= |m| <= 2 && AllDigits(m)
    ensures MonthWidth(s, j) == Some(|m|) && s[j..j + |m|] == m
  {
    assert s[j] == m[0] && s[j + |m|] == '.';
    if |m| == 2 {
      assert s[j + 1] == m[1];
    }
    assert s[j..j + |m|] == s[j..][..|m|];
  }

  lemma {:induction false} DayWidthOf(s: string, j: nat, dd: string, post: string)
    requires j <= |s| && s[j..] == dd + post
    requires 1 <= |dd| <= 2 && AllDigits(dd)
    requires post == [] || !IsDigit(post[0])
    ensures DayWidth(s, j) == Some(|dd|) && s[j..j + |dd|] == dd
  {
    assert s[j] == dd[0];
    if |dd| == 2 {
      assert s[j + 1] == dd[1];
    } else if post != [] {
      assert s[j + 1] == post[0];
    }
    assert s[j..j + |dd|] == s[j..][..|dd|];
  }

  /** `findall` over a lone dotted date finds exactly that date. */
  lemma {:induction false} DottedDates(d: Date)
    requires ValidDate(d)
    ensures AllDates(DottedText(d)) == [DateText(Pad4(d.year), NatToString(d.month), NatToString(d.day))]
  {
    var s := DottedText(d);
    DottedMatch(d, []);
    assert s + [] == s;
    assert DatesFrom(s, |s|) == [];
  }

  /** No date starts at a character that is not a digit. */
  lemma {:induction false} NoMatchAtNonDigit(s: string, i: nat)
    requires i < |s| && !IsDigit(s[i])
    ensures DateMatchAt(s, i).None?
  {
    if i + 5 <= |s| {
      assert s[i..i + 4][0] == s[i];
    }
  }

  /** The groups a dotted date is read back as. */
  function Groups(d: Date): (t: DateText)
    requires ValidDate(d)
    ensures WellFormed(t)
  {
    SmallNumeral(d.month);
    SmallNumeral(d.day);
    DateText(Pad4(d.year), NatToString(d.month), NatToString(d.day))
  }

  /** Trying each start in turn: a match is taken and scanning resumes
      after it; otherwise scanning moves one character on. */
  lemma {:induction false} DatesStep(s: string, i: nat)
    requires i < |s|
    ensures DateMatchAt(s, i).Some? ==>
              DatesFrom(s, i) == [DateMatchAt(s, i).value.0] + DatesFrom(s, DateMatchAt(s, i).value.1)
    ensures DateMatchAt(s, i).None? ==> DatesFrom(s, i) == DatesFrom(s, i + 1)
  {
  }

  /** Characters that are not digits start no date and are stepped over. */
  lemma {:induction false} SkipNonDigits(s: string, i: nat, n: nat)
    requires i + n <= |s| && forall k :: i <= k < i + n ==> !IsDigit(s[k])
    ensures DatesFrom(s, i) == DatesFrom(s, i + n)
    decreases n
  {
    if n > 0 {
      NoMatchAtNonDigit(s, i);
      DatesStep(s, i);
      SkipNonDigits(s, i + 1, n - 1);
    }
  }

  /** A marker amended twice, as in `<개정 2024.7.24., 2024.12.24.>`, holds
      both dates in order. */
  lemma {:induction false} TwoDottedDates(d1: Date, d2: Date)
    requires ValidDate(d1) && ValidDate(d2)
    ensures AllDates(DottedText(d1) + "., " + DottedText(d2) + ".") == [Groups(d1), Groups(d2)]
  {
    var a := DottedText(d1);
    var b := DottedText(d2);
    var s := a + "., " + b + ".";
    FirstOfTwo(s, a, b, d1);
    SecondOfTwo(s, a, b, d2);
    TwoDatesAt(s, Groups(d1), |a|, Groups(d2));
  }

  /** The first date of `a., b.` is matched at the start. */
  lemma {:induction false} FirstOfTwo(s: string, a: string, b: string, d1: Date)
    requires ValidDate(d1) && a == DottedText(d1) && s == a + "., " + b + "."
    ensures DateMatchAt(s, 0) == Some((Groups(d1), |a|))
    ensures |a| + 3 < |s| && s[|a|] == '.' && s[|a| + 1] == ',' && s[|a| + 2] == ' ' && s[|s| - 1] == '.'
  {
    Layout(s, a, b);
    DottedAt(s, 0, d1, a, "., " + b + ".");
  }

  /** The second date of `a., b.` is matched after the separator. */
  lemma {:induction false} SecondOfTwo(s: string, a: string, b: string, d2: Date)
    requires ValidDate(d2) && b == DottedText(d2) && s == a + "., " + b + "."
    ensures DateMatchAt(s, |a| + 3) == Some((Groups(d2), |s| - 1))
  {
    Layout(s, a, b);
    var i := |a| + 3;
    assert s[i..] == b + "." && i + |b| == |s| - 1;
    DottedAt(s, i, d2, b, ".");
  }

  /** Where the parts of `a., b.` sit. */
  lemma {:induction false} Layout(s: string, a: string, b: string)
    requires s == a + "., " + b + "."
    ensures |s| == |a| + |b| + 4
    ensures s[0..] == a + ("., " + b + ".") && s[|a| + 3..] == b + "."
    ensures s[|a|] == '.' && s[|a| + 1] == ',' && s[|a| + 2] == ' ' && s[|s| - 1] == '.'
  {
  }

  /** A dotted date at position `i`, followed by a non-digit, is matched
      there. */
  lemma {:induction false} DottedAt(s: string, i: nat, d: Date, x: string, post: string)
    requires ValidDate(d) && x == DottedText(d)
    requires i <= |s| && s[i..] == x + post
    requires post != [] && !IsDigit(post[0])
    ensures DateMatchAt(s, i) == Some((Groups(d), i + |x|))
  {
    SmallNumeral(d.month);
    SmallNumeral(d.day);
    GroupsMatch(s, i, Pad4(d.year), NatToString(d.month), NatToString(d.day), post);
  }

  /** Two matches separated by `., ` and a closing dot. */
  lemma {:induction false} TwoDatesAt(s: string, g1: DateText, e1: nat, g2: DateText)
    requires e1 + 3 < |s| && s[e1] == '.' && s[e1 + 1] == ',' && s[e1 + 2] == ' ' && s[|s| - 1] == '.'
    requires DateMatchAt(s, 0) == Some((g1, e1))
    requires DateMatchAt(s, e1 + 3) == Some((g2, |s| - 1))
    ensures DatesFrom(s, 0) == [g1, g2]
  {
    MatchStep(s, 0, g1, e1);
    SkipSeparator(s, e1);
    MatchStep(s, e1 + 3, g2, |s| - 1);
    SkipNonDigits(s, |s| - 1, 1);
  }

  /** A match at `i` is the next date found, and the scan resumes after it. */
  lemma {:induction false} MatchStep(s: string, i: nat, g: DateText, e: nat)
    requires i < |s| && DateMatchAt(s, i) == Some((g, e))
    ensures DatesFrom(s, i) == [g] + DatesFrom(s, e)
  {
    DatesStep(s, i);
  }

  /** The `., ` between two dates is stepped over. */
  lemma {:induction false} SkipSeparator(s: string, i: nat)
    requires i + 3 <= |s| && s[i] == '.' && s[i + 1] == ',' && s[i + 2] == ' '
    ensures DatesFrom(s, i) == DatesFrom(s, i + 3)
  {
    SkipNonDigits(s, i, 3);
  }

  /** A clause without an annex tag and no filter is kept with the last
      date of its marker. */
  lemma {:induction false} LastGroupsKept(m: MarkerMatch, g: DateText)
    requires !HasAnnexTag(m.policyText)
    requires var dates := AllDates(m.datesText); dates != [] && dates[|dates| - 1] == g
    requires WellFormed(g) && ValidDate(ToDate(g))
    ensures ProcessMatch(m, None) ==
              Some(PolicyChange(FormatIso(ToDate(g)), Normalize(m.policyText) + " <" + m.changeType + " " + m.datesText + ">"))
  {
  }

  /** With two dates in the marker, the later-written one becomes the
      effective date. */
  lemma {:induction false} LastDateWins(text: string, changeType: string, d1: Date, d2: Date)
    requires ValidDate(d1) && ValidDate(d2) && !HasAnnexTag(text)
    ensures var dates := DottedText(d1) + "., " + DottedText(d2) + ".";
      ProcessMatch(MarkerMatch(text, changeType, dates), None) ==
        Some(PolicyChange(FormatIso(d2), Normalize(text) + " <" + changeType + " " + dates + ">"))
  {
    var dates := DottedText(d1) + "., " + DottedText(d2) + ".";
    TwoDottedDates(d1, d2);
    LastGroupsKept(MarkerMatch(text, changeType, dates), Groups(d2));
  }

  // ---------------------------------------------------------------------
  // Whitespace: `re.sub(r'\s{2,}', ' ', text.strip())`
  // ---------------------------------------------------------------------

  /** The number of whitespace characters `s` starts with. */
  function SpaceRun(s: string): (n: nat)
    ensures n <= |s|
    ensures forall k :: 0 <= k < n ==> IsSpace(s[k])
    ensures n == |s| || !IsSpace(s[n])
  {
    if s != [] && IsSpace(s[0]) then 1 + SpaceRun(s[1..]) else 0
  }

  /** Every run of two or more whitespace characters becomes one blank; a
      single whitespace character, blank or not, stays as it is. */
  function Collapse(s: string): (r: string)
    ensures |r| <= |s|
    decreases |s|
  {
    if |s| >= 2 && IsSpace(s[0]) && IsSpace(s[1]) then
      " " + Collapse(s[SpaceRun(s)..])
    else if s == [] then []
    else [s[0]] + Collapse(s[1..])
  }

  /** No two whitespace characters in a row. */
  predicate NoDoubleSpace(s: string) {
    forall i :: 0 <= i < |s| - 1 ==> !(IsSpace(s[i]) && IsSpace(s[i + 1]))
  }

  /** The characters of `s` that are not whitespace, in order. */
  function Visible(s: string): (r: string)
    ensures forall k :: 0 <= k < |r| ==> !IsSpace(r[k])
  {
    if s == [] then []
    else (if IsSpace(s[0]) then [] else [s[0]]) + Visible(s[1..])
  }

  /** The result starts with whitespace exactly when the input does. */
  lemma {:induction false} CollapseFirst(s: string)
    requires s != []
    ensures Collapse(s) != [] && (IsSpace(Collapse(s)[0]) <==> IsSpace(s[0]))
  {
  }

  /** The result ends with whitespace exactly when the input does. */
  lemma {:induction false} CollapseLast(s: string)
    requires s != []
    ensures Collapse(s) != [] && (IsSpace(Collapse(s)[|Collapse(s)| - 1]) <==> IsSpace(s[|s| - 1]))
    decreases |s|
  {
    if |s| >= 2 && IsSpace(s[0]) && IsSpace(s[1]) {
      var n := SpaceRun(s);
      if n < |s| {
        CollapseLast(s[n..]);
      }
    } else if |s| > 1 {
      CollapseLast(s[1..]);
    }
  }

  /** The result never holds two whitespace characters in a row. */
  lemma {:induction false} CollapseNoDoubleSpace(s: string)
    ensures NoDoubleSpace(Collapse(s))
    decreases |s|
  {
    if |s| >= 2 && IsSpace(s[0]) && IsSpace(s[1]) {
      var rest := s[SpaceRun(s)..];
      CollapseNoDoubleSpace(rest);
      if rest != [] {
        CollapseFirst(rest);
      }
    } else if s != [] {
      var rest := s[1..];
      CollapseNoDoubleSpace(rest);
      if rest != [] {
        CollapseFirst(rest);
      }
    }
  }

  /** Text that already has no whitespace run is left alone. */
  lemma {:induction false} CollapseIdentity(s: string)
    requires NoDoubleSpace(s)
    ensures Collapse(s) == s
    decreases |s|
  {
    if s != [] {
      assert !(|s| >= 2 && IsSpace(s[0]) && IsSpace(s[1]));
      assert NoDoubleSpace(s[1..]) by {
        forall i | 0 <= i < |s[1..]| - 1 ensures !(IsSpace(s[1..][i]) && IsSpace(s[1..][i + 1])) {
          assert s[1..][i] == s[i + 1] && s[1..][i + 1] == s[i + 2];
        }
      }
      CollapseIdentity(s[1..]);
    }
  }

  /** Collapsing twice is collapsing once. */
  lemma {:induction false} CollapseIdempotent(s: string)
    ensures Collapse(Collapse(s)) == Collapse(s)
  {
    CollapseNoDoubleSpace(s);
    CollapseIdentity(Collapse(s));
  }

  /** Leading whitespace contributes nothing visible. */
  lemma {:induction false} VisibleSkip(s: string, n: nat)
    requires n <= |s| && forall k :: 0 <= k < n ==> IsSpace(s[k])
    ensures Visible(s) == Visible(s[n..])
    decreases n
  {
    if n > 0 {
      assert s[1..][n - 1..] == s[n..];
      VisibleSkip(s[1..], n - 1);
    }
  }

  /** Only whitespace is replaced: the visible characters stay, in order. */
  lemma {:induction false} CollapseVisible(s: string)
    ensures Visible(Collapse(s)) == Visible(s)
    decreases |s|
  {
    if |s| >= 2 && IsSpace(s[0]) && IsSpace(s[1]) {
      var n := SpaceRun(s);
      CollapseVisible(s[n..]);
      VisibleSkip(s, n);
      assert (" " + Collapse(s[n..]))[1..] == Collapse(s[n..]);
    } else if s != [] {
      CollapseVisible(s[1..]);
      assert ([s[0]] + Collapse(s[1..]))[1..] == Collapse(s[1..]);
    }
  }

  /** The clause text as stored: stripped, then runs collapsed. */
  function Normalize(t: string): (r: string)
    ensures |r| <= |t|
  {
    Collapse(Strip(t))
  }

  /** Normalised text neither starts nor ends with whitespace, has no
      whitespace run, and keeps every visible character of the clause in
      order. */
  lemma {:induction false} NormalizeShape(t: string)
    ensures var r := Normalize(t);
      (r == [] || (!IsSpace(r[0]) && !IsSpace(r[|r| - 1]))) && NoDoubleSpace(r)
  {
    var s := Strip(t);
    if s != [] {
      CollapseFirst(s);
      CollapseLast(s);
    }
    CollapseNoDoubleSpace(s);
  }

  lemma {:induction false} NormalizeVisible(t: string)
    ensures Visible(Normalize(t)) == Visible(t)
  {
    var s := Strip(t);
    CollapseVisible(s);
    StripVisible(t);
  }

  /** Stripping removes only whitespace. */
  lemma {:induction false} StripVisible(t: string)
    ensures Visible(Strip(t)) == Visible(t)
  {
    var pre, post := StripSplit(t);
    VisiblePadded(pre, Strip(t), post);
  }

  /** Whitespace around a text adds nothing visible. */
  lemma {:induction false} VisiblePadded(pre: string, x: string, post: string)
    requires forall k :: 0 <= k < |pre| ==> IsSpace(pre[k])
    requires forall k :: 0 <= k < |post| ==> IsSpace(post[k])
    ensures Visible(pre + x + post) == Visible(x)
  {
    var y := x + post;
    BlankRight(x, post);
    BlankLeft(pre, y);
    assert pre + x + post == pre + y;
  }

  lemma {:induction false} BlankLeft(p: string, x: string)
    requires forall k :: 0 <= k < |p| ==> IsSpace(p[k])
    ensures Visible(p + x) == Visible(x)
  {
    VisibleSkip(p + x, |p|);
    assert (p + x)[|p|..] == x;
  }

  lemma {:induction false} BlankRight(x: string, p: string)
    requires forall k :: 0 <= k < |p| ==> IsSpace(p[k])
    ensures Visible(x + p) == Visible(x)
  {
    VisibleAppend(x, p);
    VisibleSkip(p, |p|);
    assert p[|p|..] == [];
    assert Visible(x) + [] == Visible(x);
  }

  lemma {:induction false} VisibleAppend(a: string, b: string)
    ensures Visible(a + b) == Visible(a) + Visible(b)
  {
    if a != [] {
      assert (a + b)[1..] == a[1..] + b;
      VisibleAppend(a[1..], b);
    } else {
      assert a + b == b;
    }
  }

  // ---------------------------------------------------------------------
  // Per-match processing
  // ---------------------------------------------------------------------

  /** `if target_date:` — a target that is given and not empty. */
  predicate Filtering(target: Option<string>) {
    target.Some? && target.value != ""
  }

  /** The change one match yields, or None when the loop `continue`s. */
  function ProcessMatch(m: MarkerMatch, target: Option<string>): (r: Option<PolicyChange>)
    ensures HasAnnexTag(m.policyText) ==> r.None?
    ensures r.Some? ==> AllDates(m.datesText) != []
    ensures r.Some? && Filtering(target) ==> r.value.effectiveDate == target.value
  {
    if HasAnnexTag(m.policyText) then None
    else
      var dates := AllDates(m.datesText);
      if dates == [] then None
      else
        var d := ToDate(dates[|dates| - 1]);
        if !ValidDate(d) then None
        else
          var effective := FormatIso(d);
          if Filtering(target) && effective != target.value then None
          else Some(PolicyChange(effective, Normalize(m.policyText) + " <" + m.changeType + " " + m.datesText + ">"))
  }

  /** The loop over all matches: kept changes in match order. */
  function ExtractChanges(ms: seq<MarkerMatch>, target: Option<string>): (r: seq<PolicyChange>)
    ensures |r| <= |ms|
  {
    if ms == [] then []
    else
      match ProcessMatch(ms[0], target)
      case None => ExtractChanges(ms[1..], target)
      case Some(c) => [c] + ExtractChanges(ms[1..], target)
  }

  /** Matches are processed one at a time and in order: the result over two
      batches is the two results one after the other. */
  lemma {:induction false} ExtractAppend(a: seq<MarkerMatch>, b: seq<MarkerMatch>, target: Option<string>)
    ensures ExtractChanges(a + b, target) == ExtractChanges(a, target) + ExtractChanges(b, target)
  {
    if a == [] {
      assert a + b == b;
    } else {
      assert (a + b)[0] == a[0] && (a + b)[1..] == a[1..] + b;
      ExtractAppend(a[1..], b, target);
    }
  }

  /** Every kept change has a calendar date as its effective date, and with
      a filter that date is the target. */
  lemma {:induction false} ExtractedDates(ms: seq<MarkerMatch>, target: Option<string>)
    ensures forall c :: c in ExtractChanges(ms, target) ==> ParseIsoDate(c.effectiveDate).Some?
    ensures Filtering(target) ==> forall c :: c in ExtractChanges(ms, target) ==> c.effectiveDate == target.value
  {
    if ms != [] {
      ExtractedDates(ms[1..], target);
      if ProcessMatch(ms[0], target).Some? {
        ProcessedDate(ms[0], target);
      }
    }
  }

  /** A kept change's effective date is a calendar date, and with a filter
      it is the target. */
  lemma {:induction false} ProcessedDate(m: MarkerMatch, target: Option<string>)
    requires ProcessMatch(m, target).Some?
    ensures ParseIsoDate(ProcessMatch(m, target).value.effectiveDate).Some?
    ensures Filtering(target) ==> ProcessMatch(m, target).value.effectiveDate == target.value
  {
    KeptChange(m, target);
  }

  /** Every kept change comes from a match and is that match's change. */
  lemma {:induction false} ExtractFromMatches(ms: seq<MarkerMatch>, target: Option<string>)
    ensures forall c :: c in ExtractChanges(ms, target) ==>
              exists k :: 0 <= k < |ms| && ProcessMatch(ms[k], target) == Some(c)
  {
    if ms != [] {
      var tail := ms[1..];
      var rest := ExtractChanges(tail, target);
      var head := ProcessMatch(ms[0], target);
      ExtractFromMatches(tail, target);
      assert ExtractChanges(ms, target) == if head.Some? then [head.value] + rest else rest;
      forall c | c in ExtractChanges(ms, target)
        ensures exists k :: 0 <= k < |ms| && ProcessMatch(ms[k], target) == Some(c)
      {
        if head == Some(c) {
          assert ProcessMatch(ms[0], target) == Some(c);
        } else {
          assert c in rest;
          var k :| 0 <= k < |tail| && ProcessMatch(tail[k], target) == Some(c);
          assert ms[k + 1] == tail[k];
          assert 0 <= k + 1 < |ms| && ProcessMatch(ms[k + 1], target) == Some(c);
        }
      }
    }
  }

  /** A clause quoting an annex tag yields nothing. */
  lemma {:induction false} AnnexDropped(pre: string, n: nat, post: string, changeType: string, datesText: string, target: Option<string>)
    ensures ProcessMatch(MarkerMatch(pre + AnnexOpen + NatToString(n) + ">" + post, changeType, datesText), target).None?
  {
    AnnexTagFound(pre, n, post);
  }

  /** A marker without any `YYYY.M.D` date yields nothing. */
  lemma {:induction false} UndatedDropped(m: MarkerMatch, target: Option<string>)
    requires AllDates(m.datesText) == []
    ensures ProcessMatch(m, target).None?
  {
  }

  /** A kept change carries the marker's last date, zero-padded, as its
      effective date, and its text is the normalised clause followed by the
      marker written back. */
  lemma {:induction false} KeptChange(m: MarkerMatch, target: Option<string>)
    requires ProcessMatch(m, target).Some?
    ensures var dates := AllDates(m.datesText);
      dates != [] && ValidDate(ToDate(dates[|dates| - 1])) &&
      ParseIsoDate(ProcessMatch(m, target).value.effectiveDate) == Some(ToDate(dates[|dates| - 1]))
    ensures ProcessMatch(m, target).value.policyText ==
              Normalize(m.policyText) + " <" + m.changeType + " " + m.datesText + ">"
  {
    var dates := AllDates(m.datesText);
    IsoRoundTrip(ToDate(dates[|dates| - 1]));
  }

  /** A marker whose only date is a valid dotted date, on a clause without
      an annex tag and with no filter, is kept with that date. */
  lemma {:induction false} DottedMarkerKept(text: string, changeType: string, d: Date)
    requires ValidDate(d) && !HasAnnexTag(text)
    ensures ProcessMatch(MarkerMatch(text, changeType, DottedText(d)), None) ==
              Some(PolicyChange(FormatIso(d), Normalize(text) + " <" + changeType + " " + DottedText(d) + ">"))
  {
    DottedDates(d);
    DottedMatch(d, []);
  }

  /** A marker whose last date does not exist on the calendar, such as
      `2024.2.30`, yields nothing. */
  lemma {:induction false} InvalidDateDropped(m: MarkerMatch, target: Option<string>)
    requires !HasAnnexTag(m.policyText)
    requires var dates := AllDates(m.datesText);
      dates != [] && !ValidDate(ToDate(dates[|dates| - 1]))
    ensures ProcessMatch(m, target).None?
  {
  }

  /** The filter only removes: with a non-empty target, a match is kept
      exactly when it would be kept without one and its date is the target,
      and then the change is the same. An empty target filters nothing. */
  lemma {:induction false} FilterAgrees(m: MarkerMatch, target: Option<string>)
    ensures Filtering(target) ==>
              (ProcessMatch(m, target).Some? <==>
                 ProcessMatch(m, None).Some? && ProcessMatch(m, None).value.effectiveDate == target.value)
    ensures ProcessMatch(m, target).Some? ==> ProcessMatch(m, target) == ProcessMatch(m, None)
    ensures !Filtering(target) ==> ProcessMatch(m, target) == ProcessMatch(m, None)
  {
  }

  /** Over a batch, filtering keeps the unfiltered changes whose date is the
      target, in their order. */
  lemma {:induction false} FilteredBatch(ms: seq<MarkerMatch>, target: Option<string>)
    requires Filtering(target)
    ensures ExtractChanges(ms, target) == OnDate(ExtractChanges(ms, None), target.value)
  {
    if ms != [] {
      FilterAgrees(ms[0], target);
      FilteredBatch(ms[1..], target);
    }
  }

  /** The changes whose effective date is `date`, in order. */
  function OnDate(cs: seq<PolicyChange>, date: string): (r: seq<PolicyChange>)
    ensures |r| <= |cs|
    ensures forall c :: c in r ==> c in cs && c.effectiveDate == date
  {
    if cs == [] then []
    else (if cs[0].effectiveDate == date then [cs[0]] else []) + OnDate(cs[1..], date)
  }
}
