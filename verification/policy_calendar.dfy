/** Choosing the policy document for a report month
    (`_find_policy_file_for_report` in server/api/tools/report_agent_tools.py).
    A policy published on date D applies to the report of the month after
    D's month. The dates are scanned newest first, and the first date whose
    next month is the report's month decides the outcome. Whether a file
    exists is a parameter of the model. */
module PolicyCalendar {
  import opened Optional
  import opened Text
  import opened Dates

  const PolicyDir := "./data/policy_documents"

  /** The publication dates of the policy files, as `strptime(..., "%Y%m%d")`
      reads the listed `YYYYMMDD` strings. */
  const PolicyDates: seq<Date> := [
    Date(2025, 3, 5),
    Date(2024, 12, 24),
    Date(2024, 7, 24),
    Date(2024, 6, 26),
    Date(2024, 4, 30),
    Date(2023, 8, 30),
    Date(2023, 6, 21),
    Date(2023, 3, 2)
  ]

  /** A date as a number that orders like the date: YYYYMMDD. */
  function DateKey(d: Date): int {
    d.year * 10000 + d.month * 100 + d.day
  }

  /** The list is valid dates, already newest first, so sorting its strings
      in reverse (equal-length digit strings sort like their numbers) keeps
      this order. */
  lemma {:induction false} PolicyDatesNewestFirst()
    ensures forall k :: 0 <= k < |PolicyDates| ==> ValidDate(PolicyDates[k])
    ensures forall i, j :: 0 <= i < j < |PolicyDates| ==> DateKey(PolicyDates[j]) < DateKey(PolicyDates[i])
  {
  }

  /** `strftime("%Y%m%d")`: the string the date was listed as. */
  function CompactText(d: Date): (r: string)
    requires ValidDate(d)
    ensures |r| == 8 && AllDigits(r)
  {
    Pad4(d.year) + Pad2(d.month) + Pad2(d.day)
  }

  /** `os.path.join(POLICY_DIR, f"{date}_policy.pdf")`. */
  function PolicyPath(d: Date): string
    requires ValidDate(d)
  {
    PolicyDir + "/" + CompactText(d) + "_policy.pdf"
  }

  /** The month whose report a policy of date `d` belongs to. */
  function TargetMonth(d: Date): (r: (int, int))
    requires ValidDate(d)
    ensures MonthIndex(r.0, r.1) == MonthIndex(d.year, d.month) + 1
  {
    NextMonth(d.year, d.month)
  }

  /** The scan over `dates`: the first date whose target month is
      (`year`, `month`) decides; its file is returned if it exists, and
      otherwise the answer is None without looking further. */
  function Scan(dates: seq<Date>, year: int, month: int, exists_: string -> bool): (r: Option<string>)
    requires forall k :: 0 <= k < |dates| ==> ValidDate(dates[k])
    ensures r.Some? ==> exists_(r.value)
  {
    if dates == [] then None
    else if TargetMonth(dates[0]) == (year, month) then
      (if exists_(PolicyPath(dates[0])) then Some(PolicyPath(dates[0])) else None)
    else Scan(dates[1..], year, month, exists_)
  }

  /** `_find_policy_file_for_report(report_date)`: None when the report date
      is not a `YYYY-MM-DD` date; otherwise the file of the policy that
      serves the report month, if that file exists, and None when no policy
      serves that month. */
  function FindPolicyFile(reportDate: string, exists_: string -> bool): (r: Option<string>)
    ensures ParseIsoDate(reportDate).None? ==> r.None?
    ensures ParseIsoDate(reportDate).Some? ==>
              var d := ParseIsoDate(reportDate).value;
              forall k :: 0 <= k < |PolicyDates| && ValidDate(PolicyDates[k]) &&
                          TargetMonth(PolicyDates[k]) == (d.year, d.month) ==>
                r == (if exists_(PolicyPath(PolicyDates[k])) then Some(PolicyPath(PolicyDates[k])) else None)
    ensures ParseIsoDate(reportDate).Some? ==>
              var d := ParseIsoDate(reportDate).value;
              (forall k :: 0 <= k < |PolicyDates| ==>
                 ValidDate(PolicyDates[k]) && TargetMonth(PolicyDates[k]) != (d.year, d.month)) ==> r.None?
  {
    match ParseIsoDate(reportDate)
    case None => None
    case Some(d) =>
      ScanPolicies(d.year, d.month, exists_);
      Scan(PolicyDates, d.year, d.month, exists_)
  }

  /** Over the policy table, the answer for a month is the file of the
      policy serving it (if that file exists), and None when none serves it. */
  lemma {:induction false} ScanPolicies(year: int, month: int, exists_: string -> bool)
    ensures forall k :: 0 <= k < |PolicyDates| && ValidDate(PolicyDates[k]) && TargetMonth(PolicyDates[k]) == (year, month) ==>
              Scan(PolicyDates, year, month, exists_) ==
                (if exists_(PolicyPath(PolicyDates[k])) then Some(PolicyPath(PolicyDates[k])) else None)
    ensures (forall k :: 0 <= k < |PolicyDates| ==> ValidDate(PolicyDates[k]) && TargetMonth(PolicyDates[k]) != (year, month)) ==>
              Scan(PolicyDates, year, month, exists_).None?
  {
    PolicyDatesNewestFirst();
    TargetsDistinct();
    forall k | 0 <= k < |PolicyDates| && ValidDate(PolicyDates[k]) && TargetMonth(PolicyDates[k]) == (year, month)
      ensures Scan(PolicyDates, year, month, exists_) ==
                (if exists_(PolicyPath(PolicyDates[k])) then Some(PolicyPath(PolicyDates[k])) else None)
    {
      ScanFirstMatch(PolicyDates, year, month, exists_, k);
    }
    if forall k :: 0 <= k < |PolicyDates| ==> TargetMonth(PolicyDates[k]) != (year, month) {
      ScanNoMatch(PolicyDates, year, month, exists_);
    }
  }

  /** The first matching date decides: when `dates[i]` is the first whose
      target month is the report month, the answer is its file if that
      exists and None otherwise. */
  lemma {:induction false} ScanFirstMatch(dates: seq<Date>, year: int, month: int, exists_: string -> bool, i: nat)
    requires forall k :: 0 <= k < |dates| ==> ValidDate(dates[k])
    requires i < |dates| && TargetMonth(dates[i]) == (year, month)
    requires forall k :: 0 <= k < i ==> TargetMonth(dates[k]) != (year, month)
    ensures Scan(dates, year, month, exists_) ==
              (if exists_(PolicyPath(dates[i])) then Some(PolicyPath(dates[i])) else None)
  {
    if i > 0 {
      ScanFirstMatch(dates[1..], year, month, exists_, i - 1);
    }
  }

  /** Without a matching date the answer is None. */
  lemma {:induction false} ScanNoMatch(dates: seq<Date>, year: int, month: int, exists_: string -> bool)
    requires forall k :: 0 <= k < |dates| ==> ValidDate(dates[k])
    requires forall k :: 0 <= k < |dates| ==> TargetMonth(dates[k]) != (year, month)
    ensures Scan(dates, year, month, exists_).None?
  {
    if dates != [] {
      ScanNoMatch(dates[1..], year, month, exists_);
    }
  }

  /** Whatever is returned is the existing file of a policy date whose
      target month is the report month. */
  lemma {:induction false} ScanSound(dates: seq<Date>, year: int, month: int, exists_: string -> bool)
    requires forall k :: 0 <= k < |dates| ==> ValidDate(dates[k])
    ensures Scan(dates, year, month, exists_).Some? ==>
              exists k :: 0 <= k < |dates| && TargetMonth(dates[k]) == (year, month) &&
                Scan(dates, year, month, exists_).value == PolicyPath(dates[k]) &&
                exists_(PolicyPath(dates[k]))
  {
    if dates != [] && TargetMonth(dates[0]) != (year, month) {
      ScanSound(dates[1..], year, month, exists_);
      if Scan(dates, year, month, exists_).Some? {
        var k :| 0 <= k < |dates[1..]| && TargetMonth(dates[1..][k]) == (year, month) &&
          Scan(dates[1..], year, month, exists_).value == PolicyPath(dates[1..][k]) &&
          exists_(PolicyPath(dates[1..][k]));
        assert dates[k + 1] == dates[1..][k];
      }
    }
  }

  /** No two policy dates share a target month, so at most one date can
      match any report. */
  lemma {:induction false} TargetsDistinct()
    ensures forall i, j :: 0 <= i < j < |PolicyDates| ==> TargetMonth(PolicyDates[i]) != TargetMonth(PolicyDates[j])
  {
    PolicyDatesNewestFirst();
  }

  /** The December policy rolls over: 2024-12-24 serves the January 2025
      report, so a report dated in January 2025 gets that file when it
      exists and nothing otherwise. */
  lemma {:induction false} DecemberRollsOver(reportDate: string, exists_: string -> bool)
    requires ParseIsoDate(reportDate).Some?
    requires ParseIsoDate(reportDate).value.year == 2025 && ParseIsoDate(reportDate).value.month == 1
    ensures FindPolicyFile(reportDate, exists_) ==
              (if exists_(PolicyPath(Date(2024, 12, 24))) then Some(PolicyPath(Date(2024, 12, 24))) else None)
  {
    PolicyDatesNewestFirst();
    assert TargetMonth(PolicyDates[0]) == (2025, 4);
    ScanFirstMatch(PolicyDates, 2025, 1, exists_, 1);
  }

  /** A report month no policy serves, such as June 2024, gets None. */
  lemma {:induction false} UnservedMonth(reportDate: string, exists_: string -> bool)
    requires ParseIsoDate(reportDate).Some?
    requires ParseIsoDate(reportDate).value.year == 2024 && ParseIsoDate(reportDate).value.month == 6
    ensures FindPolicyFile(reportDate, exists_).None?
  {
    PolicyDatesNewestFirst();
    ScanNoMatch(PolicyDates, 2024, 6, exists_);
  }

  /** A report date that is not a date gets None. */
  lemma {:induction false} UnparsableReport(reportDate: string, exists_: string -> bool)
    requires ParseIsoDate(reportDate).None?
    ensures FindPolicyFile(reportDate, exists_).None?
  {
  }

  /** The December policy's file name. */
  lemma {:induction false} DecemberPath()
    ensures PolicyPath(Date(2024, 12, 24)) == "./data/policy_documents/20241224_policy.pdf"
  {
    DecemberCompact();
  }

  /** 2024-12-24 is listed as `20241224`. */
  lemma {:induction false} DecemberCompact()
    ensures CompactText(Date(2024, 12, 24)) == "20241224"
  {
    PadText(12, "12");
    PadText(24, "24");
    YearText();
    assert "2024" + "12" + "24" == "20241224";
  }

  /** 2024 pads to `2024`. */
  lemma {:induction false} YearText()
    ensures Pad4(2024) == "2024"
  {
    PadText(20, "20");
    PadText(24, "24");
    assert Pad4(2024) == Pad2(20) + Pad2(24);
  }

  /** A two-digit number pads to the text of its two digits. */
  lemma {:induction false} PadText(n: nat, t: string)
    requires 10 <= n < 100 && |t| == 2 && t[0] == DigitChar(n / 10) && t[1] == DigitChar(n % 10)
    ensures Pad2(n) == t
  {
    PadTwo(n);
  }

  /** The padded text of a two-digit number, digit by digit. */
  lemma {:induction false} PadTwo(n: nat)
    requires 10 <= n < 100
    ensures Pad2(n) == [DigitChar(n / 10), DigitChar(n % 10)]
  {
  }
}
