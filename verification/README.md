# Home-purchase planning tools, modelled in Dafny

This project models the deterministic core of a Korean home-purchase
advisory backend. The backend serves "plan" and "report" tools to an agent
over FastAPI. The modelled parts are these:

- **Plan input.** The Korean money-string parser. It sums the first match
  of each of the unit patterns 억 (10^8), 천만 (10^7), 백만 (10^6) and 만 (10^4).
  Also modelled: the percent parser, the five-entry location table, and the
  batch validator. The validator reports missing fields before it parses
  anything (module `PlanInput`, with the parser in `Currency`).
- **The older snapshot of the same parsers.** Its currency parser fails,
  with result 0, on falsy input, on non-strings and on strings without
  digits. It is a separate variant, and lemmas compare it with the newer
  parser (`LegacyPlanInput`).
- **Funding arithmetic.** The gap `max(0, price - (loan + assets))` over
  tolerantly coerced integers. The two-bucket monthly compounding
  simulation with its 600-month cap (`Funding`).
- **Product recommendation.** The deposit/saving filter keeps qualifying
  rows and returns the three best rates of each kind. The fund selector
  keeps, per risk level, the first fund with the best expected return, and
  sorts the result by expected return (`Products`, over `Ranking`).
- **Report analytics.**
  - The policy file for a report month: a policy published in month M
    serves the report of month M+1 (`PolicyCalendar`, over `Dates`).
  - The post-processing of policy-change markers: annex exclusion, the last
    `YYYY.M.D` date, calendar validation, zero-padded formatting, the
    target-date filter and whitespace collapsing (`PolicyMarkers`).
  - Portfolio totals and the salary/debt/credit change detector with its
    first-report rule (`ReportAnalytics`).
- **Two in-memory user stores.** Each is a dict plus a counter.
  - The full store has create, get, update, delete, list and search
    (`UserStore`).
  - The API store creates users without an email. The two resources read
    it: age-bucket statistics and the listing (`ApiUserStore`).
  - Python's insertion-ordered dict is modelled as the sequence of its
    entries (`Dicts`).

Each store is a value: an operation takes the store and returns the new
store with its reply.

Shared definitions:
- `Values` is the JSON-shaped scalar a request body holds, with Python's
  truthiness and its `==`/`in` tests.
- `Text` holds the Python string operations the tools rely on:
  `str.isspace`, `strip`, `replace`, `lower` on ASCII, `str(int)`, and
  `int(str)` and `float(str)` on decimal literals.

Parameters stand in for everything outside the code:
- the clock (`now`);
- `os.path.exists` (`exists_`);
- the loaded CSV rows and JSON fund records;
- the matches of the marker regex.

Python floats are modelled as exact reals. The contracts state control
flow, bounds and orderings. Rounding and the float range are not modelled;
"## Left out" lists the members this affects.

The listing resource reads `u['email']`, but records created by the API
store have no email. `ApiUserStore.AllUsersResource` therefore models the
resource's KeyError as `None`, not as a precondition.
`ApiUserStore.CreatedUserBreaksListing` proves that the resource fails once
any user has been created there.

## Model

| member | source | states |
|---|---|---|
| Currency.Search | server/api/tools/plan_agent_tools.py:58 | `re.search` for `(\d+(?:\.\d+)?)W`: a match needs a digit in the text, and the captured number is non-negative |
| Currency.UnitSum | server/api/tools/plan_agent_tools.py:51-60 | the loop over the unit table adds a non-negative contribution per unit |
| Currency.Clean | server/api/tools/plan_agent_tools.py:43 | after strip and the two `replace` calls there is no comma and no blank, and no new character appears |
| Currency.KeepDigits | server/api/tools/plan_agent_tools.py:64 | `re.sub(r"[^0-9]", "", text)` keeps only digits and leaves an all-digit text unchanged |
| Currency.ParseCleanText | server/api/tools/plan_agent_tools.py:47-70 | no digit reads as 0; a non-empty all-digit text reads as its decimal value; a text with no digit-led unit (unit sum 0, as in "abc12def3" or "0억5") reads as its digits concatenated |
| Currency.ParseKoreanCurrency | server/api/tools/plan_agent_tools.py:36-70 | None and "" give 0; an int is itself, and a bool is 0 or 1 as `int(True)` is; a float is truncated toward zero; a string gives a non-negative amount, and 0 when it has no digit; after cleaning, an all-digit text reads as its value, a text whose units sum to 0 reads as its digits concatenated, and otherwise the unit sum is truncated |
| Currency.NoDigitSumZero | server/api/tools/plan_agent_tools.py:62-68 | without a digit the unit loop sums to 0, so the fallback path is taken |
| Currency.UnitSumInDigits | server/api/tools/plan_agent_tools.py:48-49 | an all-digit text contains no unit word, so the all-digit shortcut agrees with the unit loop |
| Currency.SearchPart | server/api/tools/plan_agent_tools.py:52-60 | in `str(n) + W + rest`, the search for W's pattern captures n, and a search for any other unit skips the part |
| Currency.CompactSum | server/api/tools/plan_agent_tools.py:51-60 | the four units are searched independently and their contributions add up to a·10^8 + b·10^7 + c·10^6 + d·10^4 |
| Currency.CompactRoundTrip | server/api/tools/plan_agent_tools.py:51-70 | parsing the compact spelling of a non-zero amount (such as "3억5천만") gives back its worth |
| Currency.RenderRoundTrip | server/api/tools/plan_agent_tools.py:36-70 | parsing the rendering of any amount (and "0" for zero) gives back its worth |
| Currency.ZeroRoundTrip | server/api/tools/plan_agent_tools.py:44-49 | "0" takes the all-digit path and reads as 0 |
| Currency.SameClean | server/api/tools/plan_agent_tools.py:43 | strings that clean to the same text parse to the same amount |
| Currency.ExampleEokCheonMan | server/api/tools/plan_agent_tools.py:29 | "3억 5천만" is 350,000,000 |
| Currency.ExampleMan | server/api/tools/plan_agent_tools.py:30 | "1200만" is 12,000,000 |
| LegacyPlanInput.LegacyText | server/tools/plan_agent_tools.py:30 | after the older parser removes commas and blanks none remain, and no new character appears |
| LegacyPlanInput.LegacyParseCurrency | server/tools/plan_agent_tools.py:25-48 | within the float range, it succeeds exactly on strings that hold a digit; every failure reports result 0; results are non-negative |
| LegacyPlanInput.LegacyParseText | server/tools/plan_agent_tools.py:29-48 | within the float range, success iff the text holds a digit, since `float` raises on what is left otherwise; every failure reports 0 |
| LegacyPlanInput.LegacyTextDigits | server/tools/plan_agent_tools.py:30 | removing commas and blanks neither adds nor removes digits |
| LegacyPlanInput.CleanAgrees | server/tools/plan_agent_tools.py:30 | without whitespace other than blanks, the older text equals the newer cleaned text |
| LegacyPlanInput.ReadAgrees | server/tools/plan_agent_tools.py:33-45 | on a cleaned text with a digit, the older parser computes the newer parser's value |
| LegacyPlanInput.LegacyAgreesWithNewer | server/tools/plan_agent_tools.py:25-48 | on a string with a digit and only blank whitespace, the two snapshots agree and the older one succeeds |
| LegacyPlanInput.SnapshotsDiffer | server/tools/plan_agent_tools.py:43-48 | a digitless string fails in the older parser but gives 0 in the newer one; an int fails in the older one but is kept by the newer one |
| LegacyPlanInput.LegacyExample | server/tools/plan_agent_tools.py:22 | "3억5천만" is 350,000,000 in the older parser as well |
| LegacyPlanInput.LegacyRenderRoundTrip | server/tools/plan_agent_tools.py:30-45 | the older parser also reads a rendered amount back as its worth |
| LegacyPlanInput.LegacyValidateInputData | server/tools/plan_agent_tools.py:114-154 | validated iff complete; an incomplete reply lists exactly the missing required fields and is never empty; a validated reply carries the older normalisation |
| LegacyPlanInput.LegacyNormalizeReads | server/tools/plan_agent_tools.py:140-153 | on rendered amounts without stray whitespace the older normaliser reads the worths and agrees with the newer one field for field |
| LegacyPlanInput.ValidatorsCompared | server/tools/plan_agent_tools.py:128-153 | both validators report the same missing fields; a numeric hope_price becomes 0 in the older one and stays itself in the newer one |
| PlanInput.RatioText | server/api/tools/plan_agent_tools.py:189 | every '%' is removed before stripping |
| PlanInput.ParseRatio | server/api/tools/plan_agent_tools.py:180-202 | falsy input fails with ratio 0; every failure carries ratio 0; a non-zero int is itself; floats and bools fail; a successful string holds a digit |
| PlanInput.ParseStringRatio | server/api/tools/plan_agent_tools.py:189-202 | a failed parse reports ratio 0; success needs a digit |
| PlanInput.NumeralRatio | server/api/tools/plan_agent_tools.py:189 | a numeral reads back as its integer |
| PlanInput.PercentIgnored | server/api/tools/plan_agent_tools.py:189 | a '%' anywhere in the text does not change the result |
| PlanInput.RatioRoundTrip | server/api/tools/plan_agent_tools.py:171 | every integer written with a trailing '%' reads back as itself |
| PlanInput.RatioExamples | server/api/tools/plan_agent_tools.py:171-173 | "30%" → 30, " 40 % " → 40, "" fails |
| PlanInput.LookupLocation | server/api/tools/plan_agent_tools.py:140-147 | a known short name maps to the official name the table pairs it with; anything else maps to the default |
| PlanInput.TableKeysDistinct | server/api/tools/plan_agent_tools.py:140-146 | the table lists each short name once, so `dict.get` is well defined on it |
| PlanInput.NormalizeLocation | server/api/tools/plan_agent_tools.py:137-160 | success iff the input is a string; a known short name, after stripping, becomes the official name paired with it; anything else comes back exactly as given |
| PlanInput.OfficialNotShort | server/api/tools/plan_agent_tools.py:140-146 | no official name, stripped, is a short name in the table |
| PlanInput.NormalizeIdempotent | server/api/tools/plan_agent_tools.py:147 | normalising twice is normalising once |
| PlanInput.LocationExample | server/api/tools/plan_agent_tools.py:132 | "서울 동작구" → "서울특별시 동작구" |
| PlanInput.MissingFields | server/api/tools/plan_agent_tools.py:245-248 | a field is reported iff it is listed and its value is None, "", 0 or "0" |
| PlanInput.MissingFieldsOrdered | server/api/tools/plan_agent_tools.py:245-248 | reported fields keep the order of the list they come from |
| PlanInput.MissingRequired | server/api/tools/plan_agent_tools.py:240-248 | nothing is reported iff every required field is present and not a missing marker |
| PlanInput.NormalizeReads | server/api/tools/plan_agent_tools.py:262-272 | rendered amounts normalise to their worths, a numeral with '%' to its integer, and a short district name (blanks around it allowed) to its paired official name |
| PlanInput.ValidateInputData | server/api/tools/plan_agent_tools.py:226-281 | validated iff complete; an incomplete reply lists exactly the missing required fields and is never empty; a validated reply carries the normalised data |
| PlanInput.IncompleteIffMissing | server/api/tools/plan_agent_tools.py:251-257 | the request is incomplete exactly when some required field is missing |
| PlanInput.MissingInRequiredOrder | server/api/tools/plan_agent_tools.py:240-248 | missing fields are reported in the order of the required list |
| PlanInput.RequiredDistinct | server/api/tools/plan_agent_tools.py:240-242 | no required field is listed twice |
| PlanInput.BadRatioStillValid | server/api/tools/plan_agent_tools.py:264-281 | a complete request with an unparsable ratio is still validated, with ratio 0 |
| Funding.ToInt | server/api/tools/plan_agent_tools.py:750-756 | None gives the default; an int is itself; a float is truncated; a string within the float range is `int(float(s))`, or the default when `float` raises |
| Funding.ToReal | server/api/tools/plan_agent_tools.py:742-748 | None gives the default; numbers are themselves; a bool is 1.0 or 0.0; a readable string gives the value `float` reads; an unreadable string gives the default |
| Funding.Gap | server/api/tools/plan_agent_tools.py:682 | the gap is never negative; it is 0 iff loan plus assets cover the price; otherwise gap + loan + assets = price |
| Funding.CalcShortage | server/api/tools/plan_agent_tools.py:677-693 | the echoed inputs are the coerced amounts, and the shortage is their gap |
| Funding.ShortageExample | server/api/tools/plan_agent_tools.py:651-657 | 800M price, 400M loan and 200M assets leave 200M |
| Funding.UnreadableAmountIsZero | server/api/tools/plan_agent_tools.py:669-675 | a missing loan amount, or one without a digit, coerces to 0 without raising |
| Funding.GapAntitone | server/api/tools/plan_agent_tools.py:682 | a larger loan never widens the gap |
| Funding.MonthsFrom | server/api/tools/plan_agent_tools.py:791-796 | reference definition: the first month from k on whose balance reaches the shortage, capped at 600 |
| Funding.MonthsFromUnique | server/api/tools/plan_agent_tools.py:791 | the bound, the reach and the minimality together determine the months needed |
| Funding.Simulate | server/api/tools/plan_agent_tools.py:770-804 | no shortage: 0 months and the assets as balance. Otherwise: months ≤ 600; every earlier month is short; below the cap the final balance reaches the shortage; the balance and the monthly investment are truncated; the ratios are echoed |
| Funding.MonthsMonotone | server/api/tools/plan_agent_tools.py:791 | a larger shortage never needs fewer months |
| Funding.BucketsIgnoreShortage | server/api/tools/plan_agent_tools.py:779-796 | the balances never depend on the shortage |
| Funding.BalanceGrows | server/api/tools/plan_agent_tools.py:794-796 | with non-negative inputs, each month's add-then-compound step never lowers the balance |
| Funding.ReadSimInput | server/api/tools/plan_agent_tools.py:807-816 | the defaults for absent keys: shortage, assets and income 0; usage ratio 20; yields 3 and 6; ratios 0.5 |
| Funding.SimulateInvestment | server/api/tools/plan_agent_tools.py:806-827 | months ≤ 600 and equal to the reference count; a shortage that coerces to ≤ 0 needs 0 months; the default saving ratio is 0.5 |
| Products.ReadCriteria | server/api/tools/plan_agent_tools.py:369-371 | absent keys give age 0, first customer and 12 months; otherwise age and period are `int(v or default)` and the flag is the value's truthiness |
| Products.Qualifying | server/api/tools/plan_agent_tools.py:377-392 | the rows kept are exactly the table's rows of the kind with min age ≤ age, min_term ≤ period ≤ max_term and, for returning customers, no first-customer condition, each as many times as the table holds it |
| Products.QualifyingAppend | server/api/tools/plan_agent_tools.py:377-392 | the filter keeps table order: the rows of two tables joined are each table's rows, joined |
| Products.TopThree | server/api/tools/plan_agent_tools.py:394-398 | at most three rows, each qualifying |
| Products.TopThreeBest | server/api/tools/plan_agent_tools.py:394-398 | sorted by max_rate descending and taken from the table; all qualifying rows when at most three qualify, otherwise exactly three; no qualifying row left out beats the last one kept |
| Products.FilterTopSavings | server/api/tools/plan_agent_tools.py:369-439 | success iff the criteria can be read; failure gives two empty lists; success gives the top three deposits and savings for the same criteria, each of the right product type |
| Products.ReturningCustomerExcluded | server/api/tools/plan_agent_tools.py:384-385 | a returning customer is never offered a first-customer-only product |
| Products.PercentReturnRoundTrip | server/api/tools/plan_agent_tools.py:552-557 | "12%" and "12" both read as 12, for every integer |
| Products.Visit | server/api/tools/plan_agent_tools.py:579-590 | one loop step keeps every entry pointing at a fund of the list |
| Products.Group | server/api/tools/plan_agent_tools.py:577-590 | after n funds, every entry points at one of those n funds; the per-level facts are Products.GroupKeepsFacts |
| Products.GroupKeepsFacts | server/api/tools/plan_agent_tools.py:577-590 | after the loop: one entry per distinct truthy risk level, in first-seen order; each entry's fund has the best score of its level and beats every earlier fund of that level |
| Products.VisitKeepsFacts | server/api/tools/plan_agent_tools.py:579-590 | one loop step (skip, append a new level, replace only on a strictly better score) keeps those facts |
| Products.SelectTopFunds | server/api/tools/plan_agent_tools.py:568-618 | an empty list fails; otherwise the recommendations are a permutation of the per-level lines, with the input count and a level count equal to the number of lines |
| Products.SelectTopFundsBest | server/api/tools/plan_agent_tools.py:577-610 | recommendations are sorted by expected return, descending, the per-level facts hold, and lines with equal returns keep their first-seen level order (the sort is stable) |
| Products.FirstOfEqualsWins | server/api/tools/plan_agent_tools.py:589-590 | of two funds with one level and equal scores, the first is kept |
| Ranking.SortDesc | server/api/tools/plan_agent_tools.py:607-610 | sorting returns a permutation of the input |
| Ranking.SortDescSorted | server/api/tools/plan_agent_tools.py:607-610 | the result is ordered by key, largest first |
| Ranking.SortDescStable | server/api/tools/plan_agent_tools.py:607-610 | the sort is stable: the elements sharing a key leave in the order they came |
| Ranking.SortDescOrdered | server/api/tools/plan_agent_tools.py:607-610 | already-ordered input comes back unchanged |
| Ranking.Take | server/api/tools/plan_agent_tools.py:398 | `head(n)`: the first min(n, len) elements |
| Ranking.TopByKey | server/api/tools/plan_agent_tools.py:396-398 | sort then head(n): ordered, drawn from the input, everything when there are at most n, and nothing left out beats the last one kept |
| Dates.DaysInMonth | server/api/tools/report_agent_tools.py:349 | months have 28 to 31 days; February has 29 exactly in Gregorian leap years |
| Dates.ParseIsoDate | server/api/tools/report_agent_tools.py:95 | `strptime(s, "%Y-%m-%d")` yields only dates that `datetime` accepts |
| Dates.FormatIso | server/api/tools/report_agent_tools.py:349 | `strftime("%Y-%m-%d")` writes ten characters with dashes at positions 4 and 7; Dates.IsoRoundTrip reads it back |
| Dates.IsoRoundTrip | server/api/tools/report_agent_tools.py:349 | `strptime` reads back what `strftime("%Y-%m-%d")` wrote |
| Dates.IsoCanonical | server/api/tools/report_agent_tools.py:95 | a ten-character string without blanks that parses is exactly its date written back |
| Dates.NextMonth | server/api/tools/report_agent_tools.py:102 | the month after (y, m) is one month index later; December rolls over to January |
| Dates.NextMonthInjective | server/api/tools/report_agent_tools.py:102-105 | different months have different next months |
| PolicyCalendar.PolicyDatesNewestFirst | server/api/tools/report_agent_tools.py:74-98 | the listed dates are valid and already newest first, so the reverse sort keeps their order |
| PolicyCalendar.TargetMonth | server/api/tools/report_agent_tools.py:102 | a policy of date D targets the month after D's month |
| PolicyCalendar.Scan | server/api/tools/report_agent_tools.py:98-117 | a returned path is one that exists |
| PolicyCalendar.FindPolicyFile | server/api/tools/report_agent_tools.py:88-121 | an unparsable report date gets None; otherwise the policy whose target month is the report month decides (its file if it exists, else None), and a month no policy serves gets None |
| PolicyCalendar.ScanPolicies | server/api/tools/report_agent_tools.py:98-117 | over the listed dates, the answer for a month is the serving policy's file if it exists, and None when no policy serves it |
| PolicyCalendar.ScanFirstMatch | server/api/tools/report_agent_tools.py:98-114 | the first date whose target month is the report month decides: its file if it exists, else None without trying older dates |
| PolicyCalendar.ScanNoMatch | server/api/tools/report_agent_tools.py:116-117 | without a matching date the answer is None |
| PolicyCalendar.ScanSound | server/api/tools/report_agent_tools.py:104-111 | any returned path is the existing file of a date whose target month is the report month |
| PolicyCalendar.TargetsDistinct | server/api/tools/report_agent_tools.py:74-83 | no two listed dates share a target month |
| PolicyCalendar.DecemberRollsOver | server/api/tools/report_agent_tools.py:76 | the 2024-12-24 policy serves January 2025 reports |
| PolicyCalendar.UnservedMonth | server/api/tools/report_agent_tools.py:116-117 | a month that no policy serves (June 2024) gets None |
| PolicyCalendar.UnparsableReport | server/api/tools/report_agent_tools.py:119-121 | a report date that is not `YYYY-MM-DD` gets None |
| PolicyCalendar.DecemberPath | server/api/tools/report_agent_tools.py:106-107 | the path is `./data/policy_documents/20241224_policy.pdf` |
| PolicyMarkers.AnnexTagFound | server/api/tools/report_agent_tools.py:332 | any clause that quotes `<별표N>` is recognised by the annex search |
| PolicyMarkers.AnnexDropped | server/api/tools/report_agent_tools.py:332-334 | a clause quoting an annex tag yields no change |
| PolicyMarkers.DateMatchAt | server/api/tools/report_agent_tools.py:337 | a date match has well-formed groups (4 digits, 1-2 digits, 1-2 digits) and ends inside the text |
| PolicyMarkers.GroupsMatch | server/api/tools/report_agent_tools.py:337 | `YYYY.M.D` not followed by a digit matches as exactly those three groups |
| PolicyMarkers.DottedMatch | server/api/tools/report_agent_tools.py:337-349 | a dotted date matches with its own groups, and those groups read back as the date |
| PolicyMarkers.NoMatchAtNonDigit | server/api/tools/report_agent_tools.py:337 | no date match starts at a non-digit |
| PolicyMarkers.DatesStep | server/api/tools/report_agent_tools.py:338 | `findall` takes a match and resumes after it, or moves on one character |
| PolicyMarkers.DottedDates | server/api/tools/report_agent_tools.py:338 | `findall` over a lone dotted date finds exactly that date |
| PolicyMarkers.TwoDottedDates | server/api/tools/report_agent_tools.py:320 | a marker amended twice (`2024.7.24., 2024.12.24.`) holds both dates in order |
| PolicyMarkers.LastDateWins | server/api/tools/report_agent_tools.py:344-349 | with two dates, the later-written one becomes the effective date |
| PolicyMarkers.UndatedDropped | server/api/tools/report_agent_tools.py:340-342 | a marker without a `YYYY.M.D` date yields nothing |
| PolicyMarkers.InvalidDateDropped | server/api/tools/report_agent_tools.py:348-352 | a last date that is not on the calendar yields nothing |
| PolicyMarkers.ProcessMatch | server/api/tools/report_agent_tools.py:330-374 | a clause with an annex tag yields nothing; a kept change comes from a marker with a date; with a filter its date is the target |
| PolicyMarkers.KeptChange | server/api/tools/report_agent_tools.py:345-374 | a kept change's effective date is the marker's last date, valid and zero-padded; its text is the normalised clause plus `<type dates>` |
| PolicyMarkers.LastGroupsKept | server/api/tools/report_agent_tools.py:345-369 | without an annex tag or a filter, a marker whose last date is valid is kept with that date |
| PolicyMarkers.DottedMarkerKept | server/api/tools/report_agent_tools.py:345-374 | a single valid dotted date on a clause without an annex tag is kept with that date |
| PolicyMarkers.Collapse | server/api/tools/report_agent_tools.py:366 | never longer than its input; what it keeps and replaces is stated by the Collapse lemmas below |
| PolicyMarkers.CollapseNoDoubleSpace | server/api/tools/report_agent_tools.py:366 | after `re.sub(r'\s{2,}', ' ', …)` no two whitespace characters are adjacent |
| PolicyMarkers.CollapseIdentity | server/api/tools/report_agent_tools.py:366 | text without a whitespace run is left alone, so single tabs or newlines stay |
| PolicyMarkers.CollapseIdempotent | server/api/tools/report_agent_tools.py:366 | collapsing twice is collapsing once |
| PolicyMarkers.CollapseVisible | server/api/tools/report_agent_tools.py:366 | only whitespace is replaced: the visible characters stay, in order |
| PolicyMarkers.CollapseFirst | server/api/tools/report_agent_tools.py:366 | the result starts with whitespace exactly when the input does |
| PolicyMarkers.CollapseLast | server/api/tools/report_agent_tools.py:366 | the result ends with whitespace exactly when the input does |
| PolicyMarkers.NormalizeShape | server/api/tools/report_agent_tools.py:365-366 | normalised text has no whitespace at either end and no whitespace run |
| PolicyMarkers.NormalizeVisible | server/api/tools/report_agent_tools.py:365-366 | normalising keeps every visible character, in order |
| PolicyMarkers.StripVisible | server/api/tools/report_agent_tools.py:365 | stripping removes only whitespace |
| PolicyMarkers.ProcessedDate | server/api/tools/report_agent_tools.py:349-360 | a kept change has a calendar date, and with a filter that date is the target |
| PolicyMarkers.FilterAgrees | server/api/tools/report_agent_tools.py:357-360 | a non-empty target keeps a match iff the unfiltered run keeps it with that date, and the change is the same; an empty target filters nothing |
| PolicyMarkers.ExtractChanges | server/api/tools/report_agent_tools.py:328-377 | there are never more changes than matches |
| PolicyMarkers.ExtractAppend | server/api/tools/report_agent_tools.py:330-374 | matches are processed one at a time, in order: two batches give the two results joined |
| PolicyMarkers.ExtractedDates | server/api/tools/report_agent_tools.py:349-360 | every extracted change has a calendar date, equal to the target when one is given |
| PolicyMarkers.ExtractFromMatches | server/api/tools/report_agent_tools.py:330-374 | every extracted change is the change of some match |
| PolicyMarkers.FilteredBatch | server/api/tools/report_agent_tools.py:357-360 | filtering a batch keeps the unfiltered changes dated on the target, in order |
| ReportAnalytics.Amount | server/api/tools/report_agent_tools.py:638-641 | `p.get(k, 0) or 0`: a falsy or missing amount adds 0; an int adds itself; a non-empty string makes the addition raise |
| ReportAnalytics.Totals | server/api/tools/report_agent_tools.py:637-641 | when the loop finishes, no product holds an amount that makes the addition raise |
| ReportAnalytics.TotalsFail | server/api/tools/report_agent_tools.py:637-641 | the loop raises iff some product holds a non-empty string as an amount |
| ReportAnalytics.TotalsAppend | server/api/tools/report_agent_tools.py:637-641 | totals add up over a split of the product list |
| ReportAnalytics.AnalyzeProfit | server/api/tools/report_agent_tools.py:622-654 | an empty list reports zeros and count 0; the count is the number of products; a non-empty list fails iff the totals fail |
| ReportAnalytics.WholeAmounts | server/api/tools/report_agent_tools.py:643-653 | with whole totals, net profit = valuation − principal exactly |
| ReportAnalytics.ProfitOfTotals | server/api/tools/report_agent_tools.py:649-651 | the reported totals and net profit are the exact sums truncated by `int()` |
| ReportAnalytics.EmptyProducts | server/api/tools/report_agent_tools.py:638-639 | products without amounts add nothing |
| ReportAnalytics.TwoProductsExample | server/api/tools/report_agent_tools.py:634-653 | 1.0M→1.2M and 0.5M→0.45M give principal 1.5M, valuation 1.65M and profit 150k over 2 products |
| ReportAnalytics.FieldValue | server/api/tools/report_agent_tools.py:687-691 | `int(d.get(f, 0) or 0)`: falsy or missing reads 0; an int reads as itself |
| ReportAnalytics.FieldLine | server/api/tools/report_agent_tools.py:695-700 | at most one line; a follow-up report has a line iff the value changed; a first report has a line iff the current value is non-zero |
| ReportAnalytics.AnalyzeProfileChanges | server/api/tools/report_agent_tools.py:684-716 | at most 3 lines; the message iff no lines; first-report flag as the `all(...)` rule |
| ReportAnalytics.LinesForSplit | server/api/tools/report_agent_tools.py:686-691 | the loop succeeds iff every field can be read |
| ReportAnalytics.LinesFor | server/api/tools/report_agent_tools.py:686-700 | at most one line per tracked field |
| ReportAnalytics.ProfileLines | server/api/tools/report_agent_tools.py:686-700 | the lines are salary's, then debt's, then credit's, each by the per-field rule |
| ReportAnalytics.UnreadableField | server/api/tools/report_agent_tools.py:690-691 | a field that `int()` cannot read fails the call |
| ReportAnalytics.NullPrevious | server/api/tools/report_agent_tools.py:684-688 | a previous None is not zero for the first-report test, but reads as 0 for the difference |
| ReportAnalytics.NoTrackedFields | server/api/tools/report_agent_tools.py:684 | a previous report without tracked fields counts as a first report |
| ReportAnalytics.Unchanged | server/api/tools/report_agent_tools.py:702-709 | a follow-up report with no change gives no lines and the fixed message |
| ReportAnalytics.FirstReportRecords | server/api/tools/report_agent_tools.py:698-700 | a first report records exactly the non-zero current values, whatever the previous ones |
| Values.IntOf | server/api/tools/report_agent_tools.py:690 | `int(v)` keeps ints, raises on None, and on a string succeeds only if it holds a digit |
| Values.IntOfFloat | server/api/tools/plan_agent_tools.py:673 | `int(float(v))` keeps ints and raises on None |
| Text.Strip | server/api/tools/plan_agent_tools.py:189 | the result has no whitespace at either end and is no longer than the input |
| Text.StripPadded | server/api/tools/plan_agent_tools.py:189 | strip removes exactly the whitespace padding around a trimmed core |
| Text.RemoveChar | server/api/tools/plan_agent_tools.py:189 | `replace(c, "")` leaves no c, adds nothing, and changes nothing when c is absent |
| Text.IntLiteralRoundTrip | server/api/tools/plan_agent_tools.py:189 | `int(str(i)) == i` for every int |
| Text.ParseIntLiteral | server/api/tools/plan_agent_tools.py:189 | Python's `int(s)` on a string: succeeds only on text that holds a digit; its round trip is Text.IntLiteralRoundTrip |
| Text.ParseDecimal | server/api/tools/plan_agent_tools.py:673 | Python's `float(s)` on a string: succeeds only on text that holds a digit; its round trip is Text.DecimalRoundTrip |
| Text.DecimalRoundTrip | server/api/tools/plan_agent_tools.py:673 | `float(str(i)) == i` for every int |
| Text.Trunc | server/api/tools/plan_agent_tools.py:41 | `int(x)` on a float rounds toward zero |
| Text.NatToString | server/tools/user_tools.py:18 | `str(n)` is a digit string worth n, without leading zeros |
| Text.NatToStringInjective | server/tools/user_tools.py:18 | distinct counters give distinct numerals |
| Text.Lower | server/tools/user_tools.py:59 | lower-casing keeps the length and maps each ASCII capital to its small letter |
| Dicts.Find | server/tools/user_tools.py:32 | a key's position exists iff the key is present, and it is the first position holding the key |
| Dicts.Get | server/tools/user_tools.py:32-34 | a lookup succeeds iff the key is present, and yields that key's entry |
| Dicts.Put | server/tools/user_tools.py:28 | assignment appends a new key at the end, or replaces an existing key's value in place |
| Dicts.PutGet | server/tools/user_tools.py:28 | after assignment the key reads the new value, every other key reads as before, and keys stay distinct |
| Dicts.Pop | server/tools/user_tools.py:51 | `pop` removes one entry and closes the gap |
| Dicts.PopGet | server/tools/user_tools.py:51 | after `pop` the key is gone, every other key reads as before, and keys stay distinct |
| Dicts.PopValues | server/tools/user_tools.py:51 | the values after `pop` are the old values less the popped one, in order |
| Dicts.AppendValues | server/tools/user_tools.py:55 | a new key's value comes last in `values()` |
| UserStore.IdNumberOf | server/tools/user_tools.py:18 | the number of `user_<n>` reads back as n |
| UserStore.EmptyValid | server/tools/user_tools.py:8-9 | the initial empty store and zero counter satisfy the store invariant |
| UserStore.FreshId | server/tools/user_tools.py:17-18 | the next id is not in a valid store |
| UserStore.CreateUser | server/tools/user_tools.py:12-29 | a taken email fails and changes nothing; otherwise the counter goes up by one and the record, with the given fields, is stored under `user_<counter>` |
| UserStore.CreateAddsOne | server/tools/user_tools.py:17-28 | in a valid store a successful create appends exactly one record under an unused id |
| UserStore.CreateThenGet | server/tools/user_tools.py:28-34 | the created user can be read back under its id |
| UserStore.CreatePreservesValid | server/tools/user_tools.py:17-28 | create keeps the invariant: records under their own ids, keys distinct, ids issued by the counter |
| UserStore.GetUser | server/tools/user_tools.py:31-34 | found iff the id is a key, and then the record stored under it; otherwise the not-found error |
| UserStore.UpdateUser | server/tools/user_tools.py:36-46 | fails iff the id is absent, and then changes nothing; success keeps the counter and every key in place |
| UserStore.UpdateFrame | server/tools/user_tools.py:38-46 | only that record changes, in place. Its id and creation time stay and updated_at is now. Each truthy argument overwrites its field; the email is not checked for uniqueness. Others are untouched and the store stays valid |
| UserStore.DeleteUser | server/tools/user_tools.py:48-52 | fails iff the id is absent; success returns a stored record and removes one entry |
| UserStore.DeleteRemovesOne | server/tools/user_tools.py:48-52 | delete removes and returns exactly that record; the others keep their order and read as before |
| UserStore.DeletePreservesValid | server/tools/user_tools.py:51 | delete keeps the invariant |
| UserStore.IdsNotReused | server/tools/user_tools.py:17-18 | after a delete the next create never reuses the deleted id |
| UserStore.PySlice | server/tools/user_tools.py:56 | `s[a:b]` has hi − lo elements (none when lo ≥ hi), where negative bounds count from the end and both are clamped; element k is `s[lo + k]` |
| UserStore.PySliceJoin | server/tools/user_tools.py:56 | adjacent pages join: `s[a:b] + s[b:c] == s[a:c]` for 0 ≤ a ≤ b ≤ c |
| UserStore.ListUsers | server/tools/user_tools.py:54-56 | the total is the store size and the page is no larger |
| UserStore.ListPage | server/tools/user_tools.py:56 | with non-negative offset and limit, the page is the records from the offset on, in insertion order, as many as there are up to the limit |
| UserStore.ListDefault | server/tools/user_tools.py:54-56 | the default call lists the first ten users |
| UserStore.SearchIn | server/tools/user_tools.py:60 | a user is kept iff `str(field)` contains the query, ignoring case |
| UserStore.SearchUsers | server/tools/user_tools.py:58-61 | results are exactly the matching stored users, and the total is their number |
| UserStore.SearchAppend | server/tools/user_tools.py:60 | results keep insertion order |
| UserStore.EmptyQueryMatchesAll | server/tools/user_tools.py:59-60 | the empty query matches every user |
| UserStore.QueryCaseIgnored | server/tools/user_tools.py:59-60 | queries that lower-case alike match alike |
| UserStore.UnknownField | server/tools/user_tools.py:60 | a field records lack reads as "", so a non-empty query finds nobody |
| ApiUserStore.CreateUser | server/api/tools/user_tools.py:24-36 | always succeeds; the counter goes up by one; the record has id `user_<counter>`, the name and age, and no email; it is stored under its id |
| ApiUserStore.CreateAppends | server/api/tools/user_tools.py:25-35 | in a valid store a create appends one record under an unused id |
| ApiUserStore.CreatePreservesValid | server/api/tools/user_tools.py:25-35 | create keeps the store invariant |
| ApiUserStore.TwoCreatesDistinct | server/api/tools/user_tools.py:25-27 | two creates in a row give distinct ids, even for the same name and age |
| ApiUserStore.GetUser | server/api/tools/user_tools.py:46-49 | the argument is looked up as a key: found iff present, else the not-found error |
| ApiUserStore.LookupByNameFails | server/api/tools/user_tools.py:46-48 | a lookup by anything not shaped `user_<digits>`, such as a name, fails |
| ApiUserStore.Bucket | server/api/resources/user_resources.py:13-17 | under 20 (a missing age counts as 0) → 10대, 20–29 → 20대, 30–39 → 30대, 40 and over → 40대+ |
| ApiUserStore.Tally | server/api/resources/user_resources.py:12-17 | the four counts sum to the number of users |
| ApiUserStore.TallyCounts | server/api/resources/user_resources.py:12-17 | each group counts exactly the users whose age falls in it |
| ApiUserStore.UserStats | server/api/resources/user_resources.py:8-18 | the total is the store size and the groups sum to it |
| ApiUserStore.TallyAppend | server/api/resources/user_resources.py:12-17 | counting one more user adds one to that user's group |
| ApiUserStore.BumpCommutes | server/api/resources/user_resources.py:12-17 | the order users are counted in does not matter |
| ApiUserStore.CreateCountsOnce | server/api/resources/user_resources.py:12-17 | a created user adds one to the group of its age |
| ApiUserStore.StatsTextDetermines | server/api/resources/user_resources.py:18 | the reported text determines the statistics: equal texts mean equal totals and equal age groups |
| ApiUserStore.UserLine | server/api/resources/user_resources.py:26 | a line exists iff the record has both an email and an age |
| ApiUserStore.AllUsersResource | server/api/resources/user_resources.py:21-27 | an empty store gives the fixed message; otherwise the listing exists iff every record has an email and an age |
| ApiUserStore.LinesAppend | server/api/resources/user_resources.py:24-27 | the listing is the records' lines, in insertion order |
| ApiUserStore.OneLine | server/api/resources/user_resources.py:26 | a record's line is its id, name, email and age followed by 세 |
| ApiUserStore.CreatedUserBreaksListing | server/api/resources/user_resources.py:26 | after any create in this store the listing raises KeyError |

## Left out

- HTTP and MCP plumbing is left out: FastAPI routers, reply envelopes such as `tool_name` and `meta`, logging, configuration and the Pydantic schemas. None of it has logic of its own.
- MySQL, FAISS/embedding and PDF code is left out because it is all external I/O. The same goes for loading the saving CSV and the fund JSON file: the rows and records are inputs.
- File and path checks before loading (`os.path.exists`, the default paths, a CSV that fails to load) are left out as I/O.
- The regex `findall` that yields the marker triples is left out, and the triples are an input. The source-tag and `---` clean-up before it is left out with it.
- `os.path.exists` in the policy-file lookup is the parameter `exists_`.
- `datetime.now()` is the parameter `now` in the user stores. It is not modelled in the validators, whose `validation_timestamp` field is omitted.
- `profit_rate` and its `round(…, 2)` are not modelled: they are float presentation.
- The `{:,}` and `{:+,}` formatting of the change lines is not modelled: `ChangeLine` carries the numbers the line prints.
- Currency.ParseKoreanCurrency: decimal prefixes such as "1.5억" are computed over exact reals. Python's float product can round differently, for example for 0.29 × 10^8. A numeral past the float range (about 309 digits) before a unit, or in the digit fallback of a mixed text, makes `float` return inf and `int(inf)` raise OverflowError, which the tool reports as success False with parsed 0 (server/api/tools/plan_agent_tools.py:72-86); the model reads such numerals exactly and does not fail. The digit fallback `int(float(digits))` also rounds past 2^53 ("a9007199254740993" gives 9007199254740992 in Python); the model reads the digits exactly. An all-digit text goes through `int(text)`, which never overflows; on Python 3.11 and later it raises ValueError past 4300 digits, which the tool again reports as success False, and the model does not limit the length.
- LegacyPlanInput.LegacyParseCurrency: a digit run past the float range makes `int(float(…))` raise OverflowError, which the older tool reports as a failure with result 0 (server/tools/plan_agent_tools.py:46-48); the model reports success with the exact value.
- LegacyPlanInput.LegacyParseText: the same float-range limit as LegacyPlanInput.LegacyParseCurrency.
- Funding.ToInt: a numeric string past the float range, such as "1e400", gives the default in Python because `int(inf)` raises (server/api/tools/plan_agent_tools.py:669-675); the model returns the exact truncation.
- Funding.ToReal: `float("1e400")` is inf in Python; the model returns 10^400.
- Products.ParseExpectedReturn: a return string past the float range reads as inf in Python and as its exact value here.
- LegacyPlanInput.ReadAgrees: holds over exact reals only. The older parser reads an all-digit text as `int(float(text))` (server/tools/plan_agent_tools.py:43-44) and the newer one as `int(text)` (server/api/tools/plan_agent_tools.py:48-49), so past 2^53 they differ in Python: "9007199254740993" gives 9007199254740992 in the older parser and the exact value in the newer one.
- LegacyPlanInput.LegacyAgreesWithNewer: the same rounding gap as LegacyPlanInput.ReadAgrees on all-digit strings past 2^53.
- Text.DecimalRoundTrip: holds over exact reals only. In Python `float(str(i)) == i` fails past 2^53, for example for 9007199254740993.
- Products.PercentReturnRoundTrip: "for every integer" holds over exact reals only. Python's `float` rounds integers past 2^53, so "9007199254740993%" reads as 9007199254740992.0.
- Currency.CompactRoundTrip: holds over exact reals only. Python computes each part as `float(count) * multiplier` and adds the parts as floats, which can round once the amount exceeds 2^53.
- Currency.RenderRoundTrip: the same rounding limit as Currency.CompactRoundTrip.
- LegacyPlanInput.LegacyRenderRoundTrip: the same rounding limit as Currency.CompactRoundTrip.
- PlanInput.NormalizeReads: the amounts read back exactly only within the limit of Currency.CompactRoundTrip.
- LegacyPlanInput.LegacyNormalizeReads: the worths are exact only within the limit of Currency.CompactRoundTrip. The two normalisers compute the same float products, so their agreement does not depend on it.
- ReportAnalytics.ProfitOfTotals: the source adds the amounts as floats and truncates the float sum; the model truncates the exact sum. The two differ, for example for amounts 0.7, 0.1 and 0.2, whose float sum truncates to 0 and whose exact sum truncates to 1.
- ReportAnalytics.AnalyzeProfit: the reported totals are the exact sums, as for ReportAnalytics.ProfitOfTotals.
- Funding.Simulate: balances are exact reals, not IEEE doubles, so `total_balance` and the month at which a float sum would cross the shortage are not bit-exact.
- Text.Lower: only ASCII letters are lower-cased. Python's `str.lower` also maps other scripts.
- Text.ParseDecimal: `float()` of "inf", "nan" and of literals with underscores reads as None here, which is not Python's behaviour. Unicode digits are not digits here, and `\d` is ASCII only.
- Text.ParseIntLiteral: Python's `int()` also accepts non-ASCII decimal digits such as full-width '３'; only ASCII 0-9 are digits here.
- Currency.Search: the regex `\d` also matches non-ASCII decimal digits in Python; here it matches ASCII 0-9 only.
- Dates.ParseIsoDate: `strptime` also reads non-ASCII decimal digits; here only ASCII 0-9 are read.
- PolicyMarkers.DateMatchAt: `\d` in the date pattern is ASCII only here, as for Currency.Search.
- PolicyMarkers.DatesFrom: `findall` finds dates written in ASCII digits only, as PolicyMarkers.DateMatchAt matches them.
- Products.Qualifying: assumes every column the filter tests is present (condition_min_age, condition_first_customer, min_term, max_term). In the source, a missing column skips that condition.
- Products.TopThreeBest: pandas' sort is not stable, so the order among equal rates is not stated.
- Products.ReadCriteria: `bool(v)` is Python truthiness on a JSON scalar. A list or object value is not a value of this model.
- Dates.FormatIso: years below 1000 are padded to four digits. The platform's `strftime("%Y")` may not pad them. No listed policy date is that early.
- The dict-key equality of `1`, `1.0` and `True` is not modelled: request bodies are maps with string keys.
- Products.Group: risk levels are compared as values, so `1`, `1.0` and `True` are three levels here, where Python's dict would merge them into one. Fund records carry string risk levels such as '높은 위험', '중간 위험' and '낮은 위험' (server/api/tools/plan_agent_tools.py:475).
- The stores return records by value. The source returns the stored dict itself, so a caller could change a record after the call.
- The older `validate_input_data` reply has no `success` key and the newer one does. Both are modelled as the same `Validation`, and the difference is only in the reply envelope.

## Findings

None claimed. The two user stores are separate modules because their
records differ. The API store's records have no `email`, so the listing
resource raises KeyError on them. This is modelled, and
`ApiUserStore.CreatedUserBreaksListing` states it.
