/** `get_total_experience_from_text`: date ranges found in the raw text, summed in months. */
module Dates {
  import opened Wrappers
  import opened Text

  // ---------------------------------------------------------------------------
  // The range regex, read with IGNORECASE and scanned by `re.findall`:
  //   ((?:Jan|...|Dec)\.?\s?\d{4})\s*[-–]\s*((?:Present|Now|\d{4}))
  // ---------------------------------------------------------------------------

  /** The month alternatives, lower-cased, in calendar order. */
  const MonthNames: seq<string> := ["jan", "feb", "mar", "apr", "may", "jun", "jul", "aug", "sep", "oct", "nov", "dec"]

  /** The dash class `[-–]`. */
  const Dashes: set<char> := {'-', '–'}

  /**
    Which end side a range accepts. `AsWritten` is the end group of the
    source: `Present`, `Now` or a bare four-digit year. `MonthYearEnd` also
    accepts a month name before the year, `(?:Mon\.?\s?)?\d{4}`.
   */
  datatype EndRule = AsWritten | MonthYearEnd

  /** The two groups of one match: the start date and the end date as written. */
  datatype RangeMatch = RangeMatch(start: string, end: string)

  /** `w` (lower-case) occurs at `i`, compared case-insensitively. */
  predicate WordAt(text: string, i: nat, w: string)
    decreases |w|
  {
    i <= |text| && (w == [] || (i < |text| && LowerChar(text[i]) == w[0] && WordAt(text, i + 1, w[1..])))
  }

  /** The number (1 to 12) of the month whose lower-case name is `a`, `b`, `c`, or 0 for none. */
  function MonthOf(a: char, b: char, c: char): (m: nat)
    ensures m <= 12
    ensures m != 0 ==> MonthNames[m - 1] == [a, b, c]
    ensures m == 0 <==> [a, b, c] !in MonthNames
  {
    if a == 'j' && b == 'a' && c == 'n' then 1
    else if a == 'f' && b == 'e' && c == 'b' then 2
    else if a == 'm' && b == 'a' && c == 'r' then 3
    else if a == 'a' && b == 'p' && c == 'r' then 4
    else if a == 'm' && b == 'a' && c == 'y' then 5
    else if a == 'j' && b == 'u' && c == 'n' then 6
    else if a == 'j' && b == 'u' && c == 'l' then 7
    else if a == 'a' && b == 'u' && c == 'g' then 8
    else if a == 's' && b == 'e' && c == 'p' then 9
    else if a == 'o' && b == 'c' && c == 't' then 10
    else if a == 'n' && b == 'o' && c == 'v' then 11
    else if a == 'd' && b == 'e' && c == 'c' then 12
    else 0
  }

  /** The month named, case-insensitively, by the three characters at `i`, or 0. */
  function MonthAtIndex(text: string, i: nat): (m: nat)
    requires i + 3 <= |text|
    ensures m <= 12
  {
    MonthOf(LowerChar(text[i]), LowerChar(text[i + 1]), LowerChar(text[i + 2]))
  }

  /** A month name starts at `i`. */
  predicate MonthAt(text: string, i: nat) {
    i + 3 <= |text| && MonthAtIndex(text, i) != 0
  }

  /** Four decimal digits start at `i`. */
  predicate YearAt(text: string, i: nat) {
    i + 4 <= |text| && IsDigit(text[i]) && IsDigit(text[i + 1]) && IsDigit(text[i + 2]) && IsDigit(text[i + 3])
  }

  /** `Mon\.?\s?\d{4}` at `i`: where it ends, if it matches. */
  function MonthYearFrom(text: string, i: nat): (r: Option<nat>)
    ensures r.Some? ==> i + 7 <= r.value <= |text| && r.value <= i + 9
    ensures r.Some? ==> MonthAt(text, i) && YearAt(text, r.value - 4)
  {
    if !MonthAt(text, i) then None
    else
      var j := if i + 3 < |text| && text[i + 3] == '.' then i + 4 else i + 3;
      var k := if j < |text| && IsSpace(text[j]) then j + 1 else j;
      if YearAt(text, k) then Some(k + 4) else None
  }

  /** The end group at `i` under `rule`, alternatives tried in order: where it ends, if it matches. */
  function EndFrom(rule: EndRule, text: string, i: nat): (r: Option<nat>)
    ensures r.Some? ==> i < r.value <= |text|
  {
    if WordAt(text, i, "present") then Some(i + 7)
    else if WordAt(text, i, "now") then Some(i + 3)
    else if rule == MonthYearEnd && MonthYearFrom(text, i).Some? then MonthYearFrom(text, i)
    else if YearAt(text, i) then Some(i + 4)
    else None
  }

  /**
    The range regex tried at `i`: the two groups and where the match ends.
    Neither `\.?`, `\s?` nor the `\s*` around the dash can usefully give
    characters back, so the first way that matches is the only one.
   */
  function RangeAt(rule: EndRule, text: string, i: nat): (r: Option<(RangeMatch, nat)>)
    ensures r.Some? ==> i < r.value.1 <= |text|
  {
    match MonthYearFrom(text, i)
    case None => None
    case Some(a) =>
      match DashFrom(text, a)
      case None => None
      case Some(c) =>
        match EndFrom(rule, text, c)
        case None => None
        case Some(d) => Some((RangeMatch(text[i..a], text[c..d]), d))
  }

  /** `\s*[-–]\s*` at `a`: where it ends, if it matches. */
  function DashFrom(text: string, a: nat): (c: Option<nat>)
    requires a <= |text|
    ensures c.Some? ==> a < c.value <= |text|
  {
    var b := a + Span(text[a..], IsSpace);
    if b < |text| && text[b] in Dashes then Some(b + 1 + Span(text[b + 1..], IsSpace)) else None
  }

  /** `re.findall` of the range regex from `pos`: the group pairs, left to right, resuming after each match. */
  function DateRanges(rule: EndRule, text: string, pos: nat): seq<RangeMatch>
    requires pos <= |text|
    decreases |text| - pos
  {
    if pos == |text| then []
    else
      match RangeAt(rule, text, pos)
      case None => DateRanges(rule, text, pos + 1)
      case Some((r, next)) => [r] + DateRanges(rule, text, next)
  }

  // ---------------------------------------------------------------------------
  // Reading the dates
  // ---------------------------------------------------------------------------

  /** A calendar month. */
  datatype YearMonth = YearMonth(year: int, month: int)

  /** The month number (1 to 12) of a group starting with a month name. */
  function MonthNumber(s: string): (r: Option<nat>)
    ensures r.Some? ==> 1 <= r.value <= 12 && MonthAt(s, 0) && r.value == MonthAtIndex(s, 0)
    ensures r.None? ==> !MonthAt(s, 0)
  {
    if |s| < 3 || MonthAtIndex(s, 0) == 0 then None else Some(MonthAtIndex(s, 0))
  }

  function DigitValue(c: char): int { c as int - '0' as int }

  /** The value of the four-digit year at the end of a group. */
  function YearValue(s: string): (y: int)
    requires |s| >= 4
  {
    var k := |s| - 4;
    1000 * DigitValue(s[k]) + 100 * DigitValue(s[k + 1]) + 10 * DigitValue(s[k + 2]) + DigitValue(s[k + 3])
  }

  /**
    The start group read with the default date 2000-01-01: its month and
    its four digits as the year. The digits `0000` fail to parse.
   */
  function ParseStart(s: string): Option<YearMonth> {
    match MonthNumber(s)
    case None => None
    case Some(m) =>
      if |s| < 4 || !YearAt(s, |s| - 4) || YearValue(s) == 0 then None
      else Some(YearMonth(YearValue(s), m))
  }

  /**
    The end group: the clock for `present`/`now`; otherwise its year, with the
    month of a month name in front of it or else the clock's month (a bare year
    takes the rest of the date from today). The digits `0000` fail.
   */
  function ParseEnd(s: string, now: YearMonth): Option<YearMonth> {
    if Contains(Lower(s), "present") || Contains(Lower(s), "now") then Some(now)
    else if |s| < 4 || !YearAt(s, |s| - 4) || YearValue(s) == 0 then None
    else
      match MonthNumber(s)
      case Some(m) => Some(YearMonth(YearValue(s), m))
      case None => Some(YearMonth(YearValue(s), now.month))
  }

  /** The months one range adds: `max(0, 12 * Δyear + Δmonth)`, or nothing when either date fails to parse. */
  function Contribution(r: RangeMatch, now: YearMonth): nat {
    match (ParseStart(r.start), ParseEnd(r.end, now))
    case (Some(s), Some(e)) =>
      var d := 12 * (e.year - s.year) + (e.month - s.month);
      if d > 0 then d else 0
    case _ => 0
  }

  /** The months of all ranges. */
  function SumMonths(ranges: seq<RangeMatch>, now: YearMonth): nat {
    if ranges == [] then 0
    else SumMonths(ranges[..|ranges| - 1], now) + Contribution(ranges[|ranges| - 1], now)
  }

  /** The loop of `get_total_experience_from_text` adding the months of each range. */
  method TotalMonths(ranges: seq<RangeMatch>, now: YearMonth) returns (total: nat)
    ensures total == SumMonths(ranges, now)
  {
    total := 0;
    for i := 0 to |ranges|
      invariant total == SumMonths(ranges[..i], now)
    {
      assert ranges[..i + 1][..i] == ranges[..i];
      var months := Contribution(ranges[i], now);
      total := total + months;
    }
    assert ranges[..|ranges|] == ranges;
  }

  /** `round(total_months / 12, 2)` in hundredths of a year. */
  function Hundredths(months: nat): nat {
    (25 * months + 1) / 3
  }

  /**
    `get_total_experience_from_text()` in hundredths of a year, for the raw
    text and today's month; `AsWritten` is the source's regex.
   */
  method TotalExperience(rule: EndRule, text: string, now: YearMonth) returns (hundredths: nat)
    ensures hundredths == Hundredths(SumMonths(DateRanges(rule, text, 0), now))
  {
    var ranges := DateRanges(rule, text, 0);
    var total := TotalMonths(ranges, now);
    hundredths := Hundredths(total);
  }

  // ---------------------------------------------------------------------------
  // Properties
  // ---------------------------------------------------------------------------

  /** The hundredths are the nearest whole number to `100 * months / 12` (no tie is possible). */
  lemma HundredthsNearest(months: nat)
    ensures var h := Hundredths(months);
      -1 <= 3 * h - 25 * months <= 1 && 12 * h - 100 * months < 6 && 100 * months - 12 * h < 6
  {
  }

  /** Without ranges the total is zero years. */
  lemma NoRangesNoYears(text: string, now: YearMonth)
    requires DateRanges(AsWritten, text, 0) == []
    ensures Hundredths(SumMonths(DateRanges(AsWritten, text, 0), now)) == 0
  {
  }

  /** Months add up over a split list of ranges. */
  lemma {:induction false} SumMonthsAppend(a: seq<RangeMatch>, b: seq<RangeMatch>, now: YearMonth)
    ensures SumMonths(a + b, now) == SumMonths(a, now) + SumMonths(b, now)
    decreases |b|
  {
    if b == [] {
      assert a + b == a;
    } else {
      var front := b[..|b| - 1];
      assert (a + b)[..|a + b| - 1] == a + front;
      SumMonthsAppend(a, front, now);
    }
  }

  /**
    A range whose dates fail to parse adds nothing, and the ranges around it
    still count: skipping it does not stop the sum.
   */
  lemma SkippedRange(before: seq<RangeMatch>, r: RangeMatch, after: seq<RangeMatch>, now: YearMonth)
    requires ParseStart(r.start).None? || ParseEnd(r.end, now).None?
    ensures SumMonths(before + [r] + after, now) == SumMonths(before, now) + SumMonths(after, now)
  {
    SumMonthsAppend(before + [r], after, now);
    SumMonthsAppend(before, [r], now);
    assert [r][..0] == [];
  }

  /** A range that parses adds `12 * Δyear + Δmonth` months when that is positive and nothing otherwise. */
  lemma ParsedRange(before: seq<RangeMatch>, r: RangeMatch, now: YearMonth, s: YearMonth, e: YearMonth)
    requires ParseStart(r.start) == Some(s) && ParseEnd(r.end, now) == Some(e)
    ensures var d := 12 * (e.year - s.year) + (e.month - s.month);
      SumMonths(before + [r], now) == SumMonths(before, now) + (if d > 0 then d else 0)
  {
    assert (before + [r])[..|before|] == before;
  }

  /** The shape of a start group: a month name, an optional dot, an optional space and four digits. */
  predicate StartShape(s: string) {
    7 <= |s| <= 9 && MonthAt(s, 0) && YearAt(s, |s| - 4)
  }

  /** The shape of an end group as written: `present`, `now` or four digits. */
  predicate AsWrittenEndShape(s: string) {
    (|s| == 7 && WordAt(s, 0, "present")) || (|s| == 3 && WordAt(s, 0, "now")) || (|s| == 4 && YearAt(s, 0))
  }

  lemma YearAtSlice(text: string, a: nat, b: nat, k: nat)
    requires a <= b <= |text| && a <= k && k + 4 <= b && YearAt(text, k)
    ensures YearAt(text[a..b], k - a)
  {
  }

  lemma {:induction false} WordAtSlice(text: string, a: nat, b: nat, i: nat, w: string)
    requires a <= i && i + |w| <= b <= |text| && WordAt(text, i, w)
    ensures WordAt(text[a..b], i - a, w)
    decreases |w|
  {
    if w != [] {
      WordAtSlice(text, a, b, i + 1, w[1..]);
    }
  }

  lemma {:induction false} WordAtLength(text: string, i: nat, w: string)
    requires WordAt(text, i, w)
    ensures i + |w| <= |text|
    decreases |w|
  {
    if w != [] {
      WordAtLength(text, i + 1, w[1..]);
    }
  }

  /** The end group of one match under the source's rule has the as-written shape. */
  lemma EndGroupShape(text: string, c: nat, d: nat)
    requires EndFrom(AsWritten, text, c) == Some(d)
    ensures AsWrittenEndShape(text[c..d])
  {
    if WordAt(text, c, "present") {
      WordAtLength(text, c, "present");
      WordAtSlice(text, c, d, c, "present");
    } else if WordAt(text, c, "now") {
      WordAtLength(text, c, "now");
      WordAtSlice(text, c, d, c, "now");
    } else {
      YearAtSlice(text, c, d, c);
    }
  }

  /** The start group of one match has the start shape. */
  lemma StartGroupShape(text: string, i: nat, a: nat)
    requires MonthYearFrom(text, i) == Some(a)
    ensures StartShape(text[i..a])
  {
    YearAtSlice(text, i, a, a - 4);
    assert MonthAtIndex(text[i..a], 0) == MonthAtIndex(text, i);
  }

  /** A range of the shape the source's regex produces. */
  predicate Shaped(r: RangeMatch) {
    StartShape(r.start) && AsWrittenEndShape(r.end)
  }

  /** What one match of the source's regex looks like. */
  lemma MatchShape(text: string, i: nat, r: RangeMatch, next: nat)
    requires RangeAt(AsWritten, text, i) == Some((r, next))
    ensures Shaped(r)
  {
    var a := MonthYearFrom(text, i).value;
    var c := DashFrom(text, a).value;
    var d := EndFrom(AsWritten, text, c).value;
    assert r == RangeMatch(text[i..a], text[c..d]);
    StartGroupShape(text, i, a);
    EndGroupShape(text, c, d);
  }

  /** Every match of the source's regex has a start group of the start shape and an end group of the end shape. */
  lemma {:induction false} DateRangesShape(text: string, pos: nat)
    requires pos <= |text|
    ensures forall r :: r in DateRanges(AsWritten, text, pos) ==> Shaped(r)
    decreases |text| - pos
  {
    if pos < |text| {
      var m := RangeAt(AsWritten, text, pos);
      if m.None? {
        Skip(AsWritten, text, pos);
        DateRangesShape(text, pos + 1);
      } else {
        ShapeCons(text, pos, m.value.0, m.value.1);
      }
    }
  }

  lemma {:induction false} ShapeCons(text: string, pos: nat, r: RangeMatch, next: nat)
    requires pos < |text| && RangeAt(AsWritten, text, pos) == Some((r, next))
    ensures forall x :: x in DateRanges(AsWritten, text, pos) ==> Shaped(x)
    decreases |text| - pos, 0
  {
    MatchShape(text, pos, r, next);
    ScanMatchAt(AsWritten, text, pos, r, next);
    DateRangesShape(text, next);
  }

  /** A matched start group fails to parse only when its year is 0000. */
  lemma StartParsesUnlessYearZero(s: string)
    requires StartShape(s)
    ensures ParseStart(s).None? <==> YearValue(s) == 0
  {
  }

  /** `w` occurring at the front means the lower-cased string contains it. */
  lemma {:induction false} WordAtContains(s: string, w: string)
    requires WordAt(s, 0, w) && |s| == |w|
    ensures Contains(Lower(s), w)
  {
    WordAtLower(s, 0, w);
    assert Lower(s)[0..|w|] == w;
    OccursContains(Lower(s), w, 0);
  }

  lemma {:induction false} WordAtLower(s: string, i: nat, w: string)
    requires WordAt(s, i, w)
    ensures i + |w| <= |s| && forall k :: 0 <= k < |w| ==> Lower(s)[i + k] == w[k]
    decreases |w|
  {
    if w != [] {
      WordAtLower(s, i + 1, w[1..]);
      assert forall k :: 1 <= k < |w| ==> w[k] == w[1..][k - 1];
    }
  }

  /** Four digits contain neither `present` nor `now`. */
  lemma DigitsContainNoWord(s: string, w: string)
    requires |s| == 4 && YearAt(s, 0) && w != [] && !IsDigit(w[0])
    ensures !Contains(Lower(s), w)
  {
    if Contains(Lower(s), w) {
      var j := ContainsWitness(Lower(s), w);
    }
  }

  /** A matched end group fails to parse only when it is the year 0000. */
  lemma EndParsesUnlessYearZero(s: string, now: YearMonth)
    requires AsWrittenEndShape(s)
    ensures ParseEnd(s, now).None? <==> |s| == 4 && YearValue(s) == 0
  {
    if |s| == 7 && WordAt(s, 0, "present") {
      WordAtContains(s, "present");
    } else if |s| == 3 && WordAt(s, 0, "now") {
      WordAtContains(s, "now");
    } else {
      DigitsContainNoWord(s, "present");
      DigitsContainNoWord(s, "now");
    }
  }

  /** Only a month name can start a range. */
  lemma NoMonthNoRange(rule: EndRule, text: string, i: nat)
    requires !MonthAt(text, i)
    ensures RangeAt(rule, text, i).None?
  {
  }

  /** A scan over positions where nothing matches finds nothing. */
  lemma {:induction false} NoRangeScan(rule: EndRule, text: string, i: nat)
    requires i <= |text|
    requires forall k :: i <= k < |text| ==> RangeAt(rule, text, k).None?
    ensures DateRanges(rule, text, i) == []
    decreases |text| - i
  {
    if i < |text| {
      NoRangeScan(rule, text, i + 1);
    }
  }

  lemma WordAtChars(text: string, i: nat, w: string)
    requires |w| >= 3 && WordAt(text, i, w)
    ensures i + 3 <= |text| && MonthAtIndex(text, i) == MonthOf(w[0], w[1], w[2])
  {
    assert WordAt(text, i + 1, w[1..]);
    assert WordAt(text, i + 2, w[1..][1..]);
  }

  /** Neither `present` nor `now` nor a digit can begin a month name. */
  lemma MonthIsNoAsWrittenEnd(text: string, c: nat)
    requires MonthAt(text, c)
    ensures EndFrom(AsWritten, text, c).None?
  {
    if WordAt(text, c, "present") {
      WordAtChars(text, c, "present");
    }
    if WordAt(text, c, "now") {
      WordAtChars(text, c, "now");
    }
  }

  /** The source's regex refuses a range whose end side is a month and a year. */
  lemma MonthEndRefused(text: string, i: nat, a: nat, c: nat)
    requires MonthYearFrom(text, i) == Some(a) && DashFrom(text, a) == Some(c) && MonthAt(text, c)
    ensures RangeAt(AsWritten, text, i).None?
  {
    MonthIsNoAsWrittenEnd(text, c);
  }

  /** The month-year end rule accepts such a range, with the two dates as its groups. */
  lemma MonthEndAccepted(text: string, i: nat, a: nat, c: nat, e: nat)
    requires MonthYearFrom(text, i) == Some(a) && DashFrom(text, a) == Some(c) && MonthYearFrom(text, c) == Some(e)
    ensures RangeAt(MonthYearEnd, text, i) == Some((RangeMatch(text[i..a], text[c..e]), e))
  {
    MonthYearEnds(text, c, e);
  }

  /** Under the month-year end rule a month and a year end the range. */
  lemma MonthYearEnds(text: string, c: nat, e: nat)
    requires MonthYearFrom(text, c) == Some(e)
    ensures EndFrom(MonthYearEnd, text, c) == Some(e)
  {
    if WordAt(text, c, "present") {
      WordAtChars(text, c, "present");
    }
    if WordAt(text, c, "now") {
      WordAtChars(text, c, "now");
    }
  }

  /** `w` cannot occur where its first letter never stands. */
  lemma NotContained(s: string, w: string)
    requires w != [] && forall j :: 0 <= j && j + |w| <= |s| ==> s[j] != w[0]
    ensures !Contains(s, w)
  {
    if Contains(s, w) {
      var j := ContainsWitness(s, w);
    }
  }

  // ---------------------------------------------------------------------------
  // The test fixture's experience line
  // ---------------------------------------------------------------------------

  /** The date line of the résumé used by the source's tests. */
  const FixtureLine: string := "Jan 2020 - Dec 2022"

  /** `Mon yyyy` at `i`, with a single space and no dot. */
  lemma MonthYearPlain(text: string, i: nat)
    requires i + 8 <= |text| && MonthAt(text, i) && text[i + 3] == ' ' && YearAt(text, i + 4)
    ensures MonthYearFrom(text, i) == Some(i + 8)
  {
  }

  /** ` - ` at `a`, followed by something other than a space. */
  lemma DashPlain(text: string, a: nat)
    requires a + 3 < |text| && text[a] == ' ' && text[a + 1] == '-' && text[a + 2] == ' ' && !IsSpace(text[a + 3])
    ensures DashFrom(text, a) == Some(a + 3)
  {
    assert text[a..][0] == ' ' && text[a..][1] == '-';
    assert text[a + 2..][0] == ' ' && text[a + 2..][1] == text[a + 3];
  }

  /**
    The layout of the fixture line: `Mon yyyy - Mon yyyy`, the second month
    `dec`, and no other position naming a month.
   */
  predicate RangeLine(s: string) {
    && |s| == 19 && MonthAt(s, 0) && s[3] == ' ' && YearAt(s, 4)
    && s[8] == ' ' && s[9] == '-' && s[10] == ' '
    && MonthAt(s, 11) && MonthAtIndex(s, 11) == 12 && s[14] == ' ' && YearAt(s, 15)
    && forall k :: 0 < k < 19 && k != 11 ==> !MonthAt(s, k)
  }

  /** A position where the regex does not match adds nothing to the scan. */
  lemma Skip(rule: EndRule, text: string, i: nat)
    requires i < |text| && RangeAt(rule, text, i).None?
    ensures DateRanges(rule, text, i) == DateRanges(rule, text, i + 1)
  {
  }

  /** A match at `i` is the first range the scan from `i` reports. */
  lemma ScanMatchAt(rule: EndRule, text: string, i: nat, r: RangeMatch, next: nat)
    requires i < |text| && RangeAt(rule, text, i) == Some((r, next))
    ensures DateRanges(rule, text, i) == [r] + DateRanges(rule, text, next)
  {
  }

  /** On such a line no position but 0 and 11 can start a range, and 11 cannot either. */
  lemma RangeLineTail(rule: EndRule, s: string)
    requires RangeLine(s)
    ensures DateRanges(rule, s, 1) == []
  {
    MonthYearPlain(s, 11);
    assert DashFrom(s, 19).None?;
    forall k | 1 <= k < |s| ensures RangeAt(rule, s, k).None? {
      if k != 11 {
        NoMonthNoRange(rule, s, k);
      }
    }
    NoRangeScan(rule, s, 1);
  }

  /** On such a line the source's regex finds nothing. */
  lemma RangeLineAsWritten(s: string)
    requires RangeLine(s)
    ensures DateRanges(AsWritten, s, 0) == []
  {
    MonthYearPlain(s, 0);
    DashPlain(s, 8);
    MonthEndRefused(s, 0, 8, 11);
    RangeLineTail(AsWritten, s);
  }

  /** On such a line the month-year end rule finds the whole line as one range. */
  lemma RangeLineMonthYear(s: string)
    requires RangeLine(s)
    ensures DateRanges(MonthYearEnd, s, 0) == [RangeMatch(s[0..8], s[11..19])]
  {
    MonthYearPlain(s, 0);
    DashPlain(s, 8);
    MonthYearPlain(s, 11);
    MonthEndAccepted(s, 0, 8, 11, 19);
    ScanMatchAt(MonthYearEnd, s, 0, RangeMatch(s[0..8], s[11..19]), 19);
    NoRangeScan(MonthYearEnd, s, 19);
  }

  /** The second group `Dec yyyy` reads as December of its year. */
  lemma DecemberEnd(t: string, now: YearMonth)
    requires |t| == 8 && MonthAt(t, 0) && MonthAtIndex(t, 0) == 12 && t[3] == ' ' && YearAt(t, 4) && YearValue(t) != 0
    ensures ParseEnd(t, now) == Some(YearMonth(YearValue(t), 12))
  {
    var low := Lower(t);
    assert low[0] == 'd' && low[1] == 'e' && low[2] == 'c' && low[3] == ' ';
    assert IsDigit(low[4]) && IsDigit(low[5]);
    NotContained(low, "present");
    NotContained(low, "now");
  }

  lemma FixtureLineLayout()
    ensures RangeLine(FixtureLine)
  {
    FixtureLineChars();
    forall k | 0 < k < 19 && k != 11 ensures !MonthAt(FixtureLine, k) {
      FixtureMonths(k);
    }
  }

  lemma FixtureLineChars()
    ensures |FixtureLine| == 19 && MonthAt(FixtureLine, 0) && FixtureLine[3] == ' ' && YearAt(FixtureLine, 4)
    ensures FixtureLine[8] == ' ' && FixtureLine[9] == '-' && FixtureLine[10] == ' '
    ensures MonthAt(FixtureLine, 11) && MonthAtIndex(FixtureLine, 11) == 12 && FixtureLine[14] == ' ' && YearAt(FixtureLine, 15)
  {
  }

  /** Months are named on the fixture line only at 0 (`Jan`) and 11 (`Dec`). */
  lemma FixtureMonths(k: nat)
    requires k < |FixtureLine| && k != 0 && k != 11
    ensures !MonthAt(FixtureLine, k)
  {
    if k == 1 {
    } else if k == 2 {
    } else if k == 3 {
    } else if k == 4 {
    } else if k == 5 {
    } else if k == 6 {
    } else if k == 7 {
    } else if k == 8 {
    } else if k == 9 {
    } else if k == 10 {
    } else if k == 12 {
    } else if k == 13 {
    } else if k == 14 {
    } else if k == 15 {
    } else if k == 16 {
    } else if k == 17 {
    }
  }

  /** The source's regex finds no range on the fixture line: its end group cannot start with `Dec`. */
  lemma FixtureAsWritten(now: YearMonth)
    ensures DateRanges(AsWritten, FixtureLine, 0) == []
    ensures Hundredths(SumMonths(DateRanges(AsWritten, FixtureLine, 0), now)) == 0
  {
    FixtureLineLayout();
    RangeLineAsWritten(FixtureLine);
  }

  /**
    With the month-year end rule the fixture line is one range, January 2020
    to December 2022: 35 months, 2.92 years.
   */
  lemma FixtureMonthYearEnd(now: YearMonth)
    ensures DateRanges(MonthYearEnd, FixtureLine, 0) == [RangeMatch("Jan 2020", "Dec 2022")]
    ensures SumMonths(DateRanges(MonthYearEnd, FixtureLine, 0), now) == 35
    ensures Hundredths(35) == 292
  {
    FixtureLineLayout();
    RangeLineMonthYear(FixtureLine);
    FixtureGroups();
    var r := RangeMatch("Jan 2020", "Dec 2022");
    FixtureStart();
    FixtureEnd(now);
    ParsedRange([], r, now, YearMonth(2020, 1), YearMonth(2022, 12));
    assert [] + [r] == [r];
  }

  lemma FixtureGroups()
    ensures FixtureLine[0..8] == "Jan 2020" && FixtureLine[11..19] == "Dec 2022"
  {
  }

  lemma FixtureStart()
    ensures ParseStart("Jan 2020") == Some(YearMonth(2020, 1))
  {
  }

  lemma FixtureEnd(now: YearMonth)
    ensures ParseEnd("Dec 2022", now) == Some(YearMonth(2022, 12))
  {
    DecemberEnd("Dec 2022", now);
  }
}
