/** Trading windows: clock values as the operator writes them, their canonical form, and whether a
    minute of the day falls into a window that may wrap around midnight. */
module TimeWindows {
  import opened Options
  import opened Text

  const MINUTES_PER_DAY := 1440
  const MAX_TIME_RANGES := 4

  datatype Clock = Clock(hour: nat, minute: nat)

  predicate ValidClock(c: Clock) { c.hour < 24 && c.minute < 60 }

  function DigitValue(c: char): (d: nat)
    requires IsDigit(c)
    ensures d < 10
  {
    c as int - '0' as int
  }

  // time.Parse with layout 15:04: one or two digits, a colon, exactly two digits.
  function ParseClock(s: string): (r: Option<Clock>)
    ensures r.Some? ==> ValidClock(r.value) && s != "" && Trimmed(s)
  {
    if s == "" || !IsDigit(s[0]) then None
    else
      var two := |s| >= 2 && IsDigit(s[1]);
      var hour := if two then 10 * DigitValue(s[0]) + DigitValue(s[1]) else DigitValue(s[0]);
      var rest := if two then s[2..] else s[1..];
      if |rest| != 3 || rest[0] != ':' || !IsDigit(rest[1]) || !IsDigit(rest[2]) then None
      else
        var minute := 10 * DigitValue(rest[1]) + DigitValue(rest[2]);
        assert s[|s| - 1] == rest[2];
        if hour < 24 && minute < 60 then Some(Clock(hour, minute)) else None
  }

  function TwoDigits(n: nat): string
    requires n < 100
  {
    [DigitChar(n / 10), DigitChar(n % 10)]
  }

  function FormatClock(c: Clock): string
    requires ValidClock(c)
  {
    TwoDigits(c.hour) + ":" + TwoDigits(c.minute)
  }

  lemma ParseOfFormat(c: Clock)
    requires ValidClock(c)
    ensures ParseClock(FormatClock(c)) == Some(c)
  {
    var s := FormatClock(c);
    assert s[0] == DigitChar(c.hour / 10) && s[1] == DigitChar(c.hour % 10);
    assert s[2..] == ":" + TwoDigits(c.minute);
  }

  function CanonicalClock(value: string): string {
    match ParseClock(value)
    case Some(c) => FormatClock(c)
    case None => value
  }

  // Rewriting keeps the time and is idempotent, also after trimming.
  lemma CanonicalKeepsTime(value: string)
    ensures ParseClock(CanonicalClock(value)) == ParseClock(value)
    ensures CanonicalClock(CanonicalClock(value)) == CanonicalClock(value)
    ensures Trimmed(value) ==> Trimmed(CanonicalClock(value)) && (CanonicalClock(value) == "" <==> value == "")
  {
    if ParseClock(value).Some? {
      ParseOfFormat(ParseClock(value).value);
    }
  }

  // Every clock value ends up with two digits for the hour and two for the minute; other text stays.
  lemma CanonicalIsTwoDigits(value: string)
    ensures ParseClock(value).Some? ==>
              var c := CanonicalClock(value);
              |c| == 5 && c[2] == ':' && forall i | 0 <= i < 5 && i != 2 :: IsDigit(c[i])
    ensures ParseClock(value) == None ==> CanonicalClock(value) == value
  {
    hide ParseClock;
  }

  datatype Minute = At(minute: nat) | BadFormat | NotHalfHour

  function ParseClockMinute(value: string): Minute {
    match ParseClock(value)
    case None => BadFormat
    case Some(c) => if c.minute == 0 || c.minute == 30 then At(c.hour * 60 + c.minute) else NotHalfHour
  }

  /* ---- Ranges ---- */

  datatype TimeRange = TimeRange(start: string, end: string)

  function CanonicalRange(r: TimeRange): TimeRange {
    TimeRange(CanonicalClock(TrimSpace(r.start)), CanonicalClock(TrimSpace(r.end)))
  }

  predicate Blank(r: TimeRange) { r.start == "" && r.end == "" }

  function Normalize(ranges: seq<TimeRange>): seq<TimeRange> {
    if ranges == [] then []
    else
      var n := |ranges| - 1;
      var c := CanonicalRange(ranges[n]);
      if Blank(c) then Normalize(ranges[..n]) else Normalize(ranges[..n]) + [c]
  }

  method NormalizeTimeRanges(ranges: seq<TimeRange>) returns (out: seq<TimeRange>)
    ensures out == Normalize(ranges)
  {
    hide TrimSpace, CanonicalClock;
    out := [];
    for i := 0 to |ranges|
      invariant out == Normalize(ranges[..i])
    {
      assert ranges[..i + 1][..i] == ranges[..i];
      var start := CanonicalClock(TrimSpace(ranges[i].start));
      var end := CanonicalClock(TrimSpace(ranges[i].end));
      if start == "" && end == "" {
        continue;
      }
      out := out + [TimeRange(start, end)];
    }
    assert ranges[..|ranges|] == ranges;
  }

  lemma {:induction false} NormalizeAppend(a: seq<TimeRange>, b: seq<TimeRange>)
    ensures Normalize(a + b) == Normalize(a) + Normalize(b)
    decreases |b|
  {
    hide CanonicalRange, Blank;
    if b == [] {
      assert a + b == a;
    } else {
      var n := |b| - 1;
      NormalizeAppend(a, b[..n]);
      assert (a + b)[..|a| + n] == a + b[..n];
    }
  }

  lemma NormalizeOne(r: TimeRange)
    ensures Normalize([r]) ==
            if TrimSpace(r.start) == "" && TrimSpace(r.end) == "" then []
            else [TimeRange(CanonicalClock(TrimSpace(r.start)), CanonicalClock(TrimSpace(r.end)))]
  {
    CanonicalKeepsTime(TrimSpace(r.start));
    CanonicalKeepsTime(TrimSpace(r.end));
    hide TrimSpace, CanonicalClock, ParseClock;
    assert [r][..0] == [] && Normalize([]) == [];
  }

  // Range by range: a blank one, up to spaces, is dropped, and any other stays in its place.
  lemma NormalizeKeeps(before: seq<TimeRange>, r: TimeRange, after: seq<TimeRange>)
    ensures Normalize(before + [r] + after) ==
            Normalize(before)
            + (if TrimSpace(r.start) == "" && TrimSpace(r.end) == "" then []
               else [TimeRange(CanonicalClock(TrimSpace(r.start)), CanonicalClock(TrimSpace(r.end)))])
            + Normalize(after)
  {
    hide TrimSpace, CanonicalClock, Normalize;
    NormalizeAppend(before + [r], after);
    NormalizeAppend(before, [r]);
    NormalizeOne(r);
  }

  // A range as normalisation leaves it.
  predicate IsNormal(r: TimeRange) { CanonicalRange(r) == r && !Blank(r) }

  lemma CanonicalRangeIsNormal(r: TimeRange)
    ensures CanonicalRange(CanonicalRange(r)) == CanonicalRange(r)
  {
    CanonicalKeepsTime(TrimSpace(r.start));
    CanonicalKeepsTime(TrimSpace(r.end));
  }

  lemma {:induction false} NormalizeIsNormal(ranges: seq<TimeRange>)
    ensures forall i | 0 <= i < |Normalize(ranges)| :: IsNormal(Normalize(ranges)[i])
  {
    hide CanonicalRange, Blank;
    if ranges != [] {
      var n := |ranges| - 1;
      NormalizeIsNormal(ranges[..n]);
      CanonicalRangeIsNormal(ranges[n]);
    }
  }

  lemma {:induction false} NormalIsFixed(ranges: seq<TimeRange>)
    requires forall i | 0 <= i < |ranges| :: IsNormal(ranges[i])
    ensures Normalize(ranges) == ranges
  {
    hide CanonicalRange, Blank;
    if ranges != [] {
      var n := |ranges| - 1;
      assert forall i | 0 <= i < n :: ranges[..n][i] == ranges[i];
      NormalIsFixed(ranges[..n]);
      assert ranges == ranges[..n] + [ranges[n]];
    }
  }

  // validateTask, for one range.
  predicate Acceptable(r: TimeRange) {
    && r.start != "" && r.end != "" && ParseClockMinute(r.start).At? && ParseClockMinute(r.end).At?
    && ParseClockMinute(r.start).minute != ParseClockMinute(r.end).minute
  }

  predicate ValidRanges(ranges: seq<TimeRange>) {
    |ranges| <= MAX_TIME_RANGES && forall i | 0 <= i < |ranges| :: Acceptable(ranges[i])
  }

  method ValidateTask(ranges: seq<TimeRange>) returns (ok: bool)
    ensures ok <==> ValidRanges(ranges)
    ensures ok <==> |ranges| <= 4 && forall i | 0 <= i < |ranges| :: Acceptable(ranges[i])
  {
    if |ranges| > MAX_TIME_RANGES {
      return false;
    }
    for i := 0 to |ranges|
      invariant forall k | 0 <= k < i :: Acceptable(ranges[k])
    {
      var tr := ranges[i];
      if tr.start == "" || tr.end == "" {
        return false;
      }
      var start := ParseClockMinute(tr.start);
      if !start.At? {
        return false;
      }
      var end := ParseClockMinute(tr.end);
      if !end.At? || start.minute == end.minute {
        return false;
      }
    }
    return true;
  }

  /* ---- Is a minute allowed ---- */

  function MinuteInRange(current: int, start: int, end: int): bool {
    if start < end then start <= current <= end else current >= start || current <= end
  }

  // On the clock face: walking from the start, the minute is reached no later than the end.
  predicate OnArc(current: int, start: int, end: int) {
    (current - start) % MINUTES_PER_DAY <= (end - start) % MINUTES_PER_DAY
  }

  lemma InRangeIsOnArc(current: int, start: int, end: int)
    requires 0 <= current < MINUTES_PER_DAY
    requires 0 <= start < MINUTES_PER_DAY && 0 <= end < MINUTES_PER_DAY && start != end
    ensures MinuteInRange(current, start, end) <==> OnArc(current, start, end)
  {
  }

  datatype Answer = AllDay | Within(range: TimeRange) | Outside | Failed

  // The first range that decides.
  function Scan(ranges: seq<TimeRange>, current: int): Answer {
    if ranges == [] then Outside
    else if !ParseClockMinute(ranges[0].start).At? || !ParseClockMinute(ranges[0].end).At? then Failed
    else
      var start, end := ParseClockMinute(ranges[0].start).minute, ParseClockMinute(ranges[0].end).minute;
      if start == end then Failed
      else if MinuteInRange(current, start, end) then Within(ranges[0])
      else Scan(ranges[1..], current)
  }

  function Decide(ranges: seq<TimeRange>, current: int): Answer {
    if Normalize(ranges) == [] then AllDay else Scan(Normalize(ranges), current)
  }

  method IsTimeAllowed(ranges: seq<TimeRange>, current: int) returns (answer: Answer)
    ensures answer == Decide(ranges, current)
  {
    var rs := NormalizeTimeRanges(ranges);
    if |rs| == 0 {
      return AllDay;
    }
    for i := 0 to |rs|
      invariant Scan(rs, current) == Scan(rs[i..], current)
    {
      assert rs[i..][1..] == rs[i + 1..];
      var start := ParseClockMinute(rs[i].start);
      if !start.At? {
        return Failed;
      }
      var end := ParseClockMinute(rs[i].end);
      if !end.At? || start.minute == end.minute {
        return Failed;
      }
      if MinuteInRange(current, start.minute, end.minute) {
        return Within(rs[i]);
      }
    }
    return Outside;
  }

  predicate Covers(r: TimeRange, current: int)
    requires Acceptable(r)
  {
    OnArc(current, ParseClockMinute(r.start).minute, ParseClockMinute(r.end).minute)
  }

  lemma UnusableFails(r: TimeRange, rest: seq<TimeRange>, current: int)
    requires 0 <= current < MINUTES_PER_DAY
    ensures Scan([r] + rest, current) ==
            if !Acceptable(r) then Failed else if Covers(r, current) then Within(r) else Scan(rest, current)
  {
    assert ([r] + rest)[1..] == rest;
    if Acceptable(r) {
      InRangeIsOnArc(current, ParseClockMinute(r.start).minute, ParseClockMinute(r.end).minute);
    }
    hide ParseClock, OnArc, MinuteInRange;
  }

  // For any ranges at all, accepted or not: the first that is unusable or covers the minute decides.
  lemma {:induction false} FirstDecides(ranges: seq<TimeRange>, current: int) returns (k: nat)
    requires 0 <= current < MINUTES_PER_DAY
    ensures k <= |ranges| && forall j | 0 <= j < k :: Acceptable(ranges[j]) && !Covers(ranges[j], current)
    ensures k < |ranges| && Acceptable(ranges[k]) ==> Covers(ranges[k], current)
    ensures Scan(ranges, current) ==
            if k == |ranges| then Outside else if Acceptable(ranges[k]) then Within(ranges[k]) else Failed
  {
    hide Acceptable, Covers;
    if ranges == [] {
      k := 0;
    } else {
      assert ranges == [ranges[0]] + ranges[1..];
      UnusableFails(ranges[0], ranges[1..], current);
      hide Scan;
      if !Acceptable(ranges[0]) || Covers(ranges[0], current) {
        k := 0;
      } else {
        k := FirstDecides(ranges[1..], current);
        k := k + 1;
      }
    }
  }

  lemma ScanMeaning(ranges: seq<TimeRange>, current: int)
    requires 0 <= current < MINUTES_PER_DAY && forall i | 0 <= i < |ranges| :: Acceptable(ranges[i])
    ensures Scan(ranges, current) != Failed && Scan(ranges, current) != AllDay
    ensures Scan(ranges, current).Within? <==> exists i :: 0 <= i < |ranges| && Covers(ranges[i], current)
  {
    hide Scan, Acceptable, Covers;
    var k := FirstDecides(ranges, current);
  }

  // For every range list that normalisation and validation accept: the check never fails, and a
  // minute is allowed iff there are no ranges or some range's arc contains it.
  lemma AcceptedRangesNeverFail(raw: seq<TimeRange>, current: int)
    requires 0 <= current < MINUTES_PER_DAY && ValidRanges(Normalize(raw))
    ensures var rs := Normalize(raw); var answer := Decide(rs, current);
            && answer != Failed
            && (answer != Outside <==> rs == [] || exists i :: 0 <= i < |rs| && Covers(rs[i], current))
  {
    NormalizeIsNormal(raw);
    NormalIsFixed(Normalize(raw));
    ScanMeaning(Normalize(raw), current);
  }

  /* ---- Windows by the clock ---- */

  lemma OneWindow(r: TimeRange, start: nat, end: nat, current: int)
    requires ParseClockMinute(r.start) == At(start) && ParseClockMinute(r.end) == At(end) && start != end
    requires start < MINUTES_PER_DAY && end < MINUTES_PER_DAY && 0 <= current < MINUTES_PER_DAY
    ensures Scan([r], current) == if OnArc(current, start, end) then Within(r) else Outside
  {
    hide ParseClockMinute, OnArc, MinuteInRange;
    InRangeIsOnArc(current, start, end);
    assert [r][1..] == [] && Scan([], current) == Outside;
  }

  lemma NormalAlone(r: TimeRange)
    requires IsNormal(r)
    ensures Normalize([r]) == [r]
  {
    hide IsNormal;
    NormalIsFixed([r]);
  }

  lemma FormatIsNormal(c: Clock)
    requires ValidClock(c)
    ensures FormatClock(c) != "" && TrimSpace(FormatClock(c)) == FormatClock(c)
  {
    ParseOfFormat(c);
  }

  // The minutes that a window end may have, by the clock.
  lemma HalfHours(c: Clock)
    requires ValidClock(c)
    ensures ParseClockMinute(FormatClock(c)) ==
            if c.minute in {0, 30} then At(60 * c.hour + c.minute) else NotHalfHour
    ensures 0 <= 60 * c.hour + c.minute < MINUTES_PER_DAY
  {
    ParseOfFormat(c);
    hide ParseClock, FormatClock;
  }

  lemma CanonicalIsFormat(c: Clock)
    requires ValidClock(c)
    ensures CanonicalClock(FormatClock(c)) == FormatClock(c)
  {
    ParseOfFormat(c);
    hide ParseClock;
  }

  lemma WindowIsNormal(a: Clock, b: Clock)
    requires ValidClock(a) && ValidClock(b)
    ensures var r := TimeRange(FormatClock(a), FormatClock(b));
            Normalize([r]) == [r] && r.start != "" && r.end != ""
  {
    FormatIsNormal(a);
    FormatIsNormal(b);
    CanonicalIsFormat(a);
    CanonicalIsFormat(b);
    hide FormatClock, TrimSpace, CanonicalClock, Normalize;
    NormalAlone(TimeRange(FormatClock(a), FormatClock(b)));
  }

  lemma WindowAccepted(a: Clock, b: Clock)
    requires ValidClock(a) && ValidClock(b)
    ensures ValidRanges([TimeRange(FormatClock(a), FormatClock(b))]) <==>
            a.minute in {0, 30} && b.minute in {0, 30} && a != b
  {
    var r := TimeRange(FormatClock(a), FormatClock(b));
    HalfHours(a);
    HalfHours(b);
    WindowIsNormal(a, b);
    hide ParseClockMinute, FormatClock, Normalize;
    assert [r][0] == r;
  }

  lemma WindowDecides(a: Clock, b: Clock, current: int)
    requires ValidClock(a) && ValidClock(b) && 0 <= current < MINUTES_PER_DAY
    requires a.minute in {0, 30} && b.minute in {0, 30} && a != b
    ensures var r := TimeRange(FormatClock(a), FormatClock(b));
            Scan([r], current) ==
            if OnArc(current, 60 * a.hour + a.minute, 60 * b.hour + b.minute) then Within(r) else Outside
  {
    hide ParseClockMinute, FormatClock, OnArc, Scan;
    HalfHours(a);
    HalfHours(b);
    OneWindow(TimeRange(FormatClock(a), FormatClock(b)), 60 * a.hour + a.minute, 60 * b.hour + b.minute, current);
  }

  // Written from clock values, a window is accepted exactly for two different half hours, and then
  // allows exactly the minutes on its arc.
  lemma WindowOfClocks(a: Clock, b: Clock, current: int)
    requires ValidClock(a) && ValidClock(b) && 0 <= current < MINUTES_PER_DAY
    ensures var r := TimeRange(FormatClock(a), FormatClock(b));
            && (ValidRanges(Normalize([r])) <==> a.minute in {0, 30} && b.minute in {0, 30} && a != b)
            && (ValidRanges(Normalize([r])) ==>
                  Decide([r], current) ==
                  if OnArc(current, 60 * a.hour + a.minute, 60 * b.hour + b.minute) then Within(r) else Outside)
  {
    var r := TimeRange(FormatClock(a), FormatClock(b));
    hide ParseClockMinute, FormatClock, Normalize, OnArc, Scan, ValidRanges;
    WindowIsNormal(a, b);
    WindowAccepted(a, b);
    if a.minute in {0, 30} && b.minute in {0, 30} && a != b {
      WindowDecides(a, b, current);
    }
  }

  // Text to clock and back: one or two digits of hours, a colon and two digits of minutes.
  lemma ClockOfText(h: char, g: char, m: char, n: char)
    requires IsDigit(h) && IsDigit(g) && IsDigit(m) && IsDigit(n)
    ensures var hour := 10 * (h as int - '0' as int) + (g as int - '0' as int);
            var minute := 10 * (m as int - '0' as int) + (n as int - '0' as int);
            && ParseClock([h, g, ':', m, n]) == (if hour <= 23 && minute <= 59 then Some(Clock(hour, minute)) else None)
            && (hour <= 23 && minute <= 59 ==> FormatClock(Clock(hour, minute)) == [h, g, ':', m, n])
    ensures var minute := 10 * (m as int - '0' as int) + (n as int - '0' as int);
            ParseClock([g, ':', m, n]) ==
            if minute <= 59 then Some(Clock(g as int - '0' as int, minute)) else None
  {
    assert [h, g, ':', m, n][2..] == [':', m, n];
    assert [g, ':', m, n][1..] == [':', m, n];
  }

  // For instance office hours, as an operator would write them.
  lemma OfficeHours(current: int)
    requires 0 <= current < MINUTES_PER_DAY
    ensures Decide([TimeRange("09:30", "16:00")], current) ==
            if 570 <= current <= 960 then Within(TimeRange("09:30", "16:00")) else Outside
  {
    ClockOfText('0', '9', '3', '0');
    ClockOfText('1', '6', '0', '0');
    assert "09:30" == ['0', '9', ':', '3', '0'] && "16:00" == ['1', '6', ':', '0', '0'];
    WindowOfClocks(Clock(9, 30), Clock(16, 0), current);
  }
}
