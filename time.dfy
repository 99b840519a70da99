/** Turning the time phrase of a reminder into an instant (`parseTimeToISO`): the
    clock pattern, the 12-hour conversion, the "tomorrow" and "already passed" rules,
    and the `toISOString` rendering of the result.

    Instants are integers of milliseconds since 1970-01-01T00:00:00Z. The local
    timeline is the UTC timeline shifted by a fixed `offset` in milliseconds
    (local = UTC + offset); the two `new Date()` readings are one instant `now`. */
module TimeResolver {
  import opened Text

  const MinuteMs: int := 60000
  const HourMs: int := 3600000
  const DayMs: int := 86400000

  // ------------------------------------------------------------ the clock pattern

  datatype Meridiem = NoMeridiem | Am | Pm

  /** The three groups of `/(\d{1,2})(?::(\d{2}))?\s*(am|pm)?/i`, as numbers. */
  datatype Clock = Clock(hour: nat, minute: nat, meridiem: Meridiem)

  /** The first index at or after `i` holding a digit. */
  function FirstDigit(s: string, i: nat): (r: Option<nat>)
    ensures r.Some? ==> i <= r.value < |s| && IsDigit(s[r.value])
    ensures r.Some? ==> forall k :: i <= k < r.value ==> !IsDigit(s[k])
    ensures r.None? ==> forall k :: i <= k < |s| ==> !IsDigit(s[k])
    decreases |s| - i
  {
    if i >= |s| then None
    else if IsDigit(s[i]) then Some(i)
    else FirstDigit(s, i + 1)
  }

  /** One or two digits read in base ten. */
  lemma SmallDigitsValue(s: string)
    requires 1 <= |s| <= 2 && forall k :: 0 <= k < |s| ==> IsDigit(s[k])
    ensures DigitsValue(s) == if |s| == 2 then 10 * DigitValue(s[0]) + DigitValue(s[1]) else DigitValue(s[0])
  {
    if |s| == 2 {
      assert s[..1][..0] == [];
    } else {
      assert s[..0] == [];
    }
  }

  lemma {:induction false} SmallDigits(s: string)
    requires 1 <= |s| <= 2 && forall k :: 0 <= k < |s| ==> IsDigit(s[k])
    ensures DigitsValue(s) < 100
  {
    if |s| == 2 {
      assert DigitsValue(s[..1]) == DigitValue(s[0]) by {
        assert s[..1][..0] == [];
      }
    } else {
      assert s[..0] == [];
    }
  }

  lemma {:induction false} DigitSlice(s: string, i: nat, n: nat, t: string)
    requires i + n <= |s| && t == s[i..i + n]
    requires forall k :: i <= k < i + n ==> IsDigit(s[k])
    ensures forall k :: 0 <= k < |t| ==> IsDigit(t[k])
  {
    forall k | 0 <= k < |t| ensures IsDigit(t[k]) {
      assert t[k] == s[i + k];
    }
  }

  /** A match of the clock pattern: the three groups and the index just after the match. */
  datatype ClockMatch = ClockMatch(clock: Clock, end: nat)

  /** The clock pattern matched at index `i`, where a digit stands. Every part after the
      first digit is optional, so the greedy choice at each step is the match: two digits
      when there are two, the minutes when a colon and two digits follow, all the
      whitespace, then `am` or `pm` when present. */
  function ClockAt(s: string, i: nat): (m: ClockMatch)
    requires i < |s| && IsDigit(s[i])
    ensures m.clock.hour < 100 && m.clock.minute < 100
    ensures i < m.end <= |s|
  {
    var r := SpacesEnd(s, i);
    var meridiem := MeridiemAt(s, r);
    ClockMatch(Clock(HourValue(s, i), MinuteValue(s, i), meridiem),
      if meridiem == NoMeridiem then r else r + 2)
  }

  /** `parseInt` of the hour group. */
  function HourValue(s: string, i: nat): (h: nat)
    requires i < |s| && IsDigit(s[i])
    ensures h < 100
  {
    var hourText := s[i..i + HourLen(s, i)];
    DigitSlice(s, i, HourLen(s, i), hourText);
    SmallDigits(hourText);
    DigitsValue(hourText)
  }

  /** `parseInt(timeMatch[2] || '0')`: the minute group, or "0" without one. */
  function MinuteValue(s: string, i: nat): (m: nat)
    requires i < |s| && IsDigit(s[i])
    ensures m < 100
  {
    var p := i + HourLen(s, i);
    var minuteText := if MinuteAt(s, p) then s[p + 1..p + 3] else "0";
    SmallDigits(minuteText);
    DigitsValue(minuteText)
  }

  /** The index after the whitespace that follows the hour and minutes. */
  function SpacesEnd(s: string, i: nat): (r: nat)
    requires i < |s| && IsDigit(s[i])
    ensures MinutesEnd(s, i) <= r <= |s|
  {
    MinutesEnd(s, i) + SpaceRun(s, MinutesEnd(s, i))
  }

  /** `\d{1,2}` at a digit: two digits when there are two. */
  function HourLen(s: string, i: nat): (n: nat)
    requires i < |s| && IsDigit(s[i])
    ensures i + n <= |s| && (n == 1 || n == 2)
    ensures forall k :: i <= k < i + n ==> IsDigit(s[k])
  {
    if i + 1 < |s| && IsDigit(s[i + 1]) then 2 else 1
  }

  /** `:\d{2}` at `p`. */
  predicate MinuteAt(s: string, p: nat) {
    p + 3 <= |s| && s[p] == ':' && IsDigit(s[p + 1]) && IsDigit(s[p + 2])
  }

  /** The index after the hour and, when present, the minutes. */
  function MinutesEnd(s: string, i: nat): (q: nat)
    requires i < |s| && IsDigit(s[i])
    ensures i < q <= |s|
  {
    var p := i + HourLen(s, i);
    if MinuteAt(s, p) then p + 3 else p
  }

  /** `(am|pm)?` at `r`, any case. */
  function MeridiemAt(s: string, r: nat): Meridiem {
    if OccursAtCi(s, "am", r) then Am
    else if OccursAtCi(s, "pm", r) then Pm
    else NoMeridiem
  }

  /** A meridiem is read only from "am" or "pm" (any case) ending the match. */
  lemma {:induction false} ClockAtMeridiem(s: string, i: nat)
    requires i < |s| && IsDigit(s[i])
    ensures var m := ClockAt(s, i);
      (m.clock.meridiem == Am ==> i + 3 <= m.end && OccursAtCi(s, "am", m.end - 2)) &&
      (m.clock.meridiem == Pm ==> i + 3 <= m.end && OccursAtCi(s, "pm", m.end - 2))
  {
    var r := SpacesEnd(s, i);
    assert ClockAt(s, i).clock.meridiem == MeridiemAt(s, r);
    assert ClockAt(s, i).clock.meridiem != NoMeridiem ==> ClockAt(s, i).end == r + 2;
  }

  /** The hour is the one or two digits at `i`, read in base ten. */
  lemma {:induction false} ClockAtHour(s: string, i: nat)
    requires i < |s| && IsDigit(s[i])
    ensures var two := i + 1 < |s| && IsDigit(s[i + 1]);
      ClockAt(s, i).clock.hour == if two then 10 * DigitValue(s[i]) + DigitValue(s[i + 1]) else DigitValue(s[i])
  {
    var p := i + HourLen(s, i);
    assert ClockAt(s, i).clock.hour == HourValue(s, i) == DigitsValue(s[i..p]);
    SmallDigitsValue(s[i..p]);
  }

  /** The minute is the two digits after a colon that follows the hour, or else 0. */
  lemma {:induction false} ClockAtMinute(s: string, i: nat)
    requires i < |s| && IsDigit(s[i])
    ensures var p := if i + 1 < |s| && IsDigit(s[i + 1]) then i + 2 else i + 1;
      ClockAt(s, i).clock.minute ==
        if p + 3 <= |s| && s[p] == ':' && IsDigit(s[p + 1]) && IsDigit(s[p + 2])
        then 10 * DigitValue(s[p + 1]) + DigitValue(s[p + 2]) else 0
  {
    var p := i + HourLen(s, i);
    var m := ClockAt(s, i).clock.minute;
    assert m == MinuteValue(s, i);
    assert p == if i + 1 < |s| && IsDigit(s[i + 1]) then i + 2 else i + 1;
    if MinuteAt(s, p) {
      var d := s[p + 1..p + 3];
      assert m == DigitsValue(d);
      assert d[0] == s[p + 1] && d[1] == s[p + 2];
      SmallDigitsValue(d);
    } else {
      assert m == DigitsValue("0");
      SmallDigitsValue("0");
    }
  }

  /** `timeStr.match(/(\d{1,2})(?::(\d{2}))?\s*(am|pm)?/i)`: the pattern can start at any
      digit and nowhere else, so the match is at the first digit. */
  function FindClock(s: string): (r: Option<Clock>)
    ensures r.Some? <==> exists k :: 0 <= k < |s| && IsDigit(s[k])
    ensures r.Some? ==> r.value.hour < 100 && r.value.minute < 100
  {
    match FirstDigit(s, 0)
    case None => None
    case Some(i) => Some(ClockAt(s, i).clock)
  }

  /** The clock found is the one read at the first digit of the phrase. */
  lemma {:induction false} FindClockAtFirstDigit(s: string, i: nat)
    requires i < |s| && IsDigit(s[i]) && forall k :: 0 <= k < i ==> !IsDigit(s[k])
    ensures FindClock(s) == Some(ClockAt(s, i).clock)
  {
    var f := FirstDigit(s, 0);
    assert f == Some(i);
  }

  /** The text a clock match covers, taken on its own, reads as the same clock. */
  lemma {:induction false} ClockGroupReads(s: string, i: nat)
    requires i < |s| && IsDigit(s[i])
    ensures FindClock(s[i..ClockAt(s, i).end]) == Some(ClockAt(s, i).clock)
  {
    var e := ClockAt(s, i).end;
    FindClockAtFirstDigit(s[i..e], 0);
    ClockAtSlice(s, i, e);
  }

  /** The clock read at `i` depends on nothing past the end of its match. */
  lemma {:induction false} ClockAtSlice(s: string, i: nat, e: nat)
    requires i < |s| && IsDigit(s[i]) && e == ClockAt(s, i).end
    ensures ClockAt(s[i..e], 0).clock == ClockAt(s, i).clock
  {
    var q := MinutesEnd(s, i);
    var r := SpacesEnd(s, i);
    ValuesSlice(s, i, e);
    MeridiemSlice(s, i, e, q, r);
    assert SpacesEnd(s[i..e], 0) == r - i;
  }

  lemma {:induction false} ValuesSlice(s: string, i: nat, e: nat)
    requires i < |s| && IsDigit(s[i]) && MinutesEnd(s, i) <= e <= |s|
    ensures MinutesEnd(s[i..e], 0) == MinutesEnd(s, i) - i
    ensures HourValue(s[i..e], 0) == HourValue(s, i)
    ensures MinuteValue(s[i..e], 0) == MinuteValue(s, i)
  {
    MinutesEndSlice(s, i, e);
    HourValueSlice(s, i, e);
    MinuteValueSlice(s, i, e);
  }

  lemma {:induction false} HourValueSlice(s: string, i: nat, e: nat)
    requires i < |s| && IsDigit(s[i]) && MinutesEnd(s, i) <= e <= |s|
    ensures HourValue(s[i..e], 0) == HourValue(s, i)
  {
    var t := s[i..e];
    var n := HourLen(s, i);
    HourLenSlice(s, i, e);
    assert t[0..n] == s[i..i + n] by {
      assert forall k :: 0 <= k < n ==> t[k] == s[i + k];
    }
  }

  lemma {:induction false} MinuteValueSlice(s: string, i: nat, e: nat)
    requires i < |s| && IsDigit(s[i]) && MinutesEnd(s, i) <= e <= |s|
    ensures MinuteValue(s[i..e], 0) == MinuteValue(s, i)
  {
    var t := s[i..e];
    var n := HourLen(s, i);
    MinutesEndSlice(s, i, e);
    if MinuteAt(s, i + n) {
      assert t[n + 1..n + 3] == s[i + n + 1..i + n + 3] by {
        assert forall k :: n + 1 <= k < n + 3 ==> t[k] == s[i + k];
      }
    }
  }

  lemma {:induction false} HourLenSlice(s: string, i: nat, e: nat)
    requires i < |s| && IsDigit(s[i]) && i + HourLen(s, i) <= e <= |s|
    ensures HourLen(s[i..e], 0) == HourLen(s, i)
  {
  }

  lemma {:induction false} MinutesEndSlice(s: string, i: nat, e: nat)
    requires i < |s| && IsDigit(s[i]) && MinutesEnd(s, i) <= e <= |s|
    ensures HourLen(s[i..e], 0) == HourLen(s, i)
    ensures MinuteAt(s[i..e], HourLen(s, i)) == MinuteAt(s, i + HourLen(s, i))
    ensures MinutesEnd(s[i..e], 0) == MinutesEnd(s, i) - i
  {
    HourLenSlice(s, i, e);
    var n := HourLen(s, i);
    var t := s[i..e];
    if n + 3 <= |t| {
      assert t[n] == s[i + n] && t[n + 1] == s[i + n + 1] && t[n + 2] == s[i + n + 2];
    }
  }

  /** The whitespace and the meridiem read after the minutes are the same in the part of
      the text the match covers. */
  lemma {:induction false} MeridiemSlice(s: string, i: nat, e: nat, q: nat, r: nat)
    requires i < q <= r <= e <= |s| && r == q + SpaceRun(s, q)
    requires e == if MeridiemAt(s, r) == NoMeridiem then r else r + 2
    ensures SpaceRun(s[i..e], q - i) == r - q
    ensures MeridiemAt(s[i..e], r - i) == MeridiemAt(s, r)
  {
    if MeridiemAt(s, r) != NoMeridiem {
      MeridiemStart(s, r);
    }
    SpacesSlice(s, i, e, q, r);
    MeridiemWordSlice(s, i, e, r);
  }

  lemma {:induction false} SpacesSlice(s: string, i: nat, e: nat, q: nat, r: nat)
    requires i < q <= r <= e <= |s| && r == q + SpaceRun(s, q)
    requires r < e ==> !IsSpace(s[r])
    ensures SpaceRun(s[i..e], q - i) == r - q
  {
    var t := s[i..e];
    SpaceRunAll(s, q);
    assert forall k :: q - i <= k < r - i ==> t[k] == s[i + k];
    if r < e {
      assert t[r - i] == s[r];
    }
    SpaceRunExact(t, q - i, r - q);
  }

  lemma {:induction false} MeridiemWordSlice(s: string, i: nat, e: nat, r: nat)
    requires i <= r <= e <= |s|
    requires e == if MeridiemAt(s, r) == NoMeridiem then r else r + 2
    ensures MeridiemAt(s[i..e], r - i) == MeridiemAt(s, r)
  {
    var t := s[i..e];
    if MeridiemAt(s, r) != NoMeridiem {
      assert t[r - i..r - i + 2] == s[r..r + 2] by {
        assert forall k :: r - i <= k < r - i + 2 ==> t[k] == s[i + k];
      }
    } else {
      assert |t| == r - i;
    }
  }

  /** A meridiem does not start with whitespace. */
  lemma {:induction false} MeridiemStart(s: string, r: nat)
    requires MeridiemAt(s, r) != NoMeridiem
    ensures r < |s| && !IsSpace(s[r])
  {
    assert LowerStr(s[r..r + 2])[0] == Lower(s[r]);
  }

  /** The hour after the 12-hour conversion: `pm` adds 12 below noon, `12 am` is midnight. */
  function Hour24(c: Clock): nat {
    match c.meridiem
    case Pm => if c.hour < 12 then c.hour + 12 else c.hour
    case Am => if c.hour == 12 then 0 else c.hour
    case NoMeridiem => c.hour
  }

  /** On a 12-hour reading (1 to 12 with `am` or `pm`) the conversion keeps the hour
      modulo 12 and puts `am` in the morning and `pm` in the afternoon. */
  lemma {:induction false} TwelveHourClock(c: Clock)
    requires 1 <= c.hour <= 12 && c.meridiem != NoMeridiem
    ensures Hour24(c) % 12 == c.hour % 12
    ensures c.meridiem == Am ==> Hour24(c) < 12
    ensures c.meridiem == Pm ==> 12 <= Hour24(c) < 24
  {}

  // ------------------------------------------------------------ resolving the instant

  /** Local midnight at the start of the day holding the local instant `t`. */
  function DayStart(t: int): (r: int)
    ensures r <= t < r + DayMs && r % DayMs == 0
  {
    t - t % DayMs
  }

  /** The phrase holds a clock time that names a real time of day. */
  predicate ValidClock(timeStr: string) {
    FindClock(timeStr).Some? && Hour24(FindClock(timeStr).value) < 24 && FindClock(timeStr).value.minute < 60
  }

  /** The offset of a clock time from midnight. */
  function TimeOfDay(c: Clock): (r: int)
    ensures Hour24(c) < 24 && c.minute < 60 ==> 0 <= r < DayMs
  {
    var h := Hour24(c);
    assert h < 24 ==> h * HourMs <= 23 * HourMs;
    assert c.minute < 60 ==> c.minute * MinuteMs <= 59 * MinuteMs;
    h * HourMs + c.minute * MinuteMs
  }

  function MentionsTomorrow(timeStr: string): bool {
    Contains(LowerStr(timeStr), "tomorrow")
  }

  /** The steps of `parseTimeToISO` on the local timeline, `now` being local too, with
      `tomorrow` saying whether the phrase asks for the next day: that moves the base a
      day on; a clock time replaces the time of day of the base; a time already passed
      today, when the next day was not asked for, moves to the next day. */
  function ResolveLocalFor(timeStr: string, tomorrow: bool, now: int): int {
    var target := if tomorrow then now + DayMs else now;
    match FindClock(timeStr)
    case None => target
    case Some(c) =>
      var at := DayStart(target) + TimeOfDay(c);
      if !tomorrow && at < now then at + DayMs else at
  }

  /** `parseTimeToISO` on the local timeline: "tomorrow" is looked for in the phrase itself. */
  function ResolveLocal(timeStr: string, now: int): int {
    ResolveLocalFor(timeStr, MentionsTomorrow(timeStr), now)
  }

  /** The instant `parseTimeToISO` renders, in UTC. */
  function ResolveInstant(timeStr: string, nowUtc: int, offset: int): int {
    ResolveLocal(timeStr, nowUtc + offset) - offset
  }

  /** The instant of `parseTimeToISO`'s steps, in UTC, with whether the next day is asked
      for given apart from the phrase: the next day at the phrase's valid clock time, this
      time tomorrow without a clock time, otherwise an instant not in the past; and the
      instant `parseTimeToISO` computes when `tomorrow` agrees with the phrase. */
  function ResolveInstantFor(timeStr: string, tomorrow: bool, nowUtc: int, offset: int): (t: int)
    ensures tomorrow && ValidClock(timeStr) ==>
              DayStart(t + offset) == DayStart(nowUtc + offset) + DayMs
              && t + offset - DayStart(t + offset) == TimeOfDay(FindClock(timeStr).value)
    ensures tomorrow && FindClock(timeStr).None? ==> t == nowUtc + DayMs
    ensures !tomorrow ==> t >= nowUtc
    ensures tomorrow == MentionsTomorrow(timeStr) ==> t == ResolveInstant(timeStr, nowUtc, offset)
  {
    var local := ResolveLocalFor(timeStr, tomorrow, nowUtc + offset);
    assert local - offset + offset == local;
    if tomorrow && ValidClock(timeStr) then ResolveNextDay(timeStr, nowUtc + offset); local - offset
    else local - offset
  }

  /** `parseTimeToISO`. */
  function ParseTimeToIso(timeStr: string, nowUtc: int, offset: int): string {
    IsoString(ResolveInstant(timeStr, nowUtc, offset))
  }

  /** A phrase without "tomorrow" never resolves to a past instant. */
  lemma {:induction false} ResolveNotPast(timeStr: string, now: int)
    requires !MentionsTomorrow(timeStr)
    ensures ResolveLocal(timeStr, now) >= now
  {}

  /** A phrase with "tomorrow" and no clock time means this time tomorrow. */
  lemma {:induction false} ResolveTomorrowNoClock(timeStr: string, now: int)
    requires MentionsTomorrow(timeStr) && FindClock(timeStr).None?
    ensures ResolveLocal(timeStr, now) == now + DayMs
  {}

  /** A phrase with neither a clock time nor "tomorrow" means now. */
  lemma {:induction false} ResolveNoClock(timeStr: string, now: int)
    requires !MentionsTomorrow(timeStr) && FindClock(timeStr).None?
    ensures ResolveLocal(timeStr, now) == now
  {}

  /** An instant `tod` after a local midnight lies on that day when `tod` is shorter than a day. */
  lemma {:induction false} DayStartShift(t: int, tod: int)
    requires 0 <= tod < DayMs && (t - tod) % DayMs == 0
    ensures DayStart(t) == t - tod
  {
    var m := t - tod;
    assert m == (m / DayMs) * DayMs;
    assert t == (m / DayMs) * DayMs + tod;
  }

  /** Today's occurrence of `tod`, or tomorrow's when today's has passed, is the next one. */
  lemma {:induction false} NextOccurrence(now: int, tod: int)
    requires 0 <= tod < DayMs
    ensures var at := DayStart(now) + tod;
      var t := if at < now then at + DayMs else at;
      now <= t < now + DayMs && t - DayStart(t) == tod
  {
    var at := DayStart(now) + tod;
    DayStartShift(at, tod);
    DayStartShift(at + DayMs, tod);
  }

  /** A valid time of day without "tomorrow" resolves to its next occurrence: within the
      coming 24 hours, at that time of day. */
  lemma {:induction false} ResolveNextOccurrence(timeStr: string, now: int)
    requires !MentionsTomorrow(timeStr) && FindClock(timeStr).Some?
    requires Hour24(FindClock(timeStr).value) < 24
    requires FindClock(timeStr).value.minute < 60
    ensures var t := ResolveLocal(timeStr, now);
      now <= t < now + DayMs && t - DayStart(t) == TimeOfDay(FindClock(timeStr).value)
  {
    NextOccurrence(now, TimeOfDay(FindClock(timeStr).value));
  }

  /** Midnight of the day after the one holding `now`. */
  lemma {:induction false} DayStartTomorrow(now: int)
    ensures DayStart(now + DayMs) == DayStart(now) + DayMs
  {
    DayStartShift(now + DayMs, now % DayMs);
  }

  /** Asked for the next day, a valid time of day resolves to that time on the next local day. */
  lemma {:induction false} ResolveNextDay(timeStr: string, now: int)
    requires FindClock(timeStr).Some?
    requires Hour24(FindClock(timeStr).value) < 24
    requires FindClock(timeStr).value.minute < 60
    ensures var t := ResolveLocalFor(timeStr, true, now);
      DayStart(t) == DayStart(now) + DayMs && t - DayStart(t) == TimeOfDay(FindClock(timeStr).value)
  {
    var tod := TimeOfDay(FindClock(timeStr).value);
    var t := ResolveLocalFor(timeStr, true, now);
    DayStartTomorrow(now);
    assert t == DayStart(now + DayMs) + tod;
    DayStartShift(t, tod);
  }

  /** A valid time of day with "tomorrow" resolves to that time on the next local day. */
  lemma {:induction false} ResolveTomorrow(timeStr: string, now: int)
    requires MentionsTomorrow(timeStr) && FindClock(timeStr).Some?
    requires Hour24(FindClock(timeStr).value) < 24
    requires FindClock(timeStr).value.minute < 60
    ensures var t := ResolveLocal(timeStr, now);
      DayStart(t) == DayStart(now) + DayMs && t - DayStart(t) == TimeOfDay(FindClock(timeStr).value)
  {
    ResolveNextDay(timeStr, now);
  }

  /** A valid time of day not yet reached today, the next day not asked for, resolves
      to today. */
  lemma {:induction false} ResolveSameDay(timeStr: string, now: int)
    requires FindClock(timeStr).Some?
    requires Hour24(FindClock(timeStr).value) < 24 && FindClock(timeStr).value.minute < 60
    requires now - DayStart(now) <= TimeOfDay(FindClock(timeStr).value)
    ensures DayStart(ResolveLocalFor(timeStr, false, now)) == DayStart(now)
  {
    var tod := TimeOfDay(FindClock(timeStr).value);
    assert ResolveLocalFor(timeStr, false, now) == DayStart(now) + tod;
    DayStartShift(DayStart(now) + tod, tod);
  }

  /** When the clock time has already passed today — 9 am asked for at 10 am — the
      reminder goes to 9 am on the next day. */
  lemma {:induction false} ResolvePassedTime(timeStr: string, now: int)
    requires !MentionsTomorrow(timeStr) && FindClock(timeStr) == Some(Clock(9, 0, Am))
    requires now - DayStart(now) == 10 * HourMs
    ensures ResolveLocal(timeStr, now) == DayStart(now) + DayMs + 9 * HourMs
  {}

  /** The UTC form: the same rules, shifted by the zone offset. */
  lemma {:induction false} ResolveInstantNotPast(timeStr: string, nowUtc: int, offset: int)
    requires !MentionsTomorrow(timeStr)
    ensures ResolveInstant(timeStr, nowUtc, offset) >= nowUtc
  {
    ResolveNotPast(timeStr, nowUtc + offset);
  }

  // ------------------------------------------------------------ toISOString

  predicate IsLeap(y: int) {
    y % 4 == 0 && (y % 100 != 0 || y % 400 == 0)
  }

  function YearLength(y: int): nat {
    if IsLeap(y) then 366 else 365
  }

  function MonthLength(y: int, m: nat): nat
    requires 1 <= m <= 12
  {
    if m == 2 then (if IsLeap(y) then 29 else 28)
    else if m == 4 || m == 6 || m == 9 || m == 11 then 30
    else 31
  }

  /** Days of a common year before the first of each month; the 13th entry is the whole year. */
  const CommonYearStarts: seq<nat> := [0, 31, 59, 90, 120, 151, 181, 212, 243, 273, 304, 334, 365]

  /** Days in year `y` before the first of month `m` (`m == 13`: the whole year). */
  function DaysBeforeMonth(y: int, m: nat): nat
    requires 1 <= m <= 13
  {
    CommonYearStarts[m - 1] + (if IsLeap(y) && m > 2 then 1 else 0)
  }

  /** The table agrees with the month lengths, and twelve months make the year. */
  lemma {:induction false} MonthStep(y: int, m: nat)
    requires 1 <= m <= 12
    ensures DaysBeforeMonth(y, m + 1) == DaysBeforeMonth(y, m) + MonthLength(y, m)
    ensures DaysBeforeMonth(y, 1) == 0 && DaysBeforeMonth(y, 13) == YearLength(y)
  {}

  /** Days from 1 January of year 0 to 1 January of year `y` (negative before year 0):
      365 a year, plus one for each leap year in between. */
  function YearStart(y: int): int {
    365 * y + (y + 3) / 4 - (y + 99) / 100 + (y + 399) / 400
  }

  lemma {:induction false} MulAtLeast(n: nat, k: nat)
    requires k >= 1
    ensures n * k >= n
  {
    if k > 1 {
      MulAtLeast(n, k - 1);
      assert n * k == n * (k - 1) + n;
    }
  }

  /** Quotient and remainder are unique. */
  lemma {:induction false} DivUnique(x: int, n: int, q: int, r: int)
    requires 0 <= r < n && x == n * q + r
    ensures x / n == q
  {
    var q', r' := x / n, x % n;
    assert n * q' + r' == n * q + r;
    if q' > q {
      assert n * q' == n * q + n * (q' - q);
      MulAtLeast(n, q' - q);
    } else if q' < q {
      assert n * q == n * q' + n * (q - q');
      MulAtLeast(n, q - q');
    }
  }

  /** Among `y` and the `n - 1` years before it, one more multiple of `n` than among the
      `n - 1` years before it exactly when `y` is a multiple of `n`. */
  lemma {:induction false} DivStep(y: int, n: int)
    requires n > 0
    ensures (y + n) / n - (y + n - 1) / n == if y % n == 0 then 1 else 0
  {
    var a, b := y / n, y % n;
    assert y == n * a + b;
    DivUnique(y + n, n, a + 1, b);
    if b == 0 {
      DivUnique(y + n - 1, n, a, n - 1);
    } else {
      DivUnique(y + n - 1, n, a + 1, b - 1);
    }
  }

  /** The counting formula agrees with the leap-year rule, year by year. */
  lemma {:induction false} YearStep(y: int)
    ensures YearStart(y + 1) == YearStart(y) + YearLength(y)
  {
    DivStep(y, 4);
    DivStep(y, 100);
    DivStep(y, 400);
    if y % 400 == 0 {
      MultipleMod(y, 100, 4 * (y / 400));
      MultipleMod(y, 4, 100 * (y / 400));
    } else if y % 100 == 0 {
      MultipleMod(y, 4, 25 * (y / 100));
    }
  }

  /** A multiple of `n` leaves no remainder. */
  lemma {:induction false} MultipleMod(y: int, n: int, k: int)
    requires n > 0 && y == n * k
    ensures y % n == 0
  {
    DivUnique(y, n, k, 0);
  }

  /** The year holding the day `d` days after 1 January of year `y` (negative `d`
      counts backwards), and the index of that day within its year. */
  function YearOf(y: int, d: int): (r: (int, nat))
    ensures r.1 < YearLength(r.0)
    ensures YearStart(r.0) + r.1 == YearStart(y) + d
    decreases if d < 0 then 1 else 0, if d < 0 then -d else d
  {
    if d < 0 then YearStep(y - 1); YearOf(y - 1, d + YearLength(y - 1))
    else if d < YearLength(y) then (y, d)
    else YearStep(y); YearOf(y + 1, d - YearLength(y))
  }

  /** The month and day of month of the day with index `doy` in year `y`, searching from month `m`. */
  function MonthOf(y: int, doy: nat, m: nat): (r: (nat, nat))
    requires 1 <= m <= 12 && DaysBeforeMonth(y, m) <= doy < YearLength(y)
    ensures 1 <= r.0 <= 12 && 1 <= r.1 <= MonthLength(y, r.0)
    ensures DaysBeforeMonth(y, r.0) + r.1 - 1 == doy
    decreases 12 - m
  {
    MonthStep(y, m);
    if doy < DaysBeforeMonth(y, m + 1) then (m, doy - DaysBeforeMonth(y, m) + 1)
    else MonthOf(y, doy, m + 1)
  }

  /** The day number of a date: days after 1970-01-01. */
  function DayNumber(y: int, m: nat, d: nat): int
    requires 1 <= m <= 12
  {
    YearStart(y) - YearStart(1970) + DaysBeforeMonth(y, m) + d - 1
  }

  /** The calendar date (year, month, day) of the day `days` days after 1970-01-01: a
      valid date whose day number is `days`. */
  function DateOf(days: int): (r: (int, nat, nat))
    ensures 1 <= r.1 <= 12 && 1 <= r.2 <= MonthLength(r.0, r.1)
    ensures DayNumber(r.0, r.1, r.2) == days
  {
    var (y, doy) := YearOf(1970, days);
    MonthStep(y, 1);
    var (m, d) := MonthOf(y, doy, 1);
    (y, m, d)
  }

  predicate IsoChar(c: char) {
    IsDigit(c) || c == '-' || c == '+' || c == 'T' || c == ':' || c == '.' || c == 'Z'
  }

  predicate IsoText(s: string) {
    forall k :: 0 <= k < |s| ==> IsoChar(s[k])
  }

  lemma {:induction false} IsoJoin(s: string, t: string)
    requires IsoText(s) && IsoText(t)
    ensures IsoText(s + t)
  {}

  /** Years 0 to 9999 take four digits; others a sign and six digits. */
  function YearText(y: int): (r: string)
    ensures IsoText(r) && |r| >= 4
    ensures IsDigit(r[0]) || r[0] == '-' || r[0] == '+'
  {
    if 0 <= y <= 9999 then PadNat(y, 4)
    else
      var sign := if y < 0 then "-" else "+";
      var digits := PadNat(if y < 0 then -y else y, 6);
      IsoJoin(sign, digits);
      sign + digits
  }

  /** A number in `width` digits, followed by `sep`. */
  function Field(n: nat, width: nat, sep: char): (r: string)
    requires IsoChar(sep)
    ensures IsoText(r) && |r| >= 1
  {
    IsoJoin(PadNat(n, width), [sep]);
    PadNat(n, width) + [sep]
  }

  /** `YYYY-MM-DD` followed by `T`. */
  function DateText(y: int, m: nat, d: nat): (r: string)
    ensures IsoText(r) && |r| >= 1
    ensures IsDigit(r[0]) || r[0] == '-' || r[0] == '+'
  {
    var year := YearText(y) + "-";
    IsoJoin(YearText(y), "-");
    IsoJoin(Field(m, 2, '-'), Field(d, 2, 'T'));
    IsoJoin(year, Field(m, 2, '-') + Field(d, 2, 'T'));
    year + (Field(m, 2, '-') + Field(d, 2, 'T'))
  }

  /** `HH:mm:ss.sssZ` for `ms` milliseconds after midnight. */
  function ClockText(ms: nat): (r: string)
    ensures IsoText(r) && |r| >= 1 && r[|r| - 1] == 'Z'
  {
    var hm := Field(ms / HourMs, 2, ':') + Field(ms / MinuteMs % 60, 2, ':');
    var sz := Field(ms / 1000 % 60, 2, '.') + Field(ms % 1000, 3, 'Z');
    IsoJoin(Field(ms / HourMs, 2, ':'), Field(ms / MinuteMs % 60, 2, ':'));
    IsoJoin(Field(ms / 1000 % 60, 2, '.'), Field(ms % 1000, 3, 'Z'));
    IsoJoin(hm, sz);
    hm + sz
  }

  /** `Date.prototype.toISOString`: `YYYY-MM-DDTHH:mm:ss.sssZ` in UTC. */
  function IsoString(t: int): (r: string)
    ensures IsoText(r) && |r| >= 1 && r[|r| - 1] == 'Z'
    ensures IsDigit(r[0]) || r[0] == '-' || r[0] == '+'
  {
    var (y, m, d) := DateOf(t / DayMs);
    var a := DateText(y, m, d);
    var b := ClockText(t % DayMs);
    IsoJoin(a, b);
    assert (a + b)[0] == a[0];
    assert (a + b)[|a + b| - 1] == b[|b| - 1];
    a + b
  }

  /** Text made of ISO characters holds no bracket and no `|`; when it starts with a digit
      or a sign and ends with `Z`, it is trimmed. */
  lemma {:induction false} IsoTextPlain(s: string)
    requires IsoText(s) && |s| >= 1 && s[|s| - 1] == 'Z'
    requires IsDigit(s[0]) || s[0] == '-' || s[0] == '+'
    ensures IsTrimmed(s)
    ensures '[' !in s && ']' !in s && '|' !in s
  {
    forall c | c in s ensures c != '[' && c != ']' && c != '|' {
      var k :| 0 <= k < |s| && s[k] == c;
      assert IsoChar(s[k]);
    }
  }

  /** The rendering holds only digits and `-+T:.Z`: no bracket, no `|`, no whitespace.
      It starts with a digit or a sign and ends with `Z`, so it is non-empty and trimmed. */
  lemma {:induction false} IsoShape(t: int)
    ensures IsoString(t) != [] && IsTrimmed(IsoString(t))
    ensures '[' !in IsoString(t) && ']' !in IsoString(t) && '|' !in IsoString(t)
  {
    IsoTextPlain(IsoString(t));
  }

  /** 1 March 2024, the day after a leap day. */
  lemma {:induction false} LeapDayFollows()
    ensures MonthOf(2024, 60, 1) == (3, 1) && MonthOf(2023, 59, 1) == (3, 1)
    ensures MonthOf(2024, 59, 1) == (2, 29)
  {
    MonthStep(2024, 1);
    MonthStep(2024, 2);
    MonthStep(2023, 1);
    MonthStep(2023, 2);
  }
}
