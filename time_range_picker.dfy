/**
 * The logic of the time-slot editor: `"HH:MM"` clock strings, the list of
 * selectable times at a given step, 12-hour display, the same-day overlap
 * check, and the add / update / remove operations on the slot list together
 * with the editor's own state (pending start and end, the slot being edited,
 * the chosen duration and which drop-downs are open).
 *
 * The slot list itself belongs to the parent: every operation takes it as a
 * parameter and returns what it hands to `onChange` (`None` when `onChange`
 * is not called). Toast notifications are returned as a `Notice`.
 */
module TimeRangePicker {
  import opened JsText
  import opened Optional

  // ---------------------------------------------------------------------------
  // Clock strings
  // ---------------------------------------------------------------------------

  /** The hour and the minute, each padded to two digits with a leading zero, joined by a colon. */
  function Clock(h: nat, m: nat): string {
    PadStart2(NatToString(h)) + ":" + PadStart2(NatToString(m))
  }

  /** Two digits, a colon, two digits. */
  predicate ClockShape(t: string) {
    |t| == 5 && IsDigit(t[0]) && IsDigit(t[1]) && t[2] == ':' && IsDigit(t[3]) && IsDigit(t[4])
  }

  function Hour(t: string): nat
    requires ClockShape(t)
  {
    10 * DigitValue(t[0]) + DigitValue(t[1])
  }

  function Minute(t: string): nat
    requires ClockShape(t)
  {
    10 * DigitValue(t[3]) + DigitValue(t[4])
  }

  /** A zero-padded 24-hour time of day from "00:00" to "23:59". */
  predicate IsClock(t: string) {
    ClockShape(t) && Hour(t) <= 23 && Minute(t) <= 59
  }

  /** Minutes since midnight of a well-formed clock string. */
  function ClockMinutes(t: string): (r: nat)
    requires IsClock(t)
    ensures r < 24 * 60
  {
    Hour(t) * 60 + Minute(t)
  }

  /** `Clock(h, m)` is the well-formed clock string for h:m. */
  lemma ClockIsWellFormed(h: nat, m: nat)
    requires h < 24 && m < 60
    ensures IsClock(Clock(h, m)) && Hour(Clock(h, m)) == h && Minute(Clock(h, m)) == m
    ensures ClockMinutes(Clock(h, m)) == h * 60 + m
  {
    var hh := PadStart2(NatToString(h));
    var mm := PadStart2(NatToString(m));
    TwoDigitsValue(h);
    TwoDigitsValue(m);
    var c := Clock(h, m);
    assert c == hh + ":" + mm;
    assert c[0] == hh[0] && c[1] == hh[1] && c[2] == ':' && c[3] == mm[0] && c[4] == mm[1];
  }

  // ---------------------------------------------------------------------------
  // `timeToMinutes`
  // ---------------------------------------------------------------------------

  /**
   * Minutes since midnight: the text before the first colon read as a number
   * of hours, times sixty, plus the text after it read as minutes; any later
   * colon-separated part is ignored. A string with no colon has no minutes
   * part, and a part that is not a number reads as NaN, so the sum is NaN.
   */
  function TimeToMinutes(time: string): (r: Num)
    ensures r.Finite? ==> r.value >= 0
    ensures ':' !in time ==> r.NaN?
  {
    var parts := Split(time, ':');
    assert ':' !in time ==> parts == [time] by {
      if ':' !in time {
        SplitNoSeparator(time, ':');
      }
    }
    var hours := ToNumber(parts[0]);
    var minutes := if |parts| > 1 then ToNumber(parts[1]) else NaN;
    if hours.Finite? && minutes.Finite? then Finite(hours.value * 60 + minutes.value) else NaN
  }

  /**
   * For hours and minutes text without colons: the sum when both parts are
   * digit strings (an empty part reads as 0), and NaN as soon as either is not.
   */
  lemma TimeToMinutesOfParts(hours: string, minutes: string)
    requires ':' !in hours && ':' !in minutes
    ensures TimeToMinutes(hours + [':'] + minutes) ==
      if AllDigits(hours) && AllDigits(minutes) then Finite(DecimalValue(hours) * 60 + DecimalValue(minutes))
      else NaN
  {
    SplitAtFirst(hours, ':', minutes);
    SplitNoSeparator(minutes, ':');
  }

  lemma TwoDigitValue(s: string)
    requires |s| == 2 && AllDigits(s)
    ensures DecimalValue(s) == 10 * DigitValue(s[0]) + DigitValue(s[1])
  {
    assert s[..1][..0] == [];
    assert s[..2 - 1] == s[..1];
    assert DecimalValue(s[..1]) == DigitValue(s[0]);
  }

  /** A clock string splits at its colon into its hour and minute digits. */
  lemma SplitClock(t: string)
    requires ClockShape(t)
    ensures Split(t, ':') == [t[..2], t[3..]]
  {
    assert t == t[..2] + [':'] + t[3..];
    SplitAtFirst(t[..2], ':', t[3..]);
    SplitNoSeparator(t[3..], ':');
  }

  /** `timeToMinutes("HH:MM") = HH * 60 + MM`. */
  lemma TimeToMinutesOfClock(t: string)
    requires IsClock(t)
    ensures TimeToMinutes(t) == Finite(ClockMinutes(t))
  {
    SplitClock(t);
    TwoDigitValue(t[..2]);
    TwoDigitValue(t[3..]);
  }

  // ---------------------------------------------------------------------------
  // String order versus minute order
  // ---------------------------------------------------------------------------

  /** JavaScript's `<` on two clock-shaped strings compares digit by digit. */
  lemma StrLtClockShape(a: string, b: string)
    requires ClockShape(a) && ClockShape(b)
    ensures StrLt(a, b) <==>
      a[0] < b[0] || (a[0] == b[0] && (a[1] < b[1] || (a[1] == b[1] &&
        (a[3] < b[3] || (a[3] == b[3] && a[4] < b[4])))))
  {
    StrLtStep(a, b);
    assert a[1..][1..] == a[2..] && b[1..][1..] == b[2..];
    StrLtStep(a[1..], b[1..]);
    assert a[2..][1..] == a[3..] && b[2..][1..] == b[3..];
    StrLtStep(a[2..], b[2..]);
    assert a[3..][1..] == a[4..] && b[3..][1..] == b[4..];
    StrLtStep(a[3..], b[3..]);
    StrLtStep(a[4..], b[4..]);
  }

  lemma StrLtStep(a: string, b: string)
    requires |a| > 0 && |b| > 0
    ensures StrLt(a, b) <==> a[0] < b[0] || (a[0] == b[0] && StrLt(a[1..], b[1..]))
  {
  }

  /**
   * For zero-padded times the string comparisons the guards use agree with
   * minute order: `a < b` as strings iff a is earlier, `a <= b` iff a is not later.
   */
  lemma ClockOrder(a: string, b: string)
    requires IsClock(a) && IsClock(b)
    ensures StrLt(a, b) <==> ClockMinutes(a) < ClockMinutes(b)
    ensures StrLe(a, b) <==> ClockMinutes(a) <= ClockMinutes(b)
  {
    StrLtClockShape(a, b);
    StrLtClockShape(b, a);
  }

  // ---------------------------------------------------------------------------
  // `generateTimeOptions`
  // ---------------------------------------------------------------------------

  /** How many minute values `m = 0, step, 2*step, ...` stay below 60. */
  function PerHour(step: nat): (k: nat)
    requires step > 0
    ensures k >= 1
  {
    59 / step + 1
  }

  /** j steps stay inside the hour exactly when j < PerHour(step). */
  lemma StepsWithinHour(step: nat, j: nat)
    requires step > 0
    ensures j < PerHour(step) <==> j * step < 60
  {
    var k, r := 59 / step, 59 % step;
    assert 59 == k * step + r && 0 <= r < step;
    if j <= k {
      MulMono(j, k, step);
    } else {
      MulMono(k + 1, j, step);
      assert (k + 1) * step == k * step + step;
    }
  }

  lemma MulPred(n: int, k: int)
    ensures n * k == (n - 1) * k + k
  {
  }

  lemma MulMono(a: int, b: int, c: int)
    requires a <= b && c >= 0
    ensures a * c <= b * c
  {
    assert b * c - a * c == (b - a) * c;
  }

  /** The options generated for hour h: h:00, h:step, ... below h+1:00. */
  function Row(h: nat, step: nat): (r: seq<string>)
    requires step > 0
    ensures |r| == PerHour(step)
  {
    seq(PerHour(step), j requires 0 <= j < PerHour(step) => Clock(h, j * step))
  }

  /** The options of hours 0 .. n-1, hour by hour. */
  function Rows(n: nat, step: nat): seq<string>
    requires step > 0
  {
    if n == 0 then [] else Rows(n - 1, step) + Row(n - 1, step)
  }

  const HoursPerDay: nat := 24

  /** What `generateTimeOptions(step)` returns. */
  function TimeOptions(step: nat): seq<string>
    requires step > 0
  {
    Rows(HoursPerDay, step)
  }

  /**
   * `generateTimeOptions`: for each hour, push "HH:MM" for m = 0, step, ...
   * while m < 60. The source loops forever unless step > 0.
   */
  method GenerateTimeOptions(step: nat) returns (options: seq<string>)
    requires step > 0
    ensures options == TimeOptions(step)
  {
    options := [];
    var h := 0;
    while h < HoursPerDay
      invariant 0 <= h <= HoursPerDay
      invariant options == Rows(h, step)
    {
      var m := 0;
      ghost var j := 0;
      while m < 60
        invariant 0 <= j <= PerHour(step) && m == j * step
        invariant options == Rows(h, step) + Row(h, step)[..j]
      {
        RowGrows(h, step, j);
        options := options + [Clock(h, m)];
        m := m + step;
        j := j + 1;
      }
      RowEnds(h, step, j);
      h := h + 1;
    }
  }

  /** One more pass of the inner loop adds the next clock string of the row. */
  lemma RowGrows(h: nat, step: nat, j: nat)
    requires step > 0 && j <= PerHour(step) && j * step < 60
    ensures j < PerHour(step)
    ensures Row(h, step)[..j + 1] == Row(h, step)[..j] + [Clock(h, j * step)]
  {
    StepsWithinHour(step, j);
  }

  /** The inner loop stops exactly when the whole row has been produced. */
  lemma RowEnds(h: nat, step: nat, j: nat)
    requires step > 0 && j <= PerHour(step) && j * step >= 60
    ensures Row(h, step)[..j] == Row(h, step) && Rows(h + 1, step) == Rows(h, step) + Row(h, step)
  {
    StepsWithinHour(step, j);
  }

  /** Each hour contributes PerHour(step) options. */
  lemma {:induction false} RowsLength(n: nat, step: nat)
    requires step > 0
    ensures |Rows(n, step)| == n * PerHour(step)
  {
    if n > 0 {
      RowsLength(n - 1, step);
      MulPred(n, PerHour(step));
    }
  }

  /** 15, 30 and 60 minute steps give 96, 48 and 24 options. */
  lemma DurationOptionCounts()
    ensures |TimeOptions(15)| == 96 && |TimeOptions(30)| == 48 && |TimeOptions(60)| == 24
  {
    RowsLength(HoursPerDay, 15);
    RowsLength(HoursPerDay, 30);
    RowsLength(HoursPerDay, 60);
  }

  /** Within the first n hours, entry j of hour h's row follows the options of hours 0 .. h-1. */
  lemma {:induction false} RowsAt(n: nat, step: nat, h: nat, j: nat)
    requires step > 0 && h < n && j < PerHour(step)
    ensures |Rows(h, step)| + j < |Rows(n, step)|
    ensures Rows(n, step)[|Rows(h, step)| + j] == Row(h, step)[j]
  {
    if n == h + 1 {
      AppendIndex(Rows(h, step), Row(h, step), |Rows(h, step)| + j);
    } else {
      RowsAt(n - 1, step, h, j);
      AppendIndex(Rows(n - 1, step), Row(n - 1, step), |Rows(h, step)| + j);
    }
  }

  /** Indexing into a concatenation reads the left or the right part. */
  lemma AppendIndex(a: seq<string>, b: seq<string>, i: nat)
    requires i < |a| + |b|
    ensures |a + b| == |a| + |b|
    ensures (a + b)[i] == if i < |a| then a[i] else b[i - |a|]
  {
  }

  /** Option number h * PerHour(step) + j is the clock string for hour h, minute j * step. */
  lemma TimeOptionOfHour(step: nat, h: nat, j: nat)
    requires step > 0 && h < HoursPerDay && j < PerHour(step)
    ensures h * PerHour(step) + j < |TimeOptions(step)|
    ensures TimeOptions(step)[h * PerHour(step) + j] == Clock(h, j * step)
    ensures IsClock(Clock(h, j * step)) && ClockMinutes(Clock(h, j * step)) == h * 60 + j * step
  {
    RowsAt(HoursPerDay, step, h, j);
    RowsLength(h, step);
    assert Row(h, step)[j] == Clock(h, j * step);
    StepsWithinHour(step, j);
    ClockIsWellFormed(h, j * step);
  }

  /** An index below n * k is row i / k, column i % k. */
  lemma SplitIndex(i: nat, n: nat, k: nat)
    requires k > 0 && i < n * k
    ensures i / k < n && i % k < k && i == (i / k) * k + i % k
  {
  }

  /**
   * Every generated option is a well-formed zero-padded clock string: option
   * i is hour h, minute j * step, where i = h * PerHour(step) + j.
   */
  lemma TimeOptionAt(step: nat, i: nat) returns (h: nat, j: nat)
    requires step > 0 && i < |TimeOptions(step)|
    ensures h < HoursPerDay && j < PerHour(step) && i == h * PerHour(step) + j
    ensures TimeOptions(step)[i] == Clock(h, j * step)
    ensures IsClock(TimeOptions(step)[i]) && ClockMinutes(TimeOptions(step)[i]) == h * 60 + j * step
  {
    RowsLength(HoursPerDay, step);
    h, j := RowColumn(i, HoursPerDay, PerHour(step));
    TimeOptionOfHour(step, h, j);
  }

  /** The options start at midnight, and the last one is before 24:00. */
  lemma TimeOptionsEnds(step: nat)
    requires step > 0
    ensures |TimeOptions(step)| > 0 && TimeOptions(step)[0] == "00:00"
    ensures IsClock(TimeOptions(step)[|TimeOptions(step)| - 1])
  {
    TimeOptionOfHour(step, 0, 0);
    assert TimeOptions(step)[0] == Clock(0, 0);
    ZeroClock();
    var _, _ := TimeOptionAt(step, |TimeOptions(step)| - 1);
  }

  lemma ZeroClock()
    ensures Clock(0, 0) == "00:00"
  {
    TwoDigits(0);
  }

  /** Minutes since midnight of hour h, step j, grow with (h, j) in lexicographic order. */
  lemma HourStepOrder(step: nat, h: nat, j: nat, h': nat, j': nat)
    requires step > 0 && j < PerHour(step) && j' < PerHour(step)
    requires h < h' || (h == h' && j < j')
    ensures h * 60 + j * step < h' * 60 + j' * step
  {
    StepsWithinHour(step, j);
    if h == h' {
      assert (j' - j) * step > 0;
    }
  }

  /** Row-major indices compare like (row, column) pairs. */
  lemma IndexOrder(h: nat, j: nat, h': nat, j': nat, k: nat)
    requires j < k && j' < k && h * k + j < h' * k + j'
    ensures h < h' || (h == h' && j < j')
  {
    if h > h' {
      MulStep(h, h', k);
    }
  }

  lemma MulStep(a: int, b: int, k: int)
    requires a > b && k >= 0
    ensures a * k >= b * k + k
  {
    assert a * k - b * k == (a - b) * k;
    assert (a - b - 1) * k >= 0;
  }

  /** An index below n * k is a row below n and a column below k. */
  lemma RowColumn(i: nat, n: nat, k: nat) returns (h: nat, j: nat)
    requires k > 0 && i < n * k
    ensures h < n && j < k && i == h * k + j
  {
    SplitIndex(i, n, k);
    h, j := i / k, i % k;
  }

  /** The options are strictly increasing, in minutes and as strings. */
  lemma TimeOptionsIncreasing(step: nat, i: nat, i': nat)
    requires step > 0 && i < i' < |TimeOptions(step)|
    ensures IsClock(TimeOptions(step)[i]) && IsClock(TimeOptions(step)[i'])
    ensures ClockMinutes(TimeOptions(step)[i]) < ClockMinutes(TimeOptions(step)[i'])
    ensures StrLt(TimeOptions(step)[i], TimeOptions(step)[i'])
  {
    var k := PerHour(step);
    RowsLength(HoursPerDay, step);
    var h, j := RowColumn(i, HoursPerDay, k);
    var h', j' := RowColumn(i', HoursPerDay, k);
    IndexOrder(h, j, h', j', k);
    TimeOptionOfHour(step, h, j);
    TimeOptionOfHour(step, h', j');
    HourStepOrder(step, h, j, h', j');
    ClockOrder(Clock(h, j * step), Clock(h', j' * step));
  }

  /** When the step divides the hour, PerHour(step) steps make exactly one hour. */
  lemma DividingStep(step: nat)
    requires step > 0 && 60 % step == 0
    ensures PerHour(step) * step == 60
  {
    var q := 60 / step;
    assert 60 == q * step;
    assert q >= 1;
    DivUnique(59, step, q - 1, step - 1);
  }

  /** Euclidean division has one quotient. */
  lemma DivUnique(n: int, d: int, q: int, r: int)
    requires d > 0 && n == q * d + r && 0 <= r < d
    ensures n / d == q
  {
    var q', r' := n / d, n % d;
    assert n == q' * d + r' && 0 <= r' < d;
    if q > q' {
      MulStep(q, q', d);
    } else if q < q' {
      MulStep(q', q, d);
    }
  }

  /** When the step divides the hour, the i-th option is exactly i * step minutes after midnight. */
  lemma TimeOptionMinutes(step: nat, i: nat)
    requires step > 0 && 60 % step == 0 && i < |TimeOptions(step)|
    ensures TimeToMinutes(TimeOptions(step)[i]) == Finite(i * step)
  {
    DividingStep(step);
    var h, j := TimeOptionAt(step, i);
    TimeToMinutesOfClock(TimeOptions(step)[i]);
    RowMajorScale(h, PerHour(step), j, step);
  }

  lemma RowMajorScale(h: int, k: int, j: int, step: int)
    requires k * step == 60
    ensures (h * k + j) * step == h * 60 + j * step
  {
    calc {
      (h * k + j) * step;
      h * (k * step) + j * step;
      h * 60 + j * step;
    }
  }

  // ---------------------------------------------------------------------------
  // `formatTimeDisplay`
  // ---------------------------------------------------------------------------

  /** The hour modulo twelve, with a zero or NaN result shown as 12. */
  function DisplayHour(hour: Num): (r: nat)
    requires hour.Finite? ==> hour.value >= 0
    ensures 1 <= r <= 12
    ensures hour.Finite? ==> r % 12 == hour.value % 12
  {
    if hour.NaN? || hour.value % 12 == 0 then 12 else hour.value % 12
  }

  /**
   * `formatTimeDisplay`: "" stays "", otherwise the 12-hour hour, the minutes
   * text as it stands after the first colon, and "AM" or "PM". A missing
   * minutes part prints as "undefined".
   */
  function FormatTimeDisplay(time: string): (r: string)
    ensures time == "" ==> r == ""
    ensures time != "" ==> |r| >= 3 && (r[|r| - 3..] == " AM" || r[|r| - 3..] == " PM")
  {
    if time == "" then ""
    else
      var parts := Split(time, ':');
      var hour := ParseInt(parts[0]);
      var minutes := if |parts| > 1 then parts[1] else "undefined";
      var ampm := if NumGe(hour, Finite(12)) then "PM" else "AM";
      NatToString(DisplayHour(hour)) + ":" + minutes + " " + ampm
  }

  /**
   * On a clock string the display is the hour modulo 12 (0 shown as 12), the
   * minutes copied unchanged, and "PM" exactly from 12:00 on.
   */
  lemma FormatClock(t: string)
    requires IsClock(t)
    ensures 1 <= DisplayHour(Finite(Hour(t))) <= 12
    ensures DisplayHour(Finite(Hour(t))) % 12 == Hour(t) % 12
    ensures FormatTimeDisplay(t) ==
      NatToString(DisplayHour(Finite(Hour(t)))) + ":" + t[3..] + " " + (if Hour(t) >= 12 then "PM" else "AM")
  {
    SplitClock(t);
    TwoDigitValue(t[..2]);
  }

  /**
   * The 12-hour hour case by case: 0 and 12 show as 12, 1 to 11 as
   * themselves, 13 to 23 as the hour less 12.
   */
  lemma DisplayHourCases(h: nat)
    requires h < 24
    ensures h == 0 || h == 12 ==> DisplayHour(Finite(h)) == 12
    ensures 1 <= h <= 11 ==> DisplayHour(Finite(h)) == h
    ensures 13 <= h ==> DisplayHour(Finite(h)) == h - 12
  {
    if 13 <= h {
      assert h % 12 == h - 12;
    }
  }

  // ---------------------------------------------------------------------------
  // Slots and the conflict check
  // ---------------------------------------------------------------------------

  datatype Slot = Slot(id: string, day: string, startTime: string, endTime: string, date: Option<string>)

  /** The half-open intervals [s1, e1) and [s2, e2) share a minute. */
  predicate Overlaps(s1: int, e1: int, s2: int, e2: int) {
    s1 < e2 && s2 < e1
  }

  /** Overlap does not depend on which interval comes first. */
  lemma OverlapsSymmetric(s1: int, e1: int, s2: int, e2: int)
    ensures Overlaps(s1, e1, s2, e2) <==> Overlaps(s2, e2, s1, e1)
  {
  }

  /** Intervals that only touch do not overlap. */
  lemma AbuttingIntervalsDoNotOverlap(s1: int, m: int, e2: int)
    ensures !Overlaps(s1, m, m, e2) && !Overlaps(m, e2, s1, m)
  {
  }

  /** `excludeId && slot.id === excludeId`: an empty id excludes nothing. */
  predicate Excluded(slot: Slot, excludeId: Option<string>) {
    excludeId.Some? && excludeId.value != "" && slot.id == excludeId.value
  }

  /** One step of the `some` callback: start and end are already in minutes. */
  predicate SlotConflicts(slot: Slot, selectedDay: string, start: Num, end: Num, excludeId: Option<string>) {
    !Excluded(slot, excludeId) && slot.day == selectedDay &&
    !(NumLe(end, TimeToMinutes(slot.startTime)) || NumGe(start, TimeToMinutes(slot.endTime)))
  }

  /** `timeSlots.some(...)`. */
  function AnyConflict(slots: seq<Slot>, selectedDay: string, start: Num, end: Num, excludeId: Option<string>): (r: bool)
    ensures r <==> exists i :: 0 <= i < |slots| && SlotConflicts(slots[i], selectedDay, start, end, excludeId)
  {
    if |slots| == 0 then false
    else
      SlotConflicts(slots[0], selectedDay, start, end, excludeId) ||
      AnyConflict(slots[1..], selectedDay, start, end, excludeId)
  }

  /** `isTimeConflicting(startTime, endTime, excludeId)` against the slots on `selectedDay`. */
  function IsTimeConflicting(timeSlots: seq<Slot>, selectedDay: string, startTime: string, endTime: string,
                             excludeId: Option<string>): (r: bool)
    ensures r <==> exists i :: (0 <= i < |timeSlots| &&
      SlotConflicts(timeSlots[i], selectedDay, TimeToMinutes(startTime), TimeToMinutes(endTime), excludeId))
  {
    AnyConflict(timeSlots, selectedDay, TimeToMinutes(startTime), TimeToMinutes(endTime), excludeId)
  }

  predicate WellFormedSlot(slot: Slot) {
    IsClock(slot.startTime) && IsClock(slot.endTime)
  }

  /**
   * With well-formed times a slot conflicts exactly when it is not the one
   * excluded, lies on the selected day, and its half-open interval overlaps
   * [start, end).
   */
  lemma ConflictIsOverlap(slot: Slot, selectedDay: string, startTime: string, endTime: string,
                          excludeId: Option<string>)
    requires WellFormedSlot(slot) && IsClock(startTime) && IsClock(endTime)
    ensures SlotConflicts(slot, selectedDay, TimeToMinutes(startTime), TimeToMinutes(endTime), excludeId) <==>
      !Excluded(slot, excludeId) && slot.day == selectedDay &&
      Overlaps(ClockMinutes(startTime), ClockMinutes(endTime),
               ClockMinutes(slot.startTime), ClockMinutes(slot.endTime))
  {
    TimeToMinutesOfClock(startTime);
    TimeToMinutesOfClock(endTime);
    TimeToMinutesOfClock(slot.startTime);
    TimeToMinutesOfClock(slot.endTime);
  }

  /**
   * A saved slot whose times do not read as numbers compares false with
   * everything, so it conflicts with every candidate on its day.
   */
  lemma UnreadableSlotConflicts(slot: Slot, selectedDay: string, start: Num, end: Num, excludeId: Option<string>)
    requires TimeToMinutes(slot.startTime).NaN? && TimeToMinutes(slot.endTime).NaN?
    requires slot.day == selectedDay && !Excluded(slot, excludeId)
    ensures SlotConflicts(slot, selectedDay, start, end, excludeId)
  {
  }

  // ---------------------------------------------------------------------------
  // List operations
  // ---------------------------------------------------------------------------

  /**
   * Every slot carrying the id gets the new start and end; the others are kept:
   * same length and order; every slot keeps its id, day and date; slots with
   * that id get the new times and all others are untouched.
   */
  function UpdateSlotTimes(slots: seq<Slot>, id: string, startTime: string, endTime: string): (r: seq<Slot>)
    ensures |r| == |slots|
    ensures forall i :: 0 <= i < |slots| ==>
      r[i].id == slots[i].id && r[i].day == slots[i].day && r[i].date == slots[i].date
    ensures forall i :: 0 <= i < |slots| && slots[i].id != id ==> r[i] == slots[i]
    ensures forall i :: 0 <= i < |slots| && slots[i].id == id ==>
      r[i].startTime == startTime && r[i].endTime == endTime
  {
    if |slots| == 0 then []
    else
      var s := slots[0];
      var rest := UpdateSlotTimes(slots[1..], id, startTime, endTime);
      assert forall i :: 1 <= i < |slots| ==> slots[i] == slots[1..][i - 1];
      [if s.id == id then s.(startTime := startTime, endTime := endTime) else s] + rest
  }

  /** The slots whose id differs from the given one, in their order. */
  function RemoveSlots(slots: seq<Slot>, id: string): (r: seq<Slot>)
    ensures |r| <= |slots|
    ensures forall i :: 0 <= i < |r| ==> r[i].id != id
  {
    if |slots| == 0 then []
    else (if slots[0].id == id then [] else [slots[0]]) + RemoveSlots(slots[1..], id)
  }

  /** Every slot with that id goes, every other slot stays with its multiplicity. */
  lemma {:induction false} RemoveSlotsCount(slots: seq<Slot>, id: string)
    ensures forall s :: multiset(RemoveSlots(slots, id))[s] == if s.id == id then 0 else multiset(slots)[s]
  {
    if |slots| > 0 {
      RemoveSlotsCount(slots[1..], id);
      assert slots == [slots[0]] + slots[1..];
    }
  }

  /** Removal keeps the order of what is left: it distributes over concatenation. */
  lemma {:induction false} RemoveSlotsAppend(a: seq<Slot>, b: seq<Slot>, id: string)
    ensures RemoveSlots(a + b, id) == RemoveSlots(a, id) + RemoveSlots(b, id)
  {
    if |a| > 0 {
      var head := if a[0].id == id then [] else [a[0]];
      assert (a + b)[0] == a[0] && (a + b)[1..] == a[1..] + b;
      RemoveSlotsAppend(a[1..], b, id);
      assert RemoveSlots(a + b, id) == head + RemoveSlots(a[1..] + b, id);
      assert RemoveSlots(a, id) == head + RemoveSlots(a[1..], id);
    } else {
      assert a + b == b;
    }
  }

  /** Removing an id no slot carries changes nothing. */
  lemma {:induction false} RemoveAbsentSlot(slots: seq<Slot>, id: string)
    requires forall i :: 0 <= i < |slots| ==> slots[i].id != id
    ensures RemoveSlots(slots, id) == slots
  {
    if |slots| > 0 {
      RemoveAbsentSlot(slots[1..], id);
      assert [slots[0]] + slots[1..] == slots;
    }
  }

  // ---------------------------------------------------------------------------
  // `addOrUpdateSlot` as a function of its inputs
  // ---------------------------------------------------------------------------

  const EndNotAfterStartMessage := "End time must be after start time"
  const ConflictMessage := "This time slot conflicts with an existing slot"

  /** What the user sees besides the list: nothing, or a toast. */
  datatype Notice = Silent | Toast(message: string)

  /** Ignored: returned before validation; Rejected: a toast and no `onChange`; Saved: the list given to `onChange`. */
  datatype Submission = Ignored | Rejected(message: string) | Saved(slots: seq<Slot>)

  /** `if (editingSlotId)`: an empty id is falsy, so it does not count as editing. */
  predicate Editing(editingSlotId: Option<string>) {
    editingSlotId.Some? && editingSlotId.value != ""
  }

  /** `editingSlotId || undefined`. */
  function ExcludeIdOf(editingSlotId: Option<string>): (r: Option<string>)
    ensures r.Some? <==> Editing(editingSlotId)
    ensures r.Some? ==> r == editingSlotId
  {
    if Editing(editingSlotId) then editingSlotId else None
  }

  /**
   * The outcome of `addOrUpdateSlot` for the pending start and end: nothing
   * when either is empty, a toast when end <= start as strings or when the
   * interval conflicts on `selectedDay`, otherwise the updated or extended list.
   */
  function Submit(timeSlots: seq<Slot>, selectedDay: string, start: string, end: string,
                  editingSlotId: Option<string>, freshId: string): (o: Submission)
    ensures o.Ignored? <==> start == "" || end == ""
    ensures o == Rejected(EndNotAfterStartMessage) <==> start != "" && end != "" && StrLe(end, start)
    ensures o.Rejected? ==> o.message in {EndNotAfterStartMessage, ConflictMessage}
    ensures o.Saved? ==> (!StrLe(end, start) &&
      !IsTimeConflicting(timeSlots, selectedDay, start, end, ExcludeIdOf(editingSlotId)))
  {
    if start == "" || end == "" then Ignored
    else if StrLe(end, start) then Rejected(EndNotAfterStartMessage)
    else if IsTimeConflicting(timeSlots, selectedDay, start, end, ExcludeIdOf(editingSlotId)) then
      Rejected(ConflictMessage)
    else if Editing(editingSlotId) then
      Saved(UpdateSlotTimes(timeSlots, editingSlotId.value, start, end))
    else
      Saved(timeSlots + [Slot(freshId, selectedDay, start, end, None)])
  }

  /**
   * A successful update keeps the list's length and order and every slot's id
   * and day, and moves only the slots with the edited id to the new times.
   */
  lemma SubmitUpdateInPlace(timeSlots: seq<Slot>, selectedDay: string, start: string, end: string,
                            editingSlotId: Option<string>, freshId: string)
    requires Editing(editingSlotId)
    requires Submit(timeSlots, selectedDay, start, end, editingSlotId, freshId).Saved?
    ensures var r := Submit(timeSlots, selectedDay, start, end, editingSlotId, freshId).slots;
      |r| == |timeSlots| &&
      (forall i :: 0 <= i < |r| ==> r[i].id == timeSlots[i].id && r[i].day == timeSlots[i].day) &&
      (forall i :: 0 <= i < |r| && timeSlots[i].id != editingSlotId.value ==> r[i] == timeSlots[i]) &&
      (forall i :: 0 <= i < |r| && timeSlots[i].id == editingSlotId.value ==>
        r[i] == timeSlots[i].(startTime := start, endTime := end))
  {
  }

  /** A successful add returns the old list followed by exactly one new slot on `selectedDay`. */
  lemma SubmitAddAppends(timeSlots: seq<Slot>, selectedDay: string, start: string, end: string,
                         editingSlotId: Option<string>, freshId: string)
    requires !Editing(editingSlotId)
    requires Submit(timeSlots, selectedDay, start, end, editingSlotId, freshId).Saved?
    ensures var r := Submit(timeSlots, selectedDay, start, end, editingSlotId, freshId).slots;
      |r| == |timeSlots| + 1 && r[..|timeSlots|] == timeSlots &&
      r[|timeSlots|] == Slot(freshId, selectedDay, start, end, None)
  {
  }

  predicate WellFormedSlots(slots: seq<Slot>) {
    forall i :: 0 <= i < |slots| ==> WellFormedSlot(slots[i])
  }

  /** Two well-formed slots on the same day whose intervals overlap. */
  predicate SlotsClash(a: Slot, b: Slot)
    requires WellFormedSlot(a) && WellFormedSlot(b)
  {
    a.day == b.day &&
    Overlaps(ClockMinutes(a.startTime), ClockMinutes(a.endTime), ClockMinutes(b.startTime), ClockMinutes(b.endTime))
  }

  /** No two slots on the same day overlap. */
  predicate NoClashes(slots: seq<Slot>)
    requires WellFormedSlots(slots)
  {
    forall i, j :: 0 <= i < |slots| && 0 <= j < |slots| && i != j ==> !SlotsClash(slots[i], slots[j])
  }

  predicate UniqueIds(slots: seq<Slot>) {
    forall i, j :: 0 <= i < |slots| && 0 <= j < |slots| && i != j ==> slots[i].id != slots[j].id
  }

  /** The candidate interval [start, end) overlaps no slot on `day` except those with id `except`. */
  predicate FreeOnDay(slots: seq<Slot>, day: string, start: string, end: string, except: Option<string>)
    requires WellFormedSlots(slots) && IsClock(start) && IsClock(end)
  {
    forall i :: 0 <= i < |slots| && !(except.Some? && slots[i].id == except.value) && slots[i].day == day ==>
      !Overlaps(ClockMinutes(slots[i].startTime), ClockMinutes(slots[i].endTime), ClockMinutes(start), ClockMinutes(end))
  }

  /**
   * Moving the slot with a given id to an interval that overlaps nothing else
   * on its day keeps a clash-free list with unique ids clash-free.
   */
  lemma UpdateKeepsClashFree(timeSlots: seq<Slot>, id: string, day: string, start: string, end: string)
    requires WellFormedSlots(timeSlots) && NoClashes(timeSlots) && UniqueIds(timeSlots)
    requires IsClock(start) && IsClock(end)
    requires forall i :: 0 <= i < |timeSlots| && timeSlots[i].id == id ==> timeSlots[i].day == day
    requires FreeOnDay(timeSlots, day, start, end, Some(id))
    ensures WellFormedSlots(UpdateSlotTimes(timeSlots, id, start, end))
    ensures NoClashes(UpdateSlotTimes(timeSlots, id, start, end))
  {
    var r := UpdateSlotTimes(timeSlots, id, start, end);
    forall i, j | 0 <= i < |r| && 0 <= j < |r| && i != j
      ensures !SlotsClash(r[i], r[j])
    {
      if timeSlots[i].id == id {
        assert timeSlots[j].id != id;
      } else if timeSlots[j].id != id {
        assert !SlotsClash(timeSlots[i], timeSlots[j]);
      }
    }
  }

  /** Appending a slot that overlaps nothing on its day keeps a clash-free list clash-free. */
  lemma AddKeepsClashFree(timeSlots: seq<Slot>, added: Slot)
    requires WellFormedSlots(timeSlots) && NoClashes(timeSlots) && WellFormedSlot(added)
    requires FreeOnDay(timeSlots, added.day, added.startTime, added.endTime, None)
    ensures WellFormedSlots(timeSlots + [added]) && NoClashes(timeSlots + [added])
  {
    var r := timeSlots + [added];
    assert WellFormedSlots(r);
    forall i, j | 0 <= i < |r| && 0 <= j < |r| && i != j
      ensures !SlotsClash(r[i], r[j])
    {
      if i < |timeSlots| && j < |timeSlots| {
        assert !SlotsClash(timeSlots[i], timeSlots[j]);
      }
    }
  }

  /**
   * A save never introduces two overlapping slots on one day, provided the
   * list was clash-free with unique ids and the slot being edited lies on
   * `selectedDay` (the check looks only at `selectedDay`, not at the edited
   * slot's own day).
   */
  lemma SubmitKeepsDaysClashFree(timeSlots: seq<Slot>, selectedDay: string, start: string, end: string,
                                 editingSlotId: Option<string>, freshId: string)
    requires WellFormedSlots(timeSlots) && NoClashes(timeSlots) && UniqueIds(timeSlots)
    requires IsClock(start) && IsClock(end)
    requires Editing(editingSlotId) ==>
      forall i :: 0 <= i < |timeSlots| && timeSlots[i].id == editingSlotId.value ==> timeSlots[i].day == selectedDay
    requires Submit(timeSlots, selectedDay, start, end, editingSlotId, freshId).Saved?
    ensures var r := Submit(timeSlots, selectedDay, start, end, editingSlotId, freshId).slots;
      WellFormedSlots(r) && NoClashes(r)
  {
    var ex := ExcludeIdOf(editingSlotId);
    assert !IsTimeConflicting(timeSlots, selectedDay, start, end, ex);
    forall i | 0 <= i < |timeSlots|
      ensures !SlotConflicts(timeSlots[i], selectedDay, TimeToMinutes(start), TimeToMinutes(end), ex)
    {
    }
    forall i | 0 <= i < |timeSlots| && !Excluded(timeSlots[i], ex) && timeSlots[i].day == selectedDay
      ensures !Overlaps(ClockMinutes(timeSlots[i].startTime), ClockMinutes(timeSlots[i].endTime),
                        ClockMinutes(start), ClockMinutes(end))
    {
      ConflictIsOverlap(timeSlots[i], selectedDay, start, end, ex);
    }
    if Editing(editingSlotId) {
      assert FreeOnDay(timeSlots, selectedDay, start, end, editingSlotId);
      UpdateKeepsClashFree(timeSlots, editingSlotId.value, selectedDay, start, end);
    } else {
      assert FreeOnDay(timeSlots, selectedDay, start, end, None);
      AddKeepsClashFree(timeSlots, Slot(freshId, selectedDay, start, end, None));
    }
  }

  /** For clock strings, the "end after start" guard refuses exactly the intervals that do not move forward. */
  lemma SubmitRejectsBackwards(timeSlots: seq<Slot>, selectedDay: string, start: string, end: string,
                               editingSlotId: Option<string>, freshId: string)
    requires IsClock(start) && IsClock(end)
    ensures Submit(timeSlots, selectedDay, start, end, editingSlotId, freshId) == Rejected(EndNotAfterStartMessage) <==>
      ClockMinutes(end) <= ClockMinutes(start)
  {
    ClockOrder(end, start);
  }

  /** A forward interval that overlaps a slot on `selectedDay`, other than the one being edited, is refused. */
  lemma SubmitRejectsOverlap(timeSlots: seq<Slot>, selectedDay: string, start: string, end: string,
                             editingSlotId: Option<string>, freshId: string, i: nat)
    requires IsClock(start) && IsClock(end) && ClockMinutes(start) < ClockMinutes(end)
    requires i < |timeSlots| && WellFormedSlot(timeSlots[i])
    requires timeSlots[i].day == selectedDay && !Excluded(timeSlots[i], ExcludeIdOf(editingSlotId))
    requires Overlaps(ClockMinutes(start), ClockMinutes(end),
                      ClockMinutes(timeSlots[i].startTime), ClockMinutes(timeSlots[i].endTime))
    ensures Submit(timeSlots, selectedDay, start, end, editingSlotId, freshId) == Rejected(ConflictMessage)
  {
    ClockOrder(end, start);
    ConflictIsOverlap(timeSlots[i], selectedDay, start, end, ExcludeIdOf(editingSlotId));
  }

  /**
   * A forward interval that overlaps no slot on `selectedDay` (the edited one
   * aside) is saved, whatever lies on other days.
   */
  lemma SubmitSavesWhenFree(timeSlots: seq<Slot>, selectedDay: string, start: string, end: string,
                            editingSlotId: Option<string>, freshId: string)
    requires WellFormedSlots(timeSlots) && IsClock(start) && IsClock(end)
    requires ClockMinutes(start) < ClockMinutes(end)
    requires FreeOnDay(timeSlots, selectedDay, start, end, ExcludeIdOf(editingSlotId))
    ensures Submit(timeSlots, selectedDay, start, end, editingSlotId, freshId).Saved?
  {
    ClockOrder(end, start);
    var ex := ExcludeIdOf(editingSlotId);
    forall i | 0 <= i < |timeSlots|
      ensures !SlotConflicts(timeSlots[i], selectedDay, TimeToMinutes(start), TimeToMinutes(end), ex)
    {
      ConflictIsOverlap(timeSlots[i], selectedDay, start, end, ex);
    }
  }

  /**
   * The check compares against `selectedDay`, not the edited slot's own day:
   * with another day selected, slot a can be moved onto slot c of its own day,
   * and the saved list holds two overlapping slots on that day.
   */
  lemma EditIsCheckedAgainstSelectedDay(a: Slot, c: Slot, selectedDay: string, start: string, end: string,
                                        freshId: string)
    requires WellFormedSlot(a) && WellFormedSlot(c) && IsClock(start) && IsClock(end)
    requires a.id != "" && a.id != c.id && a.day == c.day && a.day != selectedDay
    requires ClockMinutes(start) < ClockMinutes(end)
    requires Overlaps(ClockMinutes(start), ClockMinutes(end), ClockMinutes(c.startTime), ClockMinutes(c.endTime))
    ensures var o := Submit([a, c], selectedDay, start, end, Some(a.id), freshId);
      o.Saved? && WellFormedSlots(o.slots) && |o.slots| == 2 && SlotsClash(o.slots[0], o.slots[1])
  {
    SubmitSavesWhenFree([a, c], selectedDay, start, end, Some(a.id), freshId);
    var o := Submit([a, c], selectedDay, start, end, Some(a.id), freshId);
    assert o.slots[0] == a.(startTime := start, endTime := end);
    assert o.slots[1] == c;
  }

  // ---------------------------------------------------------------------------
  // What the editor shows
  // ---------------------------------------------------------------------------

  /** The label of the first duration option with the selected step, or "Select duration" when none has it. */
  function DurationLabel(duration: nat): (r: string)
    ensures (duration == 15 || duration == 30 || duration == 60) <==> r != "Select duration"
    ensures r != "Select duration" ==> r == NatToString(duration) + " minutes"
  {
    if duration == 15 then "15 minutes"
    else if duration == 30 then "30 minutes"
    else if duration == 60 then "60 minutes"
    else "Select duration"
  }

  /** The start or end trigger: the formatted time, or "Select time" while nothing is chosen. */
  function TriggerText(time: string): (r: string)
    ensures time == "" <==> r == "Select time"
  {
    if time != "" then FormatTimeDisplay(time) else "Select time"
  }

  /** Once a start is chosen, end options at or before it (as strings) are disabled; before that none is. */
  predicate EndOptionDisabled(newStartTime: string, time: string) {
    newStartTime != "" && StrLe(time, newStartTime)
  }

  /**
   * With a start chosen, exactly the end options that are not later than the
   * start are disabled; with no start, none is. An enabled end option always
   * passes the "end after start" guard of `addOrUpdateSlot`.
   */
  lemma EndOptionsAfterStart(newStartTime: string, time: string)
    requires IsClock(time) && (newStartTime == "" || IsClock(newStartTime))
    ensures newStartTime == "" ==> !EndOptionDisabled(newStartTime, time)
    ensures newStartTime != "" ==>
      (EndOptionDisabled(newStartTime, time) <==> ClockMinutes(time) <= ClockMinutes(newStartTime))
    ensures newStartTime != "" && !EndOptionDisabled(newStartTime, time) ==> !StrLe(time, newStartTime)
  {
    if newStartTime != "" {
      ClockOrder(time, newStartTime);
    }
  }

  /**
   * An end option equal to the chosen start is disabled, and submitting that
   * same time as start and end is refused with the "end after start" toast.
   */
  lemma EqualEndIsDisabledAndRejected(timeSlots: seq<Slot>, selectedDay: string, time: string,
                                      editingSlotId: Option<string>, freshId: string)
    requires time != ""
    ensures EndOptionDisabled(time, time)
    ensures Submit(timeSlots, selectedDay, time, time, editingSlotId, freshId) == Rejected(EndNotAfterStartMessage)
  {
    StrLtIrreflexive(time);
  }

  /** The save button is disabled while the start or the end is still empty; its label follows edit mode. */
  predicate SaveButtonDisabled(newStartTime: string, newEndTime: string) {
    newStartTime == "" || newEndTime == ""
  }

  function SaveButtonLabel(editingSlotId: Option<string>): (r: string)
    ensures r == "Update Slot" <==> Editing(editingSlotId)
  {
    if Editing(editingSlotId) then "Update Slot" else "Add Slot"
  }

  /** A disabled save button is exactly the case in which `addOrUpdateSlot` would do nothing. */
  lemma DisabledButtonMeansIgnored(timeSlots: seq<Slot>, selectedDay: string, start: string, end: string,
                                   editingSlotId: Option<string>, freshId: string)
    ensures SaveButtonDisabled(start, end) <==> Submit(timeSlots, selectedDay, start, end, editingSlotId, freshId).Ignored?
  {
  }

  // ---------------------------------------------------------------------------
  // The editor's own state
  // ---------------------------------------------------------------------------

  /** The `useState` fields of the picker. */
  class SlotEditor {
    var newStartTime: string
    var newEndTime: string
    var selectedDuration: nat
    var isStartOpen: bool
    var isEndOpen: bool
    var isDurationOpen: bool
    var editingSlotId: Option<string>

    /** The duration is always one of the drop-down's choices. */
    predicate Valid()
      reads this
    {
      selectedDuration == 15 || selectedDuration == 30 || selectedDuration == 60
    }

    /** Nothing pending, 30-minute steps, every list closed, not editing. */
    constructor ()
      ensures Valid()
      ensures newStartTime == "" && newEndTime == "" && selectedDuration == 30
      ensures !isStartOpen && !isEndOpen && !isDurationOpen && editingSlotId == None
    {
      newStartTime, newEndTime := "", "";
      selectedDuration := 30;
      isStartOpen, isEndOpen, isDurationOpen := false, false, false;
      editingSlotId := None;
    }

    /** `TIME_OPTIONS`: the selectable times at the current duration. */
    method CurrentTimeOptions() returns (options: seq<string>)
      requires Valid()
      ensures options == TimeOptions(selectedDuration)
      ensures |options| == 24 * (60 / selectedDuration)
    {
      options := GenerateTimeOptions(selectedDuration);
      DurationOptionCounts();
    }

    /**
     * `addOrUpdateSlot`: `emitted` is what goes to `onChange` and `notice` the
     * toast. A refused or ignored save changes nothing; a saved one clears the
     * pending times, closes the start and end lists, and ends edit mode.
     */
    method AddOrUpdateSlot(timeSlots: seq<Slot>, selectedDay: string, freshId: string)
      returns (emitted: Option<seq<Slot>>, notice: Notice)
      modifies this
      ensures var o := Submit(timeSlots, selectedDay, old(newStartTime), old(newEndTime), old(editingSlotId), freshId);
        && emitted == (if o.Saved? then Some(o.slots) else None)
        && notice == (if o.Rejected? then Toast(o.message) else Silent)
        && (!o.Saved? ==> unchanged(this))
        && (o.Saved? ==>
              && newStartTime == "" && newEndTime == "" && !isStartOpen && !isEndOpen
              && editingSlotId == (if Editing(old(editingSlotId)) then None else old(editingSlotId))
              && selectedDuration == old(selectedDuration) && isDurationOpen == old(isDurationOpen))
    {
      if newStartTime == "" || newEndTime == "" {
        return None, Silent;
      }
      if StrLe(newEndTime, newStartTime) {
        return None, Toast(EndNotAfterStartMessage);
      }
      if IsTimeConflicting(timeSlots, selectedDay, newStartTime, newEndTime, ExcludeIdOf(editingSlotId)) {
        return None, Toast(ConflictMessage);
      }
      if Editing(editingSlotId) {
        emitted := Some(UpdateSlotTimes(timeSlots, editingSlotId.value, newStartTime, newEndTime));
        editingSlotId := None;
      } else {
        emitted := Some(timeSlots + [Slot(freshId, selectedDay, newStartTime, newEndTime, None)]);
      }
      notice := Silent;
      newStartTime, newEndTime := "", "";
      isStartOpen, isEndOpen := false, false;
    }

    /** `handleStartTimeSelect`. */
    method SelectStartTime(time: string)
      modifies this
      ensures newStartTime == time && !isStartOpen
      ensures newEndTime == old(newEndTime) && editingSlotId == old(editingSlotId)
      ensures selectedDuration == old(selectedDuration)
      ensures isEndOpen == old(isEndOpen) && isDurationOpen == old(isDurationOpen)
    {
      newStartTime := time;
      isStartOpen := false;
    }

    /** A click on an end option: ignored when the option is disabled, else `handleEndTimeSelect`. */
    method ClickEndOption(time: string)
      modifies this
      ensures EndOptionDisabled(old(newStartTime), time) ==> unchanged(this)
      ensures !EndOptionDisabled(old(newStartTime), time) ==> newEndTime == time && !isEndOpen
      ensures !EndOptionDisabled(old(newStartTime), time) ==>
        newStartTime == old(newStartTime) && editingSlotId == old(editingSlotId) &&
        selectedDuration == old(selectedDuration) && isStartOpen == old(isStartOpen) &&
        isDurationOpen == old(isDurationOpen)
    {
      if !EndOptionDisabled(newStartTime, time) {
        newEndTime := time;
        isEndOpen := false;
      }
    }

    /**
     * `handleDurationSelect`: the new step, its list closed, the pending times
     * cleared, and the parent told of the duration when it listens. The slot
     * list is neither read nor handed on.
     */
    method SelectDuration(duration: nat, parentListens: bool) returns (notified: Option<nat>)
      requires duration == 15 || duration == 30 || duration == 60
      modifies this
      ensures Valid()
      ensures selectedDuration == duration && !isDurationOpen && newStartTime == "" && newEndTime == ""
      ensures editingSlotId == old(editingSlotId) && isStartOpen == old(isStartOpen) && isEndOpen == old(isEndOpen)
      ensures notified == if parentListens then Some(duration) else None
    {
      selectedDuration := duration;
      isDurationOpen := false;
      newStartTime, newEndTime := "", "";
      notified := if parentListens then Some(duration) else None;
    }

    /**
     * `removeTimeSlot`: the list without the slots carrying that id goes to
     * `onChange`; if that id was being edited, edit mode ends and the pending
     * times are cleared, otherwise the editor is untouched.
     */
    method RemoveTimeSlot(timeSlots: seq<Slot>, id: string) returns (emitted: seq<Slot>)
      modifies this
      ensures emitted == RemoveSlots(timeSlots, id)
      ensures old(editingSlotId) == Some(id) ==>
        editingSlotId == None && newStartTime == "" && newEndTime == "" &&
        selectedDuration == old(selectedDuration) && isStartOpen == old(isStartOpen) &&
        isEndOpen == old(isEndOpen) && isDurationOpen == old(isDurationOpen)
      ensures old(editingSlotId) != Some(id) ==> unchanged(this)
    {
      emitted := RemoveSlots(timeSlots, id);
      if editingSlotId == Some(id) {
        editingSlotId := None;
        newStartTime, newEndTime := "", "";
      }
    }

    /** `startEdit`: load the slot's times into the inputs and remember its id. */
    method StartEdit(slot: Slot)
      modifies this
      ensures editingSlotId == Some(slot.id) && newStartTime == slot.startTime && newEndTime == slot.endTime
      ensures !isStartOpen && isEndOpen == old(isEndOpen) && isDurationOpen == old(isDurationOpen)
      ensures selectedDuration == old(selectedDuration)
    {
      editingSlotId := Some(slot.id);
      newStartTime, newEndTime := slot.startTime, slot.endTime;
      isStartOpen := false;
    }

    /** The duration trigger flips its list. */
    method ToggleDurationList()
      modifies this`isDurationOpen
      ensures isDurationOpen == !old(isDurationOpen)
    {
      isDurationOpen := !isDurationOpen;
    }

    /** The start trigger flips its list. */
    method ToggleStartList()
      modifies this`isStartOpen
      ensures isStartOpen == !old(isStartOpen)
    {
      isStartOpen := !isStartOpen;
    }

    /** The end trigger flips its list. */
    method ToggleEndList()
      modifies this`isEndOpen
      ensures isEndOpen == !old(isEndOpen)
    {
      isEndOpen := !isEndOpen;
    }

    /**
     * The click-outside layer, present while the start or duration list is
     * open, closes those two; the end list is not among them.
     */
    method ClickOutside()
      requires isStartOpen || isDurationOpen
      modifies this`isStartOpen, this`isDurationOpen
      ensures !isStartOpen && !isDurationOpen
    {
      isStartOpen, isDurationOpen := false, false;
    }
  }

  /**
   * Editing a slot and saving it unchanged gives back the same list: the
   * slot's own interval is excluded from the check. Requires unique ids,
   * well-formed times, start before end, and the slot on `selectedDay`
   * clash-free against the others.
   */
  lemma ResaveUnchanged(timeSlots: seq<Slot>, k: nat, selectedDay: string, freshId: string)
    requires k < |timeSlots| && UniqueIds(timeSlots) && WellFormedSlots(timeSlots) && NoClashes(timeSlots)
    requires timeSlots[k].id != "" && timeSlots[k].day == selectedDay
    requires ClockMinutes(timeSlots[k].startTime) < ClockMinutes(timeSlots[k].endTime)
    ensures Submit(timeSlots, selectedDay, timeSlots[k].startTime, timeSlots[k].endTime,
                   Some(timeSlots[k].id), freshId) == Saved(timeSlots)
  {
    var s := timeSlots[k];
    ClockOrder(s.endTime, s.startTime);
    forall i | 0 <= i < |timeSlots|
      ensures !SlotConflicts(timeSlots[i], selectedDay, TimeToMinutes(s.startTime), TimeToMinutes(s.endTime), Some(s.id))
    {
      ConflictIsOverlap(timeSlots[i], selectedDay, s.startTime, s.endTime, Some(s.id));
      if i != k {
        assert !SlotsClash(timeSlots[i], timeSlots[k]);
      }
    }
    var r := UpdateSlotTimes(timeSlots, s.id, s.startTime, s.endTime);
    assert forall i :: 0 <= i < |r| ==> r[i] == timeSlots[i];
  }
}
