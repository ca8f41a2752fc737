/**
 Change windows and freezes (apps/api/app/schedule.py) over integer local time.

 A moment is a number of microseconds, a day is moment / DAY, and day 0 is a Monday.
 */
module Schedule {
  import opened Wrappers

  const DAY: int := 86_400_000_000
  const HORIZON: int := 14

  type Clock = c: int | 0 <= c < DAY

  datatype Window = Window(days: set<int>, start: Clock, end: Clock)

  datatype Freeze = Freeze(first: int, last: int)

  datatype ChangeSchedule = ChangeSchedule(windows: seq<Window>, freezes: seq<Freeze>)

  datatype Decision =
    | Open
    | Frozen(freeze: Freeze, nextOpenDay: int)
    | Closed(nextOpen: Option<int>)

  function Weekday(day: int): int {
    day % 7
  }

  function DayOf(moment: int): int {
    moment / DAY
  }

  function ClockOf(moment: int): Clock {
    moment % DAY
  }

  predicate Wraps(w: Window) {
    w.end <= w.start
  }

  /** The part after midnight counts by the weekday before. */
  predicate Contains(w: Window, moment: int) {
    var weekday, clock := Weekday(DayOf(moment)), ClockOf(moment);
    if !Wraps(w) then weekday in w.days && w.start <= clock < w.end
    else (weekday in w.days && clock >= w.start) || (Weekday(weekday - 1) in w.days && clock < w.end)
  }

  predicate Covering(freezes: seq<Freeze>, day: int, k: int)
    requires 0 <= k < |freezes|
  {
    freezes[k].first <= day <= freezes[k].last
  }

  /** Freeze k is the first in the list that covers the day. */
  ghost predicate FirstCovering(freezes: seq<Freeze>, day: int, k: int) {
    0 <= k < |freezes| && Covering(freezes, day, k) && forall j | 0 <= j < k :: !Covering(freezes, day, j)
  }

  function FrozenBy(freezes: seq<Freeze>, day: int): (r: Option<Freeze>)
    ensures r.Some? ==> exists k :: FirstCovering(freezes, day, k) && r.value == freezes[k]
    ensures r.None? ==> forall i | 0 <= i < |freezes| :: !Covering(freezes, day, i)
  {
    if freezes == [] then None
    else if freezes[0].first <= day <= freezes[0].last then
      assert FirstCovering(freezes, day, 0);
      Some(freezes[0])
    else
      var rest := freezes[1..];
      assert forall i | 0 < i < |freezes| :: Covering(freezes, day, i) == Covering(rest, day, i - 1);
      assert !Covering(freezes, day, 0);
      assert forall k | FirstCovering(rest, day, k) :: FirstCovering(freezes, day, k + 1) && rest[k] == freezes[k + 1];
      FrozenBy(rest, day)
  }

  predicate IsFrozen(s: ChangeSchedule, day: int) {
    FrozenBy(s.freezes, day).Some?
  }

  predicate InSomeWindow(s: ChangeSchedule, moment: int) {
    exists i | 0 <= i < |s.windows| :: Contains(s.windows[i], moment)
  }

  predicate IsOpen(s: ChangeSchedule, moment: int) {
    !IsFrozen(s, DayOf(moment)) && (s.windows == [] || InSomeWindow(s, moment))
  }

  /** A window starts on this day, today or in the fourteen days that follow, after `now`, and the day is not frozen. */
  ghost predicate IsStart(s: ChangeSchedule, now: int, day: int, i: int)
  {
    && DayOf(now) <= day <= DayOf(now) + 14
    && !IsFrozen(s, day)
    && 0 <= i < |s.windows|
    && Weekday(day) in s.windows[i].days
    && day * DAY + s.windows[i].start > now
  }

  ghost predicate IsCandidate(s: ChangeSchedule, now: int, c: int) {
    exists day, i :: IsStart(s, now, day, i) && c == StartOf(s, day, i)
  }

  function StartOf(s: ChangeSchedule, day: int, i: int): int
    requires 0 <= i < |s.windows|
  {
    day * DAY + s.windows[i].start
  }

  /** The least start, or nothing when there is none. */
  ghost predicate IsLeastStart(s: ChangeSchedule, now: int, r: Option<int>) {
    && (r.Some? ==> IsCandidate(s, now, r.value))
    && (forall day, i | IsStart(s, now, day, i) :: r.Some? && r.value <= StartOf(s, day, i))
  }

  ghost predicate OnlyStarts(s: ChangeSchedule, now: int, candidates: seq<int>) {
    forall k | 0 <= k < |candidates| :: IsCandidate(s, now, candidates[k])
  }

  /** All starts of the day's first n windows are among the candidates. */
  ghost predicate ListsStarts(s: ChangeSchedule, now: int, day: int, n: int, candidates: seq<int>) {
    forall i | IsStart(s, now, day, i) && i < n :: StartOf(s, day, i) in candidates
  }

  /** The candidates of one day, added to those already found. */
  method DayCandidates(s: ChangeSchedule, now: int, day: int, found: seq<int>) returns (candidates: seq<int>)
    requires DayOf(now) <= day <= DayOf(now) + 14 && !IsFrozen(s, day)
    requires OnlyStarts(s, now, found)
    ensures OnlyStarts(s, now, candidates) && ListsStarts(s, now, day, |s.windows|, candidates)
    ensures forall c | c in found :: c in candidates
  {
    candidates := found;
    for i := 0 to |s.windows|
      invariant OnlyStarts(s, now, candidates) && ListsStarts(s, now, day, i, candidates)
      invariant forall c | c in found :: c in candidates
    {
      var candidate := StartOf(s, day, i);
      if Weekday(day) in s.windows[i].days && candidate > now {
        assert IsStart(s, now, day, i);
        candidates := candidates + [candidate];
      }
    }
  }

  method Least(candidates: seq<int>) returns (least: int)
    requires candidates != []
    ensures least in candidates && forall c | c in candidates :: least <= c
  {
    least := candidates[0];
    for k := 1 to |candidates|
      invariant least in candidates && forall j | 0 <= j < k :: least <= candidates[j]
    {
      if candidates[k] < least {
        least := candidates[k];
      }
    }
  }

  /** Starts are collected day by day over the horizon, and the least one is reported. */
  method NextOpen(s: ChangeSchedule, now: int) returns (next: Option<int>)
    ensures IsLeastStart(s, now, next)
    ensures next.Some? ==> now < next.value
  {
    var candidates: seq<int> := [];
    for offset := 0 to HORIZON + 1
      invariant OnlyStarts(s, now, candidates)
      invariant forall day | DayOf(now) <= day < DayOf(now) + offset ::
                ListsStarts(s, now, day, |s.windows|, candidates)
    {
      var day, before := DayOf(now) + offset, candidates;
      if !IsFrozen(s, day) {
        candidates := DayCandidates(s, now, day, before);
      }
      forall d | DayOf(now) <= d < day + 1 ensures ListsStarts(s, now, d, |s.windows|, candidates) {
        if d < day {
          assert ListsStarts(s, now, d, |s.windows|, before);
        }
      }
    }
    forall day, i | IsStart(s, now, day, i) ensures StartOf(s, day, i) in candidates {
      assert ListsStarts(s, now, day, |s.windows|, candidates);
    }
    if candidates == [] {
      return None;
    }
    var least := Least(candidates);
    next := Some(least);
  }

  method Evaluate(s: ChangeSchedule, now: int) returns (d: Decision)
    ensures d.Open? <==> IsOpen(s, now)
    ensures d.Frozen? <==> IsFrozen(s, DayOf(now))
    ensures d.Frozen? ==>
              && (exists k :: FirstCovering(s.freezes, DayOf(now), k) && d.freeze == s.freezes[k])
              && d.nextOpenDay == d.freeze.last + 1
    ensures d.Closed? ==> IsLeastStart(s, now, d.nextOpen)
  {
    var freeze := FrozenBy(s.freezes, DayOf(now));
    if freeze.Some? {
      return Frozen(freeze.value, freeze.value.last + 1);
    }
    if s.windows == [] {
      return Open;
    }
    for i := 0 to |s.windows|
      invariant forall j | 0 <= j < i :: !Contains(s.windows[j], now)
    {
      if Contains(s.windows[i], now) {
        return Open;
      }
    }
    var next := NextOpen(s, now);
    d := Closed(next);
  }

  // ---------------------------------------------------------------------
  // Windows as intervals of time
  // ---------------------------------------------------------------------

  function Length(w: Window): int {
    if Wraps(w) then DAY - w.start + w.end else w.end - w.start
  }

  /** The window that started on this day covers the moment. */
  predicate Covers(w: Window, day: int, moment: int) {
    Weekday(day) in w.days && day * DAY + w.start <= moment < day * DAY + w.start + Length(w)
  }

  lemma DayAndClock(moment: int)
    ensures moment == DayOf(moment) * DAY + ClockOf(moment)
  {
  }

  lemma DayIsUnique(day: int, moment: int)
    requires day * DAY <= moment < (day + 1) * DAY
    ensures DayOf(moment) == day
  {
  }

  /** The clock test of a window is membership in the interval opened that day or the day before. */
  lemma ContainsIsCovering(w: Window, moment: int)
    ensures Contains(w, moment) <==> Covers(w, DayOf(moment), moment) || Covers(w, DayOf(moment) - 1, moment)
  {
    DayAndClock(moment);
    var day := DayOf(moment);
    assert (day - 1) * DAY == day * DAY - DAY;
    assert Weekday(Weekday(day) - 1) == Weekday(day - 1);
  }

  lemma CoveringIsContained(w: Window, day: int, moment: int)
    requires Covers(w, day, moment)
    ensures Contains(w, moment)
    ensures DayOf(moment) == day || DayOf(moment) == day + 1
    ensures DayOf(moment) == day + 1 ==> Wraps(w) && w.end > 0
  {
    if moment < (day + 1) * DAY {
      DayIsUnique(day, moment);
    } else {
      assert moment < (day + 2) * DAY;
      DayIsUnique(day + 1, moment);
    }
    ContainsIsCovering(w, moment);
  }

  // ---------------------------------------------------------------------
  // The next opening is the earliest
  // ---------------------------------------------------------------------

  ghost predicate ValidWindow(w: Window) {
    exists d :: 0 <= d < 7 && d in w.days
  }

  /** The search covers the time up to the opening it reports, or up to the end of the horizon. */
  function SearchedUntil(now: int, next: Option<int>): int {
    next.GetOr((DayOf(now) + 15) * DAY)
  }

  /** Nothing opens in the searched time after a closed moment, unless the occurrence
      that opens it began on a frozen day. */
  lemma OpenBetweenBeganFrozen(s: ChangeSchedule, now: int, next: Option<int>, t: int) returns (day: int, i: int)
    requires s.windows != [] && !IsOpen(s, now) && !IsFrozen(s, DayOf(now)) && IsLeastStart(s, now, next)
    requires now < t < SearchedUntil(now, next) && IsOpen(s, t)
    ensures 0 <= i < |s.windows| && Covers(s.windows[i], day, t)
    ensures IsFrozen(s, day) && now < day * DAY + s.windows[i].start
  {
    i :| 0 <= i < |s.windows| && Contains(s.windows[i], t);
    var w := s.windows[i];
    ContainsIsCovering(w, t);
    day := if Covers(w, DayOf(t), t) then DayOf(t) else DayOf(t) - 1;
    if day * DAY + w.start <= now {
      assert Covers(w, day, now);
      CoveringIsContained(w, day, now);
    }
    SkippedStartIsFrozen(s, now, next, day, i);
  }

  /** A start in the searched time was passed over because its day is frozen. */
  lemma SkippedStartIsFrozen(s: ChangeSchedule, now: int, next: Option<int>, day: int, i: int)
    requires IsLeastStart(s, now, next)
    requires 0 <= i < |s.windows| && Weekday(day) in s.windows[i].days
             && now < StartOf(s, day, i) < SearchedUntil(now, next)
    ensures IsFrozen(s, day)
  {
    DayOrder(now, StartOf(s, day, i), day, s.windows[i].start);
    SearchedWithinHorizon(s, now, next, StartOf(s, day, i));
    DayIsUnique(day, StartOf(s, day, i));
    assert !IsStart(s, now, day, i);
  }

  lemma SearchedWithinHorizon(s: ChangeSchedule, now: int, next: Option<int>, t: int)
    requires IsLeastStart(s, now, next) && t < SearchedUntil(now, next)
    ensures DayOf(t) <= DayOf(now) + 14
  {
    DayAndClock(t);
    if next.Some? {
      var day, k :| IsStart(s, now, day, k) && next.value == StartOf(s, day, k);
    }
  }

  lemma DayOrder(now: int, start: int, day: int, clock: Clock)
    requires start == day * DAY + clock && now < start
    ensures DayOf(now) <= day
  {
    DayAndClock(now);
  }

  /**
   An overnight window begins on a frozen day, its tail falls on the unfrozen day after
   it, within the horizon, and no window starts on an unfrozen day before that tail.
   */
  ghost predicate FrozenTail(s: ChangeSchedule, now: int, day: int) {
    && IsFrozen(s, day) && !IsFrozen(s, day + 1)
    && now < (day + 1) * DAY && day + 1 <= DayOf(now) + 14
    && (exists w :: w in s.windows && Weekday(day) in w.days && Wraps(w) && w.end > 0)
    && (forall d, i | IsStart(s, now, d, i) :: (day + 1) * DAY < StartOf(s, d, i))
  }

  lemma TailOpensAtMidnight(s: ChangeSchedule, now: int, next: Option<int>, day: int)
    requires FrozenTail(s, now, day) && IsLeastStart(s, now, next)
    ensures IsOpen(s, (day + 1) * DAY) && now < (day + 1) * DAY < SearchedUntil(now, next)
  {
    var w :| w in s.windows && Weekday(day) in w.days && Wraps(w) && w.end > 0;
    var i :| 0 <= i < |s.windows| && s.windows[i] == w;
    var midnight := (day + 1) * DAY;
    DayIsUnique(day + 1, midnight);
    assert Covers(s.windows[i], day, midnight);
    CoveringIsContained(s.windows[i], day, midnight);
  }

  /**
   From a closed, unfrozen moment, nothing opens before the reported opening, or within
   the horizon when none is reported, exactly when no overnight window begun on a
   frozen day has its tail on an unfrozen day ahead of every unfrozen start.
   */
  lemma NextOpenIsEarliestExactlyWhen(s: ChangeSchedule, now: int, next: Option<int>)
    requires s.windows != [] && !IsOpen(s, now) && !IsFrozen(s, DayOf(now)) && IsLeastStart(s, now, next)
    ensures now < SearchedUntil(now, next)
    ensures (forall t | now <= t < SearchedUntil(now, next) :: !IsOpen(s, t)) <==>
            (forall day :: !FrozenTail(s, now, day))
  {
    DayAndClock(now);
    if t :| now <= t < SearchedUntil(now, next) && IsOpen(s, t) {
      var day, i := OpenBetweenBeganFrozen(s, now, next, t);
      CoveringIsContained(s.windows[i], day, t);
      SearchedWithinHorizon(s, now, next, t);
      assert FrozenTail(s, now, day) by {
        DayAndClock(t);
      }
    }
    forall day | FrozenTail(s, now, day)
      ensures IsOpen(s, (day + 1) * DAY) && now < (day + 1) * DAY < SearchedUntil(now, next)
    {
      TailOpensAtMidnight(s, now, next, day);
    }
  }

  const HOUR: int := 3_600_000_000

  /** Tuesdays from 22:00 to 04:00, with both Tuesdays of the horizon frozen. */
  const TUESDAY_NIGHTS := ChangeSchedule([Window({1}, 22 * HOUR, 4 * HOUR)], [Freeze(1, 1), Freeze(8, 8)])

  /** An opening can be missed altogether: none is reported, and Wednesday opens at midnight. */
  lemma NextOpenCanBeMissed()
    ensures !IsOpen(TUESDAY_NIGHTS, 0) && !IsFrozen(TUESDAY_NIGHTS, DayOf(0))
    ensures IsLeastStart(TUESDAY_NIGHTS, 0, None) && IsOpen(TUESDAY_NIGHTS, 2 * DAY)
    ensures FrozenTail(TUESDAY_NIGHTS, 0, 1)
  {
    var s := TUESDAY_NIGHTS;
    assert s.freezes[1..] == [Freeze(8, 8)] && s.freezes[1..][1..] == [];
    forall day ensures IsFrozen(s, day) <==> day == 1 || day == 8 {
      assert FrozenBy([], day) == None;
      assert FrozenBy(s.freezes[1..], day).Some? <==> day == 8;
    }
    assert s.windows[0].end > 0;
    TailOpensAtMidnight(s, 0, None, 1);
  }

  /** At a reported opening the schedule is open. */
  lemma NextOpenIsOpen(s: ChangeSchedule, now: int, next: int)
    requires IsLeastStart(s, now, Some(next))
    ensures IsOpen(s, next)
  {
    var day, i :| IsStart(s, now, day, i) && next == StartOf(s, day, i);
    var w := s.windows[i];
    DayIsUnique(day, next);
    assert Covers(w, day, next);
    CoveringIsContained(w, day, next);
  }

  /** Every valid window starts again within a week. */
  lemma StartsWithinAWeek(s: ChangeSchedule, now: int) returns (day: int)
    requires s.freezes == [] && s.windows != [] && ValidWindow(s.windows[0])
    ensures IsStart(s, now, day, 0) && day <= DayOf(now) + 7
  {
    var d :| 0 <= d < 7 && d in s.windows[0].days;
    day := DayOf(now) + 1 + (d - Weekday(DayOf(now)) - 1) % 7;
    assert Weekday(day) == d by {
      NextWeekday(DayOf(now), d);
    }
    DayAndClock(now);
  }

  lemma NextWeekday(today: int, d: int)
    requires 0 <= d < 7
    ensures (today + 1 + (d - today % 7 - 1) % 7) % 7 == d
  {
  }

  /** Without freezes an opening is always found, within a week, and it is the earliest. */
  lemma WithoutFreezesEarliestIsFound(s: ChangeSchedule, now: int, next: Option<int>)
    requires s.freezes == [] && s.windows != [] && forall i | 0 <= i < |s.windows| :: ValidWindow(s.windows[i])
    requires !IsOpen(s, now) && IsLeastStart(s, now, next)
    ensures next.Some? && now < next.value && IsOpen(s, next.value) && DayOf(next.value) <= DayOf(now) + 7
    ensures forall t | now <= t < next.value :: !IsOpen(s, t)
  {
    var day := StartsWithinAWeek(s, now);
    DayIsUnique(day, StartOf(s, day, 0));
    assert next.Some? && next.value <= StartOf(s, day, 0);
    assert DayOf(next.value) <= day;
    hide IsStart, IsOpen, Contains, Weekday, DayOf;
    NextOpenIsOpen(s, now, next.value);
    NextOpenIsEarliestExactlyWhen(s, now, next);
    assert forall d :: !FrozenTail(s, now, d);
  }

  /** The day reported during a freeze is the first unfrozen one exactly when no other freeze covers it. */
  lemma FreezeReportIsExact(s: ChangeSchedule, today: int, freeze: Freeze)
    requires freeze in s.freezes && freeze.first <= today <= freeze.last
    ensures (!IsFrozen(s, freeze.last + 1) && forall d | today <= d < freeze.last + 1 :: IsFrozen(s, d)) <==>
              forall f | f in s.freezes :: !(f.first <= freeze.last + 1 <= f.last)
  {
    var i :| 0 <= i < |s.freezes| && s.freezes[i] == freeze;
    forall d | today <= d < freeze.last + 1 ensures IsFrozen(s, d) {
      assert Covering(s.freezes, d, i);
    }
    forall f | f in s.freezes && f.first <= freeze.last + 1 <= f.last ensures IsFrozen(s, freeze.last + 1) {
      var k :| 0 <= k < |s.freezes| && s.freezes[k] == f;
      assert Covering(s.freezes, freeze.last + 1, k);
    }
  }

  /** A window starts on the day, or runs over into it. */
  predicate Reaches(w: Window, day: int) {
    Weekday(day) in w.days || (Weekday(day - 1) in w.days && Wraps(w) && w.end > 0)
  }

  /** A day has an opening exactly when it is not frozen and some window reaches it. */
  lemma DayOpensExactlyWhen(s: ChangeSchedule, day: int)
    ensures (exists t :: DayOf(t) == day && IsOpen(s, t)) <==>
              !IsFrozen(s, day) && (s.windows == [] || exists w :: w in s.windows && Reaches(w, day))
  {
    if t :| DayOf(t) == day && IsOpen(s, t) && s.windows != [] {
      var i :| 0 <= i < |s.windows| && Contains(s.windows[i], t);
      ContainsIsCovering(s.windows[i], t);
      if !Covers(s.windows[i], day, t) {
        CoveringIsContained(s.windows[i], day - 1, t);
      }
      assert s.windows[i] in s.windows;
    }
    if !IsFrozen(s, day) {
      if s.windows == [] {
        DayIsUnique(day, day * DAY);
        assert IsOpen(s, day * DAY);
      } else if w :| w in s.windows && Reaches(w, day) {
        var i :| 0 <= i < |s.windows| && s.windows[i] == w;
        WindowOpensDay(s, day, i);
      }
    }
  }

  lemma WindowOpensDay(s: ChangeSchedule, day: int, i: int)
    requires !IsFrozen(s, day) && 0 <= i < |s.windows| && Reaches(s.windows[i], day)
    ensures exists t :: DayOf(t) == day && IsOpen(s, t)
  {
    var w := s.windows[i];
    var t := if Weekday(day) in w.days then day * DAY + w.start else day * DAY;
    DayIsUnique(day, t);
    if Weekday(day) in w.days {
      assert Covers(w, day, t);
      CoveringIsContained(w, day, t);
    } else {
      assert Covers(w, day - 1, t);
      CoveringIsContained(w, day - 1, t);
    }
    assert IsOpen(s, t);
  }

  /** The day reported during a freeze may hold no opening: after a frozen Monday, Fridays only. */
  lemma ReportedDayCanBeClosed(t: int)
    requires DayOf(t) == 1
    ensures !IsOpen(ChangeSchedule([Window({4}, 0, HOUR)], [Freeze(0, 0)]), t)
  {
    var s := ChangeSchedule([Window({4}, 0, HOUR)], [Freeze(0, 0)]);
    DayOpensExactlyWhen(s, 1);
  }
}
