/** The login limiter of apps/api/app/auth/ratelimit.py, one sliding window per key. */
module RateLimit {
  import opened Intervals

  type Moment = real

  function HitsOf(hits: map<string, seq<Moment>>, key: string): seq<Moment> {
    if key in hits then hits[key] else []
  }

  /** How many attempts at the front of the deque have left the window. */
  function Stale(hits: seq<Moment>, window: int, moment: Moment): (n: nat)
    ensures n <= |hits|
    ensures forall i | 0 <= i < n :: moment - hits[i] > window as real
    ensures n < |hits| ==> moment - hits[n] <= window as real
  {
    if hits != [] && moment - hits[0] > window as real then 1 + Stale(hits[1..], window, moment) else 0
  }

  function Evicted(hits: seq<Moment>, window: int, moment: Moment): seq<Moment> {
    hits[Stale(hits, window, moment)..]
  }

  /** Python's `int(x)` on a float: truncation toward zero. */
  function Truncated(x: real): int {
    if x >= 0.0 then x.Floor else -((-x).Floor)
  }

  function Wait(hits: seq<Moment>, window: int, moment: Moment): int
    requires hits != []
  {
    var left := Truncated(window as real - (moment - hits[0]));
    if left > 1 then left else 1
  }

  /** `NoSlotEver` is the IndexError of a limit of 0 or less, where there is no attempt to wait for. */
  datatype Decision = Admitted | Refused(wait: int) | NoSlotEver

  /** One attempt: the deque afterwards, and the decision. */
  function Checked(hits: seq<Moment>, limit: int, window: int, moment: Moment): (seq<Moment>, Decision) {
    var kept := Evicted(hits, window, moment);
    if |kept| < limit then (kept + [moment], Admitted)
    else if kept == [] then (kept, NoSlotEver)
    else (kept, Refused(Wait(kept, window, moment)))
  }

  class SlidingWindow {
    const limit: int
    const window: int
    var hits: map<string, seq<Moment>>

    constructor (limit: int, window: int)
      ensures this.limit == limit && this.window == window && hits == map[]
    {
      this.limit, this.window, this.hits := limit, window, map[];
    }

    method Check(key: string, moment: Moment) returns (decision: Decision)
      modifies this
      ensures (HitsOf(hits, key), decision) == Checked(old(HitsOf(hits, key)), limit, window, moment)
      ensures forall other | other != key :: HitsOf(hits, other) == old(HitsOf(hits, other))
    {
      var queue := HitsOf(hits, key);
      while queue != [] && moment - queue[0] > window as real
        invariant Evicted(queue, window, moment) == Evicted(old(HitsOf(hits, key)), window, moment)
      {
        assert Evicted(queue, window, moment) == Evicted(queue[1..], window, moment);
        queue := queue[1..];
      }
      if |queue| >= limit {
        hits := hits[key := queue];
        return if queue == [] then NoSlotEver else Refused(Wait(queue, window, moment));
      }
      hits := hits[key := queue + [moment]];
      return Admitted;
    }
  }

  // ---------------------------------------------------------------------
  // Whole runs on one key
  // ---------------------------------------------------------------------

  /** The deque, and every attempt ever admitted. */
  datatype Run = Run(hits: seq<Moment>, admitted: seq<Moment>)

  function After(limit: int, window: int, moments: seq<Moment>): Run {
    if moments == [] then Run([], [])
    else
      var run := After(limit, window, moments[..|moments| - 1]);
      var moment := moments[|moments| - 1];
      var (hits, decision) := Checked(run.hits, limit, window, moment);
      Run(hits, if decision == Admitted then run.admitted + [moment] else run.admitted)
  }

  ghost predicate Ordered(moments: seq<Moment>) {
    forall i, j | 0 <= i < j < |moments| :: moments[i] <= moments[j]
  }

  /** The first n attempts are out of the window for good. */
  ghost predicate Gone(admitted: seq<Moment>, n: int, window: int, now: Moment) {
    forall i | 0 <= i < n && i < |admitted| :: now - admitted[i] > window as real
  }

  /** Any two attempts with `limit - 1` between them are more than a window apart. */
  ghost predicate Spaced(admitted: seq<Moment>, limit: nat, window: int) {
    forall i, j | 0 <= i && j == i + limit && j < |admitted| :: admitted[j] - admitted[i] > window as real
  }

  /** The deque holds the admitted attempts from number `dropped` on. */
  ghost predicate Inv(limit: nat, window: int, run: Run, dropped: nat, now: Moment) {
    && dropped <= |run.admitted| <= dropped + limit
    && run.hits == run.admitted[dropped..]
    && Ordered(run.admitted)
    && (run.admitted != [] ==> run.admitted[|run.admitted| - 1] <= now)
    && Gone(run.admitted, dropped, window, now)
    && Spaced(run.admitted, limit, window)
  }

  lemma EvictionDropsMore(limit: nat, window: int, run: Run, dropped: nat, now: Moment, moment: Moment)
    requires Inv(limit, window, run, dropped, now) && now <= moment
    ensures var d := dropped + Stale(run.hits, window, moment);
            && d <= |run.admitted|
            && Evicted(run.hits, window, moment) == run.admitted[d..]
            && Gone(run.admitted, d, window, moment)
            && (d < |run.admitted| ==> moment - run.admitted[d] <= window as real)
  {
    hide Spaced, Ordered;
    var n := Stale(run.hits, window, moment);
    assert run.admitted[dropped..][n..] == run.admitted[dropped + n..];
    forall i | 0 <= i < dropped + n ensures moment - run.admitted[i] > window as real {
      if i >= dropped {
        assert run.hits[i - dropped] == run.admitted[i];
      }
    }
  }

  lemma AdmissionKeepsSpacing(admitted: seq<Moment>, limit: nat, window: int, dropped: nat, moment: Moment)
    requires Spaced(admitted, limit, window) && Gone(admitted, dropped, window, moment)
    requires limit >= 1 && |admitted| < dropped + limit
    ensures Spaced(admitted + [moment], limit, window)
  {
    var longer := admitted + [moment];
    forall i, j | 0 <= i && j == i + limit && j < |longer| ensures longer[j] - longer[i] > window as real {
      assert longer[i] == admitted[i];
      assert j < |admitted| ==> longer[j] == admitted[j];
    }
  }

  lemma AdmissionKeepsInv(limit: nat, window: int, admitted: seq<Moment>, dropped: nat, moment: Moment)
    requires limit >= 1 && dropped <= |admitted| < dropped + limit
    requires Inv(limit, window, Run(admitted[dropped..], admitted), dropped, moment)
    ensures Inv(limit, window, Run(admitted[dropped..] + [moment], admitted + [moment]), dropped, moment)
  {
    hide Spaced, Ordered, Gone;
    AdmissionKeepsSpacing(admitted, limit, window, dropped, moment);
    AppendKeepsOrder(admitted, moment);
    GoneStaysGone(admitted, dropped, window, moment);
    assert admitted[dropped..] + [moment] == (admitted + [moment])[dropped..];
  }

  lemma CheckKeepsInv(limit: nat, window: int, run: Run, dropped: nat, now: Moment, moment: Moment)
    requires limit >= 1 && Inv(limit, window, run, dropped, now) && now <= moment
    ensures var (hits, decision) := Checked(run.hits, limit, window, moment);
            Inv(limit, window, Run(hits, if decision == Admitted then run.admitted + [moment] else run.admitted),
                dropped + Stale(run.hits, window, moment), moment)
  {
    hide Spaced, Ordered, Gone, Wait, Evicted;
    EvictionDropsMore(limit, window, run, dropped, now, moment);
    var d := dropped + Stale(run.hits, window, moment);
    assert Inv(limit, window, Run(run.admitted[d..], run.admitted), d, moment);
    if |run.admitted| < d + limit {
      AdmissionKeepsInv(limit, window, run.admitted, d, moment);
    }
  }

  lemma GoneStaysGone(admitted: seq<Moment>, n: nat, window: int, moment: Moment)
    requires n <= |admitted| && Gone(admitted, n, window, moment)
    ensures Gone(admitted + [moment], n, window, moment)
  {
  }

  lemma AppendKeepsOrder(admitted: seq<Moment>, moment: Moment)
    requires Ordered(admitted) && (admitted != [] ==> admitted[|admitted| - 1] <= moment)
    ensures Ordered(admitted + [moment])
  {
    forall i | 0 <= i < |admitted| ensures admitted[i] <= moment {
      if i < |admitted| - 1 {
        assert admitted[i] <= admitted[|admitted| - 1];
      }
    }
  }

  lemma {:induction false} InvHolds(limit: nat, window: int, moments: seq<Moment>, now: Moment) returns (dropped: nat)
    requires limit >= 1 && Ordered(moments) && (moments != [] ==> moments[|moments| - 1] <= now)
    ensures Inv(limit, window, After(limit, window, moments), dropped, now)
  {
    hide Inv, Checked;
    if moments == [] {
      dropped := 0;
      NothingYet(limit, window, now);
    } else {
      var front, moment := moments[..|moments| - 1], moments[|moments| - 1];
      var before := InvHolds(limit, window, front, moment);
      var run := After(limit, window, front);
      CheckKeepsInv(limit, window, run, before, moment, moment);
      dropped := before + Stale(run.hits, window, moment);
      LaterKeepsInv(limit, window, After(limit, window, moments), dropped, moment, now);
    }
  }

  lemma NothingYet(limit: nat, window: int, now: Moment)
    ensures Inv(limit, window, Run([], []), 0, now)
  {
  }

  lemma LaterKeepsInv(limit: nat, window: int, run: Run, dropped: nat, now: Moment, later: Moment)
    requires Inv(limit, window, run, dropped, now) && now <= later
    ensures Inv(limit, window, run, dropped, later)
  {
    hide Ordered, Spaced;
  }

  /** The admitted attempts inside the closed interval [from, from + window]. */
  ghost function AdmittedWithin(admitted: seq<Moment>, from: Moment, window: int): set<int> {
    set i | 0 <= i < |admitted| && from <= admitted[i] <= from + window as real
  }

  lemma AdmissionsAreSpaced(limit: nat, window: int, moments: seq<Moment>)
    requires limit >= 1 && Ordered(moments)
    ensures Ordered(After(limit, window, moments).admitted)
            && Spaced(After(limit, window, moments).admitted, limit, window)
  {
    var _ := InvHolds(limit, window, moments, if moments == [] then 0.0 else moments[|moments| - 1]);
  }

  /** Over any run with time not going backwards, no interval of the window's length ever
      holds more than `limit` admissions. */
  lemma AtMostLimitPerWindow(limit: int, window: int, moments: seq<Moment>, from: Moment)
    requires Ordered(moments)
    ensures |AdmittedWithin(After(limit, window, moments).admitted, from, window)| <= if limit >= 1 then limit else 0
  {
    if limit >= 1 {
      AdmissionsAreSpaced(limit, window, moments);
      hide After;
      SpacedFits(After(limit, window, moments).admitted, limit, window, from);
    } else {
      NobodyIsAdmitted(limit, window, moments);
    }
  }

  lemma {:induction false} NobodyIsAdmitted(limit: int, window: int, moments: seq<Moment>)
    requires limit <= 0
    ensures After(limit, window, moments) == Run([], [])
  {
    if moments != [] {
      NobodyIsAdmitted(limit, window, moments[..|moments| - 1]);
    }
  }

  lemma SpacedFits(admitted: seq<Moment>, limit: nat, window: int, from: Moment)
    requires Spaced(admitted, limit, window) && Ordered(admitted)
    ensures |AdmittedWithin(admitted, from, window)| <= limit
  {
    hide Spaced, Ordered;
    var within := AdmittedWithin(admitted, from, window);
    if within != {} {
      var k :| k in within;
      var least := LeastMember(within, k);
      forall j | j in within ensures least <= j < least + limit {
        if j >= least + limit {
          LaterIsFurther(admitted, limit, window, least, j);
        }
      }
      assert within <= Interval(least, least + limit);
      SubsetSize(within, Interval(least, least + limit));
      IntervalSize(least, least + limit);
    }
  }

  lemma LaterIsFurther(admitted: seq<Moment>, limit: nat, window: int, i: nat, j: nat)
    requires Spaced(admitted, limit, window) && Ordered(admitted)
    requires i + limit <= j < |admitted|
    ensures admitted[j] - admitted[i] > window as real
  {
    assert admitted[i + limit] - admitted[i] > window as real;
  }

  lemma {:induction false} LeastMember(s: set<int>, k: int) returns (least: int)
    requires k in s && k >= 0 && forall i | i in s :: i >= 0
    ensures least in s && forall j | j in s :: least <= j
    decreases k
  {
    if j :| j in s && j < k {
      least := LeastMember(s, j);
    } else {
      least := k;
    }
  }

  /**
   An attempt is refused exactly when `limit` admissions already lie within the preceding
   window, and raises exactly when the limit admits nobody.
   */
  lemma RefusedExactlyWhenFull(limit: int, window: int, moments: seq<Moment>, moment: Moment)
    requires Ordered(moments + [moment])
    ensures var run := After(limit, window, moments);
            var decision := Checked(run.hits, limit, window, moment).1;
            && (decision.Refused? <==>
                limit >= 1 && |AdmittedWithin(run.admitted, moment - window as real, window)| == limit)
            && (decision.NoSlotEver? <==> limit <= 0)
            && After(limit, window, moments + [moment]).admitted ==
                 run.admitted + if decision.Admitted? then [moment] else []
  {
    assert (moments + [moment])[..|moments|] == moments;
    var run := After(limit, window, moments);
    if limit >= 1 {
      assert forall i | 0 <= i < |moments| :: (moments + [moment])[i] == moments[i];
      assert (moments + [moment])[|moments|] == moment;
      var dropped := InvHolds(limit, window, moments, moment);
      FullExactlyWhen(limit, window, run, dropped, moment);
    } else {
      NobodyIsAdmitted(limit, window, moments);
    }
  }

  lemma WithinExactlyWhenKept(admitted: seq<Moment>, dropped: nat, window: int, moment: Moment, i: nat)
    requires i < |admitted| && Ordered(admitted) && Gone(admitted, dropped, window, moment) && window >= 0
    requires admitted[|admitted| - 1] <= moment
    requires dropped < |admitted| ==> moment - admitted[dropped] <= window as real
    ensures (moment - window as real <= admitted[i] <= moment - window as real + window as real) <==> dropped <= i
  {
    if dropped <= i {
      assert dropped < i ==> admitted[dropped] <= admitted[i];
      assert i < |admitted| - 1 ==> admitted[i] <= admitted[|admitted| - 1];
    }
  }

  lemma LastIsLatest(admitted: seq<Moment>, i: nat)
    requires Ordered(admitted) && i < |admitted|
    ensures admitted[i] <= admitted[|admitted| - 1]
  {
  }

  /** What the window holds is the tail of the admitted attempts. */
  lemma WithinIsTail(admitted: seq<Moment>, dropped: nat, window: int, moment: Moment)
    requires dropped <= |admitted| && Ordered(admitted) && Gone(admitted, dropped, window, moment)
    requires admitted != [] ==> admitted[|admitted| - 1] <= moment
    requires dropped < |admitted| ==> moment - admitted[dropped] <= window as real
    ensures |AdmittedWithin(admitted, moment - window as real, window)| == |admitted| - dropped
  {
    var within := AdmittedWithin(admitted, moment - window as real, window);
    if dropped < |admitted| {
      LastIsLatest(admitted, dropped);
    }
    if window < 0 {
      assert within == {};
      return;
    }
    hide Ordered, Gone;
    forall i | 0 <= i < |admitted| ensures i in within <==> dropped <= i {
      WithinExactlyWhenKept(admitted, dropped, window, moment, i);
    }
    assert within == Interval(dropped, |admitted|);
    IntervalSize(dropped, |admitted|);
  }

  lemma FullExactlyWhen(limit: nat, window: int, run: Run, dropped: nat, moment: Moment)
    requires limit >= 1 && Inv(limit, window, run, dropped, moment)
    ensures |Evicted(run.hits, window, moment)| >= limit <==>
              |AdmittedWithin(run.admitted, moment - window as real, window)| == limit
  {
    hide Spaced, Evicted, Ordered, Gone, AdmittedWithin;
    EvictionDropsMore(limit, window, run, dropped, moment, moment);
    WithinIsTail(run.admitted, dropped + Stale(run.hits, window, moment), window, moment);
  }

  /**
   The wait is honest.  It is at least a second; with no other attempt in between, one
   made before it is over is refused again, unless the wait was rounded up to that
   second, and one made a second after it is not refused on account of the attempt that
   was waited for.
   */
  lemma WaitIsHonest(hits: seq<Moment>, limit: int, window: int, moment: Moment, later: Moment)
    requires Checked(hits, limit, window, moment).1.Refused? && moment <= later
    ensures var (kept, decision) := Checked(hits, limit, window, moment);
            var again := Checked(kept, limit, window, later);
            && decision.wait >= 1 && kept != []
            && (decision.wait >= 2 && later <= moment + decision.wait as real ==> again.1.Refused?)
            && (later >= moment + decision.wait as real + 1.0
                ==> |again.0| < |kept| + if again.1.Admitted? then 1 else 0)
            && (later >= moment + decision.wait as real + 1.0 && |kept| == limit ==> again.1.Admitted?)
  {
    var kept := Evicted(hits, window, moment);
    var left := window as real - (moment - kept[0]);
    assert kept == hits[Stale(hits, window, moment)..];
    assert left >= 0.0;
    if later - kept[0] > window as real {
      assert Stale(kept, window, later) >= 1;
    } else {
      assert Stale(kept, window, later) == 0;
      assert Evicted(kept, window, later) == kept;
    }
  }
}
