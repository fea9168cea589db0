/** The deadline chain of accuracy level 2: each wait ends at or after a deadline that is the
    sum of all periods so far, whatever the callbacks and the scheduler do in between. */
module Deadlines {

  /** What the worker is to do between two waits and the wait itself: so many callbacks, then
      a period. */
  datatype Leg = Leg(calls: nat, period: nat)

  /** One leg as it went: whether nothing stalled the worker on it, and the clock when the wait
      was entered and left. */
  datatype Lap = Lap(leg: Leg, calm: bool, begun: nat, ended: nat)

  /** The product, as a sum. */
  function Times(n: nat, t: nat): nat
  {
    if n == 0 then 0 else Times(n - 1, t) + t
  }

  lemma {:induction false} TimesIsProduct(n: nat, t: nat)
    ensures Times(n, t) == n * t
  {
    if n > 0 { TimesIsProduct(n - 1, t); }
  }

  lemma {:induction false} TimesMore(a: nat, b: nat, t: nat)
    requires a <= b
    ensures Times(a, t) <= Times(b, t)
  {
    if a < b { TimesMore(a, b - 1, t); }
  }

  function LegsOf(laps: seq<Lap>): seq<Leg>
  {
    seq(|laps|, k requires 0 <= k < |laps| => laps[k].leg)
  }

  /** The k-th deadline: the starting clock plus the first k periods. */
  function Due(start: nat, laps: seq<Lap>, k: nat): nat
    requires k <= |laps|
  {
    if k == 0 then start else Due(start, laps, k - 1) + laps[k - 1].leg.period
  }

  function Max(a: int, b: int): int { if a < b then b else a }

  /** When the k-th leg began. */
  function Since(start: nat, laps: seq<Lap>, k: nat): nat
    requires k < |laps|
  {
    if k == 0 then start else laps[k - 1].ended
  }

  /** What no stall can break: no wait ends before its deadline. */
  predicate OrderedAt(start: nat, laps: seq<Lap>, k: nat)
    requires k < |laps|
  {
    && Since(start, laps, k) <= laps[k].begun <= laps[k].ended
    && Due(start, laps, k + 1) <= laps[k].ended
  }

  /** What holds of a leg without a stall: each callback takes at most `work`, and the wait ends
      at most `slack` after the later of its deadline and the moment it was entered. */
  predicate PromptAt(start: nat, laps: seq<Lap>, work: nat, slack: nat, k: nat)
    requires k < |laps|
  {
    && laps[k].begun <= Since(start, laps, k) + Times(laps[k].leg.calls, work)
    && laps[k].ended <= Max(laps[k].begun, Due(start, laps, k + 1)) + slack
  }

  predicate KeptAt(start: nat, laps: seq<Lap>, work: nat, slack: nat, k: nat)
    requires k < |laps|
  {
    OrderedAt(start, laps, k) && (laps[k].calm ==> PromptAt(start, laps, work, slack, k))
  }

  ghost predicate Kept(start: nat, laps: seq<Lap>, work: nat, slack: nat)
  {
    forall k: nat :: k < |laps| ==> KeptAt(start, laps, work, slack, k)
  }

  /** How late the k-th wait ended. */
  function Late(start: nat, laps: seq<Lap>, k: nat): int
    requires k < |laps|
  {
    laps[k].ended - Due(start, laps, k + 1)
  }

  /** The callbacks of a leg fit into its period, with some room to spare. */
  predicate Roomy(leg: Leg, work: nat, room: nat)
  {
    Times(leg.calls, work) + room <= leg.period
  }

  /** No stall on the k-th leg, and room to spare. */
  predicate Smooth(laps: seq<Lap>, work: nat, room: nat, k: nat)
    requires k < |laps|
  {
    laps[k].calm && Roomy(laps[k].leg, work, room)
  }

  /** No accumulated drift: when work and slack together fit into every period, every wait
      ends within the slack of its deadline, however many came before. */
  lemma {:induction false} NoDrift(start: nat, laps: seq<Lap>, work: nat, slack: nat, k: nat)
    requires Kept(start, laps, work, slack) && k < |laps|
    requires forall j: nat :: j <= k ==> Smooth(laps, work, slack, j)
    ensures 0 <= Late(start, laps, k) <= slack
  {
    assert KeptAt(start, laps, work, slack, k);
    assert Smooth(laps, work, slack, k);
    if k == 0 {
      assert Due(start, laps, 0) == start;
    } else {
      NoDrift(start, laps, work, slack, k - 1);
      CatchUpStep(start, laps, work, slack, k - 1);
    }
  }

  /** Whatever happened up to and including the k-th leg, one leg without a stall brings the
      worker closer to its schedule, and never by more than its period. */
  lemma CatchUpStep(start: nat, laps: seq<Lap>, work: nat, slack: nat, k: nat)
    requires Kept(start, laps, work, slack) && k + 1 < |laps|
    ensures Late(start, laps, k + 1) >= Max(Late(start, laps, k) - laps[k + 1].leg.period, 0)
    ensures laps[k + 1].calm ==>
              Late(start, laps, k + 1)
              <= Max(Late(start, laps, k) + Times(laps[k + 1].leg.calls, work) - laps[k + 1].leg.period, 0) + slack
  {
    assert KeptAt(start, laps, work, slack, k + 1);
  }

  /** After any stall, each of m legs with more room than the slack takes the difference off
      the lateness, down to the slack. */
  lemma {:induction false} CatchUp(start: nat, laps: seq<Lap>, work: nat, slack: nat, room: nat, k: nat, m: nat)
    requires Kept(start, laps, work, slack) && k + m < |laps| && slack <= room
    requires forall j: nat :: k < j <= k + m ==> Smooth(laps, work, room, j)
    ensures Late(start, laps, k + m) <= Max(Late(start, laps, k) - Times(m, room - slack), slack)
  {
    if m > 0 {
      CatchUp(start, laps, work, slack, room, k, m - 1);
      assert Smooth(laps, work, room, k + m);
      CatchUpStep(start, laps, work, slack, k + m - 1);
    }
  }

  /** The number of waits that it takes to recover from a lateness at worst. */
  function WaitsToRecover(late: int, slack: nat, gain: nat): nat
    requires gain > 0
  {
    if late <= slack then 0 else (late - slack + gain - 1) / gain
  }

  /** However late the k-th wait ended, after that many legs without a stall the worker is back
      within the slack of its schedule, and stays there. */
  lemma Recovers(start: nat, laps: seq<Lap>, work: nat, slack: nat, room: nat, k: nat, m: nat)
    requires Kept(start, laps, work, slack) && k + m < |laps| && slack < room
    requires m >= WaitsToRecover(Late(start, laps, k), slack, room - slack)
    requires forall j: nat :: k < j <= k + m ==> Smooth(laps, work, room, j)
    ensures 0 <= Late(start, laps, k + m) <= slack
  {
    CatchUp(start, laps, work, slack, room, k, m);
    EnoughExactly(Late(start, laps, k), slack, room - slack, m);
    assert KeptAt(start, laps, work, slack, k + m);
  }

  /** So many gains make up for the lateness beyond the slack, and no fewer do. */
  lemma EnoughExactly(late: int, slack: nat, gain: nat, m: nat)
    requires gain > 0
    ensures m >= WaitsToRecover(late, slack, gain) <==> late - Times(m, gain) <= slack
  {
    if late > slack {
      var excess := late - slack;
      var q := (excess + gain - 1) / gain;
      assert excess + gain - 1 == q * gain + (excess + gain - 1) % gain;
      TimesIsProduct(q, gain);
      TimesIsProduct(q - 1, gain);
      if m >= q {
        TimesMore(q, m, gain);
      } else {
        TimesMore(m, q - 1, gain);
        assert q * gain == (q - 1) * gain + gain;
      }
    }
  }

  /** The slowest recovery: each wait is entered at once and overruns by the whole slack. */
  function Slowest(late: nat, slack: nat, room: nat, m: nat): seq<Lap>
    ensures |Slowest(late, slack, room, m)| == m + 1
  {
    if m == 0 then [Lap(Leg(0, 0), false, late, late)]
    else
      var before := Slowest(late, slack, room, m - 1);
      var due := Due(0, before, m) + room;
      var begun := before[m - 1].ended;
      before + [Lap(Leg(0, room), true, begun, Max(begun, due) + slack)]
  }

  /** Fewer waits do not always do: on this chain, which keeps to all the rules, the worker is
      still beyond its slack after any smaller number. */
  lemma RecoversNoSooner(late: nat, work: nat, slack: nat, room: nat, m: nat)
    requires slack < room && m < WaitsToRecover(late, slack, room - slack)
    ensures var laps := Slowest(late, slack, room, m);
            && Kept(0, laps, work, slack) && Late(0, laps, 0) == late
            && (forall j: nat :: 0 < j <= m ==> Smooth(laps, work, room, j))
            && Late(0, laps, m) > slack
  {
    SlowestChain(late, work, slack, room, m);
    EnoughExactly(late, slack, room - slack, m);
  }

  lemma {:induction false} SlowestChain(late: nat, work: nat, slack: nat, room: nat, m: nat)
    requires slack <= room
    ensures var laps := Slowest(late, slack, room, m);
            && Kept(0, laps, work, slack) && Late(0, laps, 0) == late
            && (forall j: nat :: 0 < j <= m ==> Smooth(laps, work, room, j))
            && Late(0, laps, m) >= late - Times(m, room - slack)
  {
    if m == 0 {
      var first := Slowest(late, slack, room, 0);
      assert Due(0, first, 1) == Due(0, first, 0) + 0;
    } else {
      SlowestChain(late, work, slack, room, m - 1);
      var before, laps := Slowest(late, slack, room, m - 1), Slowest(late, slack, room, m);
      var lap := laps[m];
      assert laps == before + [lap];
      KeptExtend(0, before, lap, work, slack);
      DueExtend(0, before, lap, 1);
      DueExtend(0, before, lap, m);
      assert laps[0] == before[0];
      forall j: nat | 0 < j <= m ensures Smooth(laps, work, room, j) {
        if j < m { assert Smooth(before, work, room, j) && laps[j] == before[j]; }
      }
    }
  }

  /** The laps on which the worker was stalled. */
  function Rough(laps: seq<Lap>): nat
  {
    if laps == [] then 0
    else Rough(laps[..|laps| - 1]) + if laps[|laps| - 1].calm then 0 else 1
  }

  /** Extending a kept chain by one wait. */
  lemma KeptExtend(start: nat, laps: seq<Lap>, lap: Lap, work: nat, slack: nat)
    requires Kept(start, laps, work, slack)
    requires var since := if laps == [] then start else laps[|laps| - 1].ended;
             since <= lap.begun <= lap.ended && (lap.calm ==> lap.begun <= since + Times(lap.leg.calls, work))
    requires var due := Due(start, laps, |laps|) + lap.leg.period;
             due <= lap.ended && (lap.calm ==> lap.ended <= Max(lap.begun, due) + slack)
    ensures Kept(start, laps + [lap], work, slack)
    ensures Due(start, laps + [lap], |laps| + 1) == Due(start, laps, |laps|) + lap.leg.period
    ensures LegsOf(laps + [lap]) == LegsOf(laps) + [lap.leg]
    ensures Rough(laps + [lap]) == Rough(laps) + if lap.calm then 0 else 1
  {
    var more := laps + [lap];
    assert more[..|laps|] == laps;
    DueExtend(start, laps, lap, |laps|);
    forall k: nat | k < |more|
      ensures KeptAt(start, more, work, slack, k)
    {
      if k < |laps| {
        assert KeptAt(start, laps, work, slack, k);
        EarlierLap(start, laps, lap, work, slack, k);
      } else {
        assert more[k] == lap;
      }
    }
  }

  lemma EarlierLap(start: nat, laps: seq<Lap>, lap: Lap, work: nat, slack: nat, k: nat)
    requires k < |laps|
    ensures var more := laps + [lap];
            KeptAt(start, more, work, slack, k) <==> KeptAt(start, laps, work, slack, k)
  {
    var more := laps + [lap];
    DueExtend(start, laps, lap, k + 1);
    assert more[k] == laps[k] && Since(start, more, k) == Since(start, laps, k);
  }

  lemma {:induction false} DueExtend(start: nat, laps: seq<Lap>, lap: Lap, k: nat)
    requires k <= |laps|
    ensures Due(start, laps + [lap], k) == Due(start, laps, k)
  {
    if k > 0 { DueExtend(start, laps, lap, k - 1); }
  }

  /** The time of a sequence of legs. */
  function Total(legs: seq<Leg>): nat
  {
    if legs == [] then 0 else Total(legs[..|legs| - 1]) + legs[|legs| - 1].period
  }

  /** The deadlines are the totals of the legs. */
  lemma {:induction false} DueIsTotal(start: nat, laps: seq<Lap>, k: nat)
    requires k <= |laps|
    ensures Due(start, laps, k) == start + Total(LegsOf(laps)[..k])
  {
    if k > 0 {
      DueIsTotal(start, laps, k - 1);
      assert LegsOf(laps)[..k][..k - 1] == LegsOf(laps)[..k - 1];
    }
  }
}
