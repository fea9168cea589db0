/** What tasks emit: the log of each kind of task, its waits, and when they are due. */
module Logs {

  import opened Words
  import opened Deadlines

  /** The callbacks of the worker, and its waits. */
  datatype Event = Hi | Lo | End | Custom | Wait(micros: nat)

  // ------------------------------------------------------------------ the specification

  /** One pulse on its own: wait for the delay, high for the duration, low. */
  function PulseLog(delay: nat, dur: nat): seq<Event>
  {
    (if delay > 0 then [Wait(delay)] else []) + [Hi, Wait(dur), Lo]
  }

  /** High for the duration, low for the delay, and the end function. */
  function HighLog(dur: nat): seq<Event> { [Hi, Wait(dur)] }
  function LowLog(delay: nat): seq<Event> { if delay > 0 then [Lo, Wait(delay)] else [] }
  function EndLog(hasEnd: bool): seq<Event> { if hasEnd then [End] else [] }

  /** One pulse of a train. */
  function CycleLog(delay: nat, dur: nat): seq<Event>
  {
    (if dur > 0 then HighLog(dur) else []) + LowLog(delay)
  }

  function TrainLog(delay: nat, dur: nat, n: nat): seq<Event>
  {
    if n == 0 then [] else TrainLog(delay, dur, n - 1) + CycleLog(delay, dur)
  }

  function BodyLog(delay: nat, dur: nat, n: nat): seq<Event>
  {
    if n == 1 then PulseLog(delay, dur) else TrainLog(delay, dur, n)
  }

  function TaskLog(delay: nat, dur: nat, n: nat, hasEnd: bool): seq<Event>
  {
    BodyLog(delay, dur, n) + EndLog(hasEnd)
  }

  function Repeat(log: seq<Event>, times: nat): seq<Event>
  {
    if times == 0 then [] else Repeat(log, times - 1) + log
  }

  /** One pulse of an infinite train: whether a custom callback was due before it, and its
      timing, which may change from pulse to pulse. */
  datatype Beat = Beat(custom: bool, delay: nat, dur: nat)

  /** The custom callback, when it was asked for. */
  function Ran(custom: bool): seq<Event> { if custom then [Custom] else [] }

  function BeatLog(b: Beat, hasEnd: bool): seq<Event>
  {
    Ran(b.custom) + HighLog(b.dur) + LowLog(b.delay) + EndLog(hasEnd)
  }

  function LoopLog(beats: seq<Beat>, hasEnd: bool): seq<Event>
  {
    if beats == [] then []
    else LoopLog(beats[..|beats| - 1], hasEnd) + BeatLog(beats[|beats| - 1], hasEnd)
  }

  /** The callbacks of a log since its last wait. */
  function Trailing(log: seq<Event>): nat
  {
    if log == [] || log[|log| - 1].Wait? then 0 else Trailing(log[..|log| - 1]) + 1
  }

  /** The waits of a log, in order, each with the callbacks between it and the wait before. */
  function Legs(log: seq<Event>): seq<Leg>
  {
    if log == [] then []
    else
      var init, e := log[..|log| - 1], log[|log| - 1];
      Legs(init) + if e.Wait? then [Leg(Trailing(init), e.micros)] else []
  }

  lemma LegsSnoc(log: seq<Event>, e: Event)
    ensures Legs(log + [e]) == Legs(log) + if e.Wait? then [Leg(Trailing(log), e.micros)] else []
    ensures Trailing(log + [e]) == if e.Wait? then 0 else Trailing(log) + 1
  {
    assert (log + [e])[..|log|] == log;
  }

  /** The callbacks of a log, and its waits. */
  function Callbacks(log: seq<Event>): seq<Event>
  {
    if log == [] then []
    else Callbacks(log[..|log| - 1]) + if log[|log| - 1].Wait? then [] else [log[|log| - 1]]
  }

  function Waits(log: seq<Event>): seq<nat>
  {
    if log == [] then []
    else Waits(log[..|log| - 1]) + if log[|log| - 1].Wait? then [log[|log| - 1].micros] else []
  }

  /** The time that a log asks for, and the time it is allowed when every wait may take `over`
      longer and every callback `work`. */
  function AskedTime(log: seq<Event>): nat
  {
    if log == [] then 0
    else AskedTime(log[..|log| - 1]) + if log[|log| - 1].Wait? then log[|log| - 1].micros else 0
  }

  function AllowedTime(log: seq<Event>, over: nat, work: nat): nat
  {
    if log == [] then 0
    else AllowedTime(log[..|log| - 1], over, work)
         + if log[|log| - 1].Wait? then log[|log| - 1].micros + over else work
  }

  lemma SnocTime(log: seq<Event>, e: Event, over: nat, work: nat)
    ensures AskedTime(log + [e]) == AskedTime(log) + if e.Wait? then e.micros else 0
    ensures AllowedTime(log + [e], over, work) ==
            AllowedTime(log, over, work) + if e.Wait? then e.micros + over else work
  {
    assert (log + [e])[..|log|] == log;
  }

  /** The time allowed is the time asked for and so much for each wait and each callback. */
  lemma {:induction false} AllowedIsAsked(log: seq<Event>, over: nat, work: nat)
    ensures AskedTime(log) == Total(Legs(log)) && |Legs(log)| == |Waits(log)|
    ensures AllowedTime(log, over, work) ==
            AskedTime(log) + |Waits(log)| * over + |Callbacks(log)| * work
  {
    if log != [] {
      var init, e := log[..|log| - 1], log[|log| - 1];
      AllowedIsAsked(init, over, work);
      if e.Wait? {
        TotalSnoc(Legs(init), Leg(Trailing(init), e.micros));
        assert (|Waits(init)| + 1) * over == |Waits(init)| * over + over;
      } else {
        assert Legs(init) + [] == Legs(init);
        assert (|Callbacks(init)| + 1) * work == |Callbacks(init)| * work + work;
      }
    }
  }

  lemma SnocParts(log: seq<Event>, e: Event)
    ensures Callbacks(log + [e]) == Callbacks(log) + if e.Wait? then [] else [e]
    ensures Waits(log + [e]) == Waits(log) + if e.Wait? then [e.micros] else []
  {
    assert (log + [e])[..|log|] == log;
  }

  lemma {:induction false} CallbacksConcat(a: seq<Event>, b: seq<Event>)
    ensures Callbacks(a + b) == Callbacks(a) + Callbacks(b)
  {
    if b == [] {
      assert a + b == a;
    } else {
      var init, e := b[..|b| - 1], b[|b| - 1];
      CallbacksConcat(a, init);
      SnocParts(a + init, e);
      SnocParts(init, e);
      assert b == init + [e] && a + b == (a + init) + [e];
    }
  }

  lemma LoopSnoc(beats: seq<Beat>, b: Beat, hasEnd: bool)
    ensures LoopLog(beats + [b], hasEnd) == LoopLog(beats, hasEnd) + BeatLog(b, hasEnd)
  {
    assert (beats + [b])[..|beats|] == beats;
  }

  // ------------------------------------------------------------------ what the specification means

  lemma {:induction false} LegsPrefix(a: seq<Event>, b: seq<Event>)
    ensures Legs(a) <= Legs(a + b)
  {
    if b == [] {
      assert a + b == a;
    } else {
      var init, e := b[..|b| - 1], b[|b| - 1];
      LegsPrefix(a, init);
      LegsSnoc(a + init, e);
      assert a + b == (a + init) + [e];
    }
  }

  /** High for one wait, or low for one wait, after what went before. */
  lemma LegsHalf(log: seq<Event>, e: Event, m: nat)
    requires !e.Wait?
    ensures Legs(log + [e, Wait(m)]) == Legs(log) + [Leg(Trailing(log) + 1, m)]
    ensures Trailing(log + [e, Wait(m)]) == 0
  {
    LegsSnoc(log, e);
    LegsSnoc(log + [e], Wait(m));
    assert log + [e, Wait(m)] == log + [e] + [Wait(m)];
  }

  lemma TotalSnoc(legs: seq<Leg>, leg: Leg)
    ensures Total(legs + [leg]) == Total(legs) + leg.period
  {
    assert (legs + [leg])[..|legs|] == legs;
  }

  /** Every leg has room to spare. */
  ghost predicate AllRoomy(legs: seq<Leg>, work: nat, room: nat)
  {
    forall k :: 0 <= k < |legs| ==> Roomy(legs[k], work, room)
  }

  /** A train is as long as its cycles, and has room when both halves of a cycle have. */
  lemma {:induction false} TrainLegs(delay: nat, dur: nat, n: nat, work: nat, room: nat)
    requires work + room <= dur && (delay > 0 ==> work + room <= delay)
    ensures var log := TrainLog(delay, dur, n);
            && Trailing(log) == 0 && Total(Legs(log)) == Times(n, delay + dur)
            && AllRoomy(Legs(log), work, room) && |Legs(log)| >= (if dur > 0 then n else 0)
  {
    if n > 0 {
      TrainLegs(delay, dur, n - 1, work, room);
      CycleLegs(TrainLog(delay, dur, n - 1), delay, dur, work, room);
    }
  }

  lemma CycleLegs(log: seq<Event>, delay: nat, dur: nat, work: nat, room: nat)
    requires Trailing(log) == 0 && AllRoomy(Legs(log), work, room)
    requires work + room <= dur && (delay > 0 ==> work + room <= delay)
    ensures var more := log + CycleLog(delay, dur);
            && Trailing(more) == 0 && Total(Legs(more)) == Total(Legs(log)) + delay + dur
            && AllRoomy(Legs(more), work, room) && |Legs(more)| >= |Legs(log)| + if dur > 0 then 1 else 0
  {
    HalfRoomy(log, dur > 0, Hi, dur, work, room);
    var high := if dur > 0 then HighLog(dur) else [];
    HalfRoomy(log + high, delay > 0, Lo, delay, work, room);
    Associate(log, high, LowLog(delay));
  }

  lemma HalfRoomy(log: seq<Event>, present: bool, e: Event, m: nat, work: nat, room: nat)
    requires AllRoomy(Legs(log), work, room) && !e.Wait? && (!present ==> m == 0)
    requires present ==> Times(Trailing(log) + 1, work) + room <= m
    ensures var more := log + if present then [e, Wait(m)] else [];
            && Trailing(more) == (if present then 0 else Trailing(log))
            && Total(Legs(more)) == Total(Legs(log)) + m
            && AllRoomy(Legs(more), work, room) && |Legs(more)| == |Legs(log)| + if present then 1 else 0
  {
    if present {
      LegsHalf(log, e, m);
      TotalSnoc(Legs(log), Leg(Trailing(log) + 1, m));
    } else {
      assert log + [] == log;
    }
  }

  /** The time the beats ask for. */
  function BeatsTime(beats: seq<Beat>): nat
  {
    if beats == [] then 0
    else BeatsTime(beats[..|beats| - 1]) + beats[|beats| - 1].delay + beats[|beats| - 1].dur
  }

  /** The high part of a beat has room for the end function, the custom callback and the high
      callback before it; the low part, when there is one, for the low callback. */
  predicate BeatRoomy(b: Beat, hasEnd: bool, work: nat, room: nat)
  {
    && Times(1 + Bit(hasEnd, 1) + Bit(b.custom, 1), work) + room <= b.dur
    && (b.delay > 0 ==> work + room <= b.delay)
  }

  ghost predicate BeatsRoomy(beats: seq<Beat>, hasEnd: bool, work: nat, room: nat)
  {
    forall k :: 0 <= k < |beats| ==> BeatRoomy(beats[k], hasEnd, work, room)
  }

  lemma {:induction false} LoopLegs(beats: seq<Beat>, hasEnd: bool, work: nat, room: nat)
    requires BeatsRoomy(beats, hasEnd, work, room)
    ensures var log := LoopLog(beats, hasEnd);
            && Trailing(log) <= Bit(hasEnd, 1) && Total(Legs(log)) == BeatsTime(beats)
            && AllRoomy(Legs(log), work, room) && |Legs(log)| >= |beats|
  {
    if beats != [] {
      var init, b := beats[..|beats| - 1], beats[|beats| - 1];
      LoopLegs(init, hasEnd, work, room);
      BeatLegs(LoopLog(init, hasEnd), b, hasEnd, work, room);
    }
  }

  lemma BeatLegs(log: seq<Event>, b: Beat, hasEnd: bool, work: nat, room: nat)
    requires Trailing(log) <= Bit(hasEnd, 1) && AllRoomy(Legs(log), work, room)
    requires BeatRoomy(b, hasEnd, work, room)
    ensures var more := log + BeatLog(b, hasEnd);
            && Trailing(more) <= Bit(hasEnd, 1) && Total(Legs(more)) == Total(Legs(log)) + b.delay + b.dur
            && AllRoomy(Legs(more), work, room) && |Legs(more)| >= |Legs(log)| + 1
  {
    var custom, high, low, end := Ran(b.custom), HighLog(b.dur), LowLog(b.delay), EndLog(hasEnd);
    CallLegs(log, b.custom, Custom);
    TimesMore(Trailing(log + custom) + 1, 1 + Bit(hasEnd, 1) + Bit(b.custom, 1), work);
    HalfRoomy(log + custom, true, Hi, b.dur, work, room);
    HalfRoomy(log + custom + high, b.delay > 0, Lo, b.delay, work, room);
    CallLegs(log + custom + high + low, hasEnd, End);
    Regroup(log, custom, high, low, end);
  }

  lemma Regroup(log: seq<Event>, a: seq<Event>, b: seq<Event>, c: seq<Event>, d: seq<Event>)
    ensures log + (a + b + c + d) == log + a + b + c + d
  {
  }

  lemma CallLegs(log: seq<Event>, present: bool, e: Event)
    requires !e.Wait?
    ensures var more := log + if present then [e] else [];
            Legs(more) == Legs(log) && Trailing(more) == Trailing(log) + Bit(present, 1)
  {
    if present {
      LegsSnoc(log, e);
      assert Legs(log) + [] == Legs(log);
    } else {
      assert log + [] == log;
    }
  }

  // ------------------------------------------------------------------ on time, and back on time

  /** No stall on the first k legs. */
  ghost predicate CalmUpTo(laps: seq<Lap>, k: nat)
  {
    forall j :: 0 <= j < k && j < |laps| ==> laps[j].calm
  }

  /** The last wait of a roomy beginning of a log ends when the periods so far are over, and at
      most the slack later. */
  lemma BeginningOnTime(start: nat, laps: seq<Lap>, log: seq<Event>, rest: seq<Event>, work: nat, slack: nat)
    requires Kept(start, laps, work, slack) && LegsOf(laps) == Legs(log + rest)
    requires |Legs(log)| > 0 && AllRoomy(Legs(log), work, slack)
    requires CalmUpTo(laps, |Legs(log)|)
    ensures |Legs(log)| <= |laps|
    ensures var end := start + Total(Legs(log)); end <= laps[|Legs(log)| - 1].ended <= end + slack
  {
    LegsPrefix(log, rest);
    LegsOnTime(start, laps, Legs(log), work, slack);
  }

  lemma LegsOnTime(start: nat, laps: seq<Lap>, legs: seq<Leg>, work: nat, slack: nat)
    requires Kept(start, laps, work, slack) && legs <= LegsOf(laps) && |legs| > 0
    requires AllRoomy(legs, work, slack) && CalmUpTo(laps, |legs|)
    ensures var end := start + Total(legs); end <= laps[|legs| - 1].ended <= end + slack
  {
    var k := |legs|;
    assert LegsOf(laps)[..k] == legs;
    forall j: nat | j <= k - 1 ensures Smooth(laps, work, slack, j) {
      assert laps[j].leg == LegsOf(laps)[j] == legs[j];
    }
    NoDrift(start, laps, work, slack, k - 1);
    DueIsTotal(start, laps, k);
  }

  /** A train at accuracy level 2 keeps its average frequency: whatever RunTask leaves behind,
      its k-th cycle ends k full periods after the start, and at most the slack later, for
      every k, when a callback and the slack fit into the duration and into the delay. */
  lemma TrainKeepsFrequency(start: nat, laps: seq<Lap>, delay: nat, dur: nat, n: nat, hasEnd: bool,
                            work: nat, slack: nat, k: nat)
    requires Kept(start, laps, work, slack)
    requires LegsOf(laps) == Legs(TaskLog(delay, dur, n, hasEnd))
    requires n != 1 && 0 < k <= n && dur > 0
    requires work + slack <= dur && (delay > 0 ==> work + slack <= delay)
    requires CalmUpTo(laps, |Legs(TrainLog(delay, dur, k))|)
    ensures var m := |Legs(TrainLog(delay, dur, k))|;
            && 0 < m <= |laps|
            && start + k * (delay + dur) <= laps[m - 1].ended <= start + k * (delay + dur) + slack
  {
    TrainOnTime(start, laps, delay, dur, n, hasEnd, work, slack, k);
    TimesIsProduct(k, delay + dur);
  }

  lemma TrainOnTime(start: nat, laps: seq<Lap>, delay: nat, dur: nat, n: nat, hasEnd: bool,
                    work: nat, slack: nat, k: nat)
    requires Kept(start, laps, work, slack)
    requires LegsOf(laps) == Legs(TaskLog(delay, dur, n, hasEnd))
    requires n != 1 && 0 < k <= n && dur > 0
    requires work + slack <= dur && (delay > 0 ==> work + slack <= delay)
    requires CalmUpTo(laps, |Legs(TrainLog(delay, dur, k))|)
    ensures var m := |Legs(TrainLog(delay, dur, k))|;
            && 0 < m <= |laps|
            && (var end := start + Times(k, delay + dur); end <= laps[m - 1].ended <= end + slack)
  {
    var log := TrainLog(delay, dur, k);
    TrainLegs(delay, dur, k, work, slack);
    var rest := TaskSplits(delay, dur, n, hasEnd, k);
    assert LegsOf(laps) == Legs(log + rest);
    BeginningOnTime(start, laps, log, rest, work, slack);
  }

  lemma TaskSplits(delay: nat, dur: nat, n: nat, hasEnd: bool, k: nat) returns (rest: seq<Event>)
    requires n != 1 && k <= n
    ensures TaskLog(delay, dur, n, hasEnd) == TrainLog(delay, dur, k) + rest
  {
    TrainSplits(delay, dur, k, n);
    rest := TrainLog(delay, dur, n - k) + EndLog(hasEnd);
    Associate(TrainLog(delay, dur, k), TrainLog(delay, dur, n - k), EndLog(hasEnd));
  }

  lemma {:induction false} TrainSplits(delay: nat, dur: nat, k: nat, n: nat)
    requires k <= n
    ensures TrainLog(delay, dur, n) == TrainLog(delay, dur, k) + TrainLog(delay, dur, n - k)
  {
    if k < n {
      TrainSplits(delay, dur, k, n - 1);
      Associate(TrainLog(delay, dur, k), TrainLog(delay, dur, n - 1 - k), CycleLog(delay, dur));
    } else {
      assert TrainLog(delay, dur, k) + [] == TrainLog(delay, dur, k);
    }
  }

  /** An infinite train at accuracy level 2 keeps its schedule for as long as it runs: whatever
      RunLoop leaves behind, its k-th pulse ends when the time asked for by the first k pulses
      is over, and at most the slack later, however often it is retimed. */
  lemma LoopKeepsSchedule(start: nat, laps: seq<Lap>, beats: seq<Beat>, hasEnd: bool,
                          work: nat, slack: nat, k: nat)
    requires Kept(start, laps, work, slack) && LegsOf(laps) == Legs(LoopLog(beats, hasEnd))
    requires 0 < k <= |beats| && BeatsRoomy(beats[..k], hasEnd, work, slack)
    requires CalmUpTo(laps, |Legs(LoopLog(beats[..k], hasEnd))|)
    ensures var m := |Legs(LoopLog(beats[..k], hasEnd))|;
            && 0 < m <= |laps|
            && start + BeatsTime(beats[..k]) <= laps[m - 1].ended <= start + BeatsTime(beats[..k]) + slack
  {
    LoopLegs(beats[..k], hasEnd, work, slack);
    var rest := LoopSplits(beats, hasEnd, k);
    BeginningOnTime(start, laps, LoopLog(beats[..k], hasEnd), rest, work, slack);
  }

  lemma {:induction false} LoopSplits(beats: seq<Beat>, hasEnd: bool, k: nat) returns (rest: seq<Event>)
    requires k <= |beats|
    ensures LoopLog(beats, hasEnd) == LoopLog(beats[..k], hasEnd) + rest
    decreases |beats|
  {
    if k == |beats| {
      assert beats[..k] == beats;
      rest := [];
    } else {
      var init := beats[..|beats| - 1];
      rest := LoopSplits(init, hasEnd, k);
      assert init[..k] == beats[..k];
      Associate(LoopLog(beats[..k], hasEnd), rest, BeatLog(beats[|beats| - 1], hasEnd));
      rest := rest + BeatLog(beats[|beats| - 1], hasEnd);
    }
  }

  /** With the same timing throughout, k pulses take k periods. */
  lemma {:induction false} SteadyBeats(beats: seq<Beat>, delay: nat, dur: nat)
    requires forall j :: 0 <= j < |beats| ==> beats[j].delay == delay && beats[j].dur == dur
    ensures BeatsTime(beats) == |beats| * (delay + dur)
  {
    if beats != [] {
      SteadyBeats(beats[..|beats| - 1], delay, dur);
      Distribute(|beats| - 1, delay + dur);
    }
  }

  /** However late the k-th wait of an infinite train ended, for whatever reason, after enough
      waits without a stall the train is back within the slack of the schedule it had from the
      start, and stays there. */
  lemma LoopRecovers(start: nat, laps: seq<Lap>, beats: seq<Beat>, hasEnd: bool,
                     work: nat, slack: nat, room: nat, k: nat, m: nat)
    requires Kept(start, laps, work, slack) && LegsOf(laps) == Legs(LoopLog(beats, hasEnd))
    requires slack < room && BeatsRoomy(beats, hasEnd, work, room)
    requires k + m < |laps| && m >= WaitsToRecover(Late(start, laps, k), slack, room - slack)
    requires forall j :: k < j <= k + m ==> laps[j].calm
    ensures var end := start + Total(Legs(LoopLog(beats, hasEnd))[..k + m + 1]);
            end <= laps[k + m].ended <= end + slack
  {
    LoopLegs(beats, hasEnd, work, room);
    BackOnTime(start, laps, LoopLog(beats, hasEnd), work, slack, room, k, m);
  }

  /** The same for a train of n pulses. */
  lemma TrainRecovers(start: nat, laps: seq<Lap>, delay: nat, dur: nat, n: nat, hasEnd: bool,
                      work: nat, slack: nat, room: nat, k: nat, m: nat)
    requires Kept(start, laps, work, slack) && LegsOf(laps) == Legs(TaskLog(delay, dur, n, hasEnd)) && n != 1
    requires slack < room && work + room <= dur && (delay > 0 ==> work + room <= delay)
    requires k + m < |laps| && m >= WaitsToRecover(Late(start, laps, k), slack, room - slack)
    requires forall j :: k < j <= k + m ==> laps[j].calm
    ensures var end := start + Total(Legs(TaskLog(delay, dur, n, hasEnd))[..k + m + 1]);
            end <= laps[k + m].ended <= end + slack
  {
    TrainLegs(delay, dur, n, work, room);
    CallLegs(TrainLog(delay, dur, n), hasEnd, End);
    BackOnTime(start, laps, TaskLog(delay, dur, n, hasEnd), work, slack, room, k, m);
  }

  lemma BackOnTime(start: nat, laps: seq<Lap>, log: seq<Event>,
                   work: nat, slack: nat, room: nat, k: nat, m: nat)
    requires Kept(start, laps, work, slack) && LegsOf(laps) == Legs(log)
    requires slack < room && AllRoomy(Legs(log), work, room)
    requires k + m < |laps| && m >= WaitsToRecover(Late(start, laps, k), slack, room - slack)
    requires forall j :: k < j <= k + m ==> laps[j].calm
    ensures var end := start + Total(Legs(log)[..k + m + 1]); end <= laps[k + m].ended <= end + slack
  {
    forall j: nat | k < j <= k + m ensures Smooth(laps, work, room, j) {
      assert laps[j].leg == LegsOf(laps)[j] == Legs(log)[j];
    }
    Recovers(start, laps, work, slack, room, k, m);
    DueIsTotal(start, laps, k + m + 1);
  }

  /** How often an event comes in a log. */
  function HowMany(log: seq<Event>, e: Event): nat
  {
    if log == [] then 0
    else HowMany(log[..|log| - 1], e) + if log[|log| - 1] == e then 1 else 0
  }

  lemma SnocMany(log: seq<Event>, x: Event, e: Event)
    ensures HowMany(log + [x], e) == HowMany(log, e) + if x == e then 1 else 0
  {
    assert (log + [x])[..|log|] == log;
  }

  lemma {:induction false} ManyConcat(a: seq<Event>, b: seq<Event>, e: Event)
    ensures HowMany(a + b, e) == HowMany(a, e) + HowMany(b, e)
  {
    if b == [] {
      assert a + b == a;
    } else {
      var init, x := b[..|b| - 1], b[|b| - 1];
      ManyConcat(a, init, e);
      SnocMany(a + init, x, e);
      assert a + b == (a + init) + [x];
    }
  }

  lemma ManyInTwo(x: Event, m: nat, e: Event)
    requires !e.Wait?
    ensures HowMany([x, Wait(m)], e) == if x == e then 1 else 0
    ensures HowMany([x], e) == if x == e then 1 else 0
  {
    SnocMany([], x, e);
    SnocMany([x], Wait(m), e);
    assert [] + [x] == [x] && [x] + [Wait(m)] == [x, Wait(m)];
  }

  function Edge(e: Event): seq<Event> { if e.Hi? || e.Lo? then [e] else [] }

  /** The high and low callbacks of a log, in order. */
  function Edges(log: seq<Event>): seq<Event>
  {
    if log == [] then [] else Edge(log[0]) + Edges(log[1..])
  }

  /** The end functions called. */
  function Ends(log: seq<Event>): nat
  {
    if log == [] then 0 else (if log[0].End? then 1 else 0) + Ends(log[1..])
  }

  lemma {:induction false} EdgesConcat(a: seq<Event>, b: seq<Event>)
    ensures Edges(a + b) == Edges(a) + Edges(b)
  {
    if a == [] {
      assert a + b == b;
    } else {
      EdgesConcat(a[1..], b);
      assert (a + b)[0] == a[0] && (a + b)[1..] == a[1..] + b;
      Associate(Edge(a[0]), Edges(a[1..]), Edges(b));
    }
  }

  lemma Associate(a: seq<Event>, b: seq<Event>, c: seq<Event>)
    ensures a + (b + c) == (a + b) + c
  {
  }

  lemma {:induction false} EndsConcat(a: seq<Event>, b: seq<Event>)
    ensures Ends(a + b) == Ends(a) + Ends(b)
  {
    if a == [] {
      assert a + b == b;
    } else {
      EndsConcat(a[1..], b);
      assert (a + b)[0] == a[0] && (a + b)[1..] == a[1..] + b;
    }
  }

  lemma Single(e: Event)
    ensures Edges([e]) == Edge(e) && Ends([e]) == if e.End? then 1 else 0
  {
    assert [e][1..] == [];
    assert Edges([e]) == Edge(e) + Edges([]);
  }

  /** High, low, high, low, and so on. */
  ghost predicate Alternates(edges: seq<Event>)
  {
    forall k :: 0 <= k < |edges| ==> edges[k] == if k % 2 == 0 then Hi else Lo
  }

  lemma AlternatesConcat(a: seq<Event>, b: seq<Event>)
    requires Alternates(a) && Alternates(b) && |a| % 2 == 0
    ensures Alternates(a + b)
  {
    forall k | 0 <= k < |a + b| ensures (a + b)[k] == if k % 2 == 0 then Hi else Lo {
      if k >= |a| {
        assert (a + b)[k] == b[k - |a|];
        SameParity(k, |a|);
      }
    }
  }

  lemma SameParity(k: nat, n: nat)
    requires n <= k && n % 2 == 0
    ensures (k - n) % 2 == k % 2
  {
  }

  lemma CycleEdges(delay: nat, dur: nat)
    requires delay > 0 && dur > 0
    ensures Edges(CycleLog(delay, dur)) == [Hi, Lo] && Ends(CycleLog(delay, dur)) == 0
  {
    assert CycleLog(delay, dur) == [Hi, Wait(dur)] + [Lo, Wait(delay)];
    HalfEdges(Hi, dur);
    HalfEdges(Lo, delay);
    EdgesConcat([Hi, Wait(dur)], [Lo, Wait(delay)]);
    EndsConcat([Hi, Wait(dur)], [Lo, Wait(delay)]);
  }

  lemma HalfEdges(e: Event, m: nat)
    requires e.Hi? || e.Lo?
    ensures Edges([e, Wait(m)]) == [e] && Ends([e, Wait(m)]) == 0
  {
    assert [e, Wait(m)] == [e] + [Wait(m)];
    Single(e);
    Single(Wait(m));
    EdgesConcat([e], [Wait(m)]);
    EndsConcat([e], [Wait(m)]);
  }

  lemma {:induction false} TrainEdges(delay: nat, dur: nat, n: nat)
    requires delay > 0 && dur > 0
    ensures Alternates(Edges(TrainLog(delay, dur, n)))
    ensures |Edges(TrainLog(delay, dur, n))| == 2 * n && Ends(TrainLog(delay, dur, n)) == 0
  {
    if n > 0 {
      TrainEdges(delay, dur, n - 1);
      CycleEdges(delay, dur);
      AppendTask(TrainLog(delay, dur, n - 1), CycleLog(delay, dur), n - 1, 1);
    }
  }

  /** N train tasks in a row alternate high and low from beginning to end, with n of each for
      every task, and call the end function N times. */
  lemma {:induction false} TasksAlternate(delay: nat, dur: nat, n: nat, tasks: nat)
    requires delay > 0 && dur > 0 && n != 1
    ensures var log := Repeat(TaskLog(delay, dur, n, true), tasks);
            && Alternates(Edges(log)) && |Edges(log)| == 2 * (tasks * n) && Ends(log) == tasks
  {
    if tasks > 0 {
      var one := TaskLog(delay, dur, n, true);
      OneTaskAlternates(delay, dur, n);
      TasksAlternate(delay, dur, n, tasks - 1);
      AppendTask(Repeat(one, tasks - 1), one, (tasks - 1) * n, n);
      Distribute(tasks - 1, n);
    }
  }

  lemma OneTaskAlternates(delay: nat, dur: nat, n: nat)
    requires delay > 0 && dur > 0 && n != 1
    ensures var one := TaskLog(delay, dur, n, true);
            && Alternates(Edges(one)) && |Edges(one)| == 2 * n && Ends(one) == 1
  {
    TrainEdges(delay, dur, n);
    Single(End);
    EdgesConcat(TrainLog(delay, dur, n), [End]);
    EndsConcat(TrainLog(delay, dur, n), [End]);
    assert Edges(TrainLog(delay, dur, n)) + [] == Edges(TrainLog(delay, dur, n));
  }

  lemma AppendTask(before: seq<Event>, one: seq<Event>, m: nat, n: nat)
    requires Alternates(Edges(before)) && |Edges(before)| == 2 * m
    requires Alternates(Edges(one)) && |Edges(one)| == 2 * n
    ensures Alternates(Edges(before + one)) && |Edges(before + one)| == 2 * (m + n)
    ensures Ends(before + one) == Ends(before) + Ends(one)
  {
    EndsConcat(before, one);
    EdgesConcat(before, one);
    AppendEdges(Edges(before), Edges(one), m, n);
  }

  lemma AppendEdges(a: seq<Event>, b: seq<Event>, m: nat, n: nat)
    requires Alternates(a) && |a| == 2 * m && Alternates(b) && |b| == 2 * n
    ensures Alternates(a + b) && |a + b| == 2 * (m + n)
  {
    AlternatesConcat(a, b);
  }

  lemma Distribute(k: nat, n: nat)
    ensures (k + 1) * n == k * n + n
  {
  }

  /** One more repetition, when what is recorded so far and a pending callback are on one side. */
  lemma RepeatMore(all: seq<Event>, ran: seq<Event>, before: seq<Event>, one: seq<Event>, k: nat)
    requires all + ran == before + Repeat(one, k)
    ensures all + ran + one == before + Repeat(one, k + 1)
  {
    Associate(before, Repeat(one, k), one);
  }
}
