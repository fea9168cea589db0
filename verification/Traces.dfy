/** The worker of the step system emits the logs of the imperative worker: inside a task nobody
    else can change what it emits, except by storing to the timing fields. */
module Traces {

  import opened Words
  import opened Machine
  import opened Safety
  import F = Freshness
  import L = Logs

  /** What the worker's next step calls, and how long it waits, by its private timers. */
  function Emitted(s: State): seq<L.Event>
  {
    match s.pc
    case PulseHi => (if s.delay > 0 then [L.Wait(s.delayTimer)] else []) + [L.Hi, L.Wait(s.durTimer)]
    case PulseLo => [L.Lo]
    case TrainHi(_) => if s.dur > 0 then [L.Hi, L.Wait(s.durTimer)] else []
    case TrainLo(_) => if s.delay > 0 then [L.Lo, L.Wait(s.delayTimer)] else []
    case LoopHi => [L.Hi, L.Wait(s.durTimer)]
    case LoopLo => if s.delay > 0 then [L.Lo, L.Wait(s.delayTimer)] else []
    case EndFn(_) => [L.End]
    case _ => []
  }

  function EmittedBy(s: State, e: Event): seq<L.Event> { if e.Work? then Emitted(s) else [] }

  ghost function Trace(s: State, es: seq<Event>): seq<L.Event>
    decreases |es|
  {
    if es == [] || !Enabled(s, es[0]) then []
    else EmittedBy(s, es[0]) + Trace(Do(s, es[0]), es[1..])
  }

  /** From the choice of a finite task to its end function, or from the high callback of one
      pulse of an infinite train to its end function. */
  predicate Emitting(s: State)
  {
    || (s.pc.Dispatch? && s.nPulses != 0)
    || s.pc.PulseHi? || s.pc.PulseLo? || s.pc.TrainTest? || s.pc.TrainHi? || s.pc.TrainLo?
    || s.pc.LoopHi? || s.pc.LoopLo? || s.pc.EndFn?
  }

  function Remaining(s: State, i: int): nat { if i <= s.nPulses then s.nPulses - i else 0 }

  /** What is still to be emitted before the end function, by the fields. */
  function Rest(s: State): seq<L.Event>
  {
    match s.pc
    case Dispatch => L.BodyLog(s.delay, s.dur, s.nPulses)
    case PulseHi => L.PulseLog(s.delay, s.dur)
    case PulseLo => [L.Lo]
    case TrainTest(i) => L.TrainLog(s.delay, s.dur, Remaining(s, i))
    case TrainHi(i) => L.CycleLog(s.delay, s.dur) + L.TrainLog(s.delay, s.dur, Remaining(s, i + 1))
    case TrainLo(i) => L.LowLog(s.delay) + L.TrainLog(s.delay, s.dur, Remaining(s, i + 1))
    case LoopHi => L.HighLog(s.dur) + L.LowLog(s.delay)
    case LoopLo => L.LowLog(s.delay)
    case _ => []
  }

  /** A stretch of a run in which the worker gets no further than its end function and nobody
      stores to the timing fields; everything else may happen. */
  ghost predicate Steady(s: State, es: seq<Event>, t: State)
    decreases |es|
  {
    && Emitting(s)
    && if es == [] then s == t
       else
         && Enabled(s, es[0])
         && (var u := Do(s, es[0]); u.delay == s.delay && u.dur == s.dur && u.nPulses == s.nPulses)
         && Steady(Do(s, es[0]), es[1..], t)
  }

  ghost predicate Fresh(s: State) { s.delayTimer == s.delay && s.durTimer == s.dur }

  /** What a step emits is the next piece of what is still to come. */
  lemma SteadyStep(s: State, e: Event)
    requires Emitting(s) && Fresh(s) && Enabled(s, e)
    requires var u := Do(s, e); Emitting(u) && u.delay == s.delay && u.dur == s.dur && u.nPulses == s.nPulses
    ensures Fresh(Do(s, e)) && EmittedBy(s, e) + Rest(Do(s, e)) == Rest(s)
  {
    if e.Work? {
      SteadyWork(s, e.choice);
    } else {
      OthersEmitNothing(s, e);
    }
  }

  lemma OthersEmitNothing(s: State, e: Event)
    requires Emitting(s) && Fresh(s) && Enabled(s, e) && !e.Work?
    requires var u := Do(s, e); u.delay == s.delay && u.dur == s.dur && u.nPulses == s.nPulses
    ensures Fresh(Do(s, e)) && EmittedBy(s, e) + Rest(Do(s, e)) == Rest(s)
  {
    CallFrame(s, e);
    assert [] + Rest(s) == Rest(s);
  }

  lemma SteadyWork(s: State, c: EndChoice)
    requires Emitting(s) && Fresh(s) && WorkEnabled(s) && Emitting(WorkerStep(s, c))
    ensures Fresh(WorkerStep(s, c)) && Emitted(s) + Rest(WorkerStep(s, c)) == Rest(s)
  {
    var u := WorkerStep(s, c);
    assert u == s.(pc := NextPc(s), calls := u.calls);
    if s.pc.TrainTest? || s.pc.TrainHi? || s.pc.TrainLo? {
      SteadyTrain(s, u);
    } else {
      SteadyElse(s, u);
    }
  }

  lemma SteadyTrain(s: State, u: State)
    requires (s.pc.TrainTest? || s.pc.TrainHi? || s.pc.TrainLo?) && Fresh(s)
    requires u == s.(pc := NextPc(s), calls := u.calls)
    ensures Emitted(s) + Rest(u) == Rest(s)
  {
    var i := s.pc.i;
    if s.pc.TrainTest? {
      if i < s.nPulses { TrainFront(s.delay, s.dur, s.nPulses - i); }
      assert [] + Rest(u) == Rest(u);
    } else if s.pc.TrainHi? {
      L.Associate(Emitted(s), L.LowLog(s.delay), L.TrainLog(s.delay, s.dur, Remaining(s, i + 1)));
    }
  }

  lemma SteadyElse(s: State, u: State)
    requires s.pc.Dispatch? || s.pc.PulseHi? || s.pc.PulseLo? || s.pc.LoopHi? || s.pc.LoopLo?
    requires Fresh(s) && Emitting(s) && u == s.(pc := NextPc(s), calls := u.calls)
    ensures Emitted(s) + Rest(u) == Rest(s)
  {
    if s.pc.Dispatch? {
      assert [] + Rest(u) == Rest(u);
    } else if s.pc.PulseHi? {
      L.Associate(if s.delay > 0 then [L.Wait(s.delay)] else [], [L.Hi, L.Wait(s.dur)], [L.Lo]);
    } else {
      assert Emitted(s) + [] == Emitted(s);
    }
  }

  /** The first cycle of a train. */
  lemma TrainFront(delay: nat, dur: nat, n: nat)
    requires n > 0
    ensures L.TrainLog(delay, dur, n) == L.CycleLog(delay, dur) + L.TrainLog(delay, dur, n - 1)
  {
    L.TrainSplits(delay, dur, 1, n);
    assert L.TrainLog(delay, dur, 0) == [];
    assert [] + L.CycleLog(delay, dur) == L.CycleLog(delay, dur);
  }

  lemma {:induction false} SteadyTrace(s: State, es: seq<Event>, t: State)
    requires Steady(s, es, t) && Fresh(s)
    ensures Trace(s, es) + Rest(t) == Rest(s) && Fresh(t)
    ensures t.delay == s.delay && t.dur == s.dur && t.nPulses == s.nPulses
    decreases |es|
  {
    if es == [] {
      assert [] + Rest(s) == Rest(s);
    } else {
      var u := Do(s, es[0]);
      StartsEmitting(u, es[1..], t);
      SteadyStep(s, es[0]);
      SteadyTrace(u, es[1..], t);
      L.Associate(EmittedBy(s, es[0]), Trace(u, es[1..]), Rest(t));
    }
  }

  lemma StartsEmitting(s: State, es: seq<Event>, t: State)
    requires Steady(s, es, t)
    ensures Emitting(s)
  {
  }

  /** A finite task that starts with fresh timers, and to whose timing fields nobody stores,
      emits exactly the log of the imperative worker, whatever the controllers do meanwhile:
      add and take back tasks, raise signals, stop and start. */
  lemma TaskEmitsItsLog(s: State, es: seq<Event>, t: State)
    requires s.pc.Dispatch? && Fresh(s) && Steady(s, es, t) && t.pc.EndFn?
    ensures Trace(s, es) + Emitted(t) == L.TaskLog(s.delay, s.dur, s.nPulses, true)
  {
    SteadyTrace(s, es, t);
    assert Trace(s, es) + [] == Trace(s, es);
  }

  /** So does each pulse of an infinite train. */
  lemma PulseEmitsItsLog(s: State, es: seq<Event>, t: State)
    requires s.pc.LoopHi? && Fresh(s) && Steady(s, es, t) && t.pc.EndFn?
    ensures Trace(s, es) + Emitted(t) == L.BeatLog(L.Beat(false, s.delay, s.dur), true)
  {
    SteadyTrace(s, es, t);
    assert Trace(s, es) + [] == Trace(s, es);
    PlainBeat(s.delay, s.dur);
  }

  lemma PlainBeat(delay: nat, dur: nat)
    ensures L.BeatLog(L.Beat(false, delay, dur), true) == L.HighLog(dur) + L.LowLog(delay) + [L.End]
  {
    assert [] + L.HighLog(dur) == L.HighLog(dur);
  }

  /** Every supported run: where the worker gives up the lock to start a task, or starts a pulse
      of an infinite train, and no news was discarded and no store is under way, what it emits
      is the log of the current fields, if nobody retimes it before its end function. */
  lemma SupportedTaskEmitsItsLog(s: State, c: EndChoice, es: seq<Event>, t: State)
    requires Reachable(s) && !s.h.fault && F.AboutToStart(s)
    requires !s.h.lostDelay && !s.h.lostDur && !F.DelayOnItsWay(s) && !F.DurOnItsWay(s)
    requires WorkEnabled(s) && Steady(WorkerStep(s, c), es, t) && t.pc.EndFn?
    ensures Trace(WorkerStep(s, c), es) + Emitted(t) ==
            if WorkerStep(s, c).pc.LoopHi? then L.BeatLog(L.Beat(false, s.delay, s.dur), true)
            else L.TaskLog(s.delay, s.dur, s.nPulses, true)
  {
    F.TasksStartFresh(s);
    var u := WorkerStep(s, c);
    assert u.delay == s.delay && u.dur == s.dur && u.nPulses == s.nPulses && Fresh(u);
    if u.pc.LoopHi? {
      PulseEmitsItsLog(u, es, t);
    } else {
      TaskEmitsItsLog(u, es, t);
    }
  }

  /** Nothing stands in the way of that step. */
  lemma StartsWhenAbout(s: State, c: EndChoice)
    requires Reachable(s) && F.AboutToStart(s)
    ensures WorkEnabled(s)
    ensures WorkerStep(s, c).pc == if s.pc.LoopFlags? || (s.pc.Mod? && s.pc.site.InTrain?) then LoopHi else Dispatch
  {
  }

  // ------------------------------------------------------------------ the count of callbacks

  lemma EmittedIsHeard(s: State, e: Event)
    requires Enabled(s, e)
    ensures var t := Do(s, e);
            && t.calls.his - s.calls.his == L.HowMany(EmittedBy(s, e), L.Hi)
            && t.calls.los - s.calls.los == L.HowMany(EmittedBy(s, e), L.Lo)
  {
    if e.Work? {
      EmittedByWorker(s, e.choice);
    } else {
      CallFrame(s, e);
    }
  }

  lemma EmittedByWorker(s: State, c: EndChoice)
    requires WorkEnabled(s)
    ensures var t := WorkerStep(s, c);
            && t.calls.his - s.calls.his == L.HowMany(Emitted(s), L.Hi)
            && t.calls.los - s.calls.los == L.HowMany(Emitted(s), L.Lo)
  {
    EmittedCounts(s);
    if Plainly(s.pc) {
      PlainlyHeard(s, WorkerStep(s, c));
    } else {
      CallsStay(s, c);
    }
  }

  predicate EmitsHigh(s: State) { s.pc.PulseHi? || s.pc.LoopHi? || (s.pc.TrainHi? && s.dur > 0) }

  predicate EmitsLow(s: State) { s.pc.PulseLo? || ((s.pc.TrainLo? || s.pc.LoopLo?) && s.delay > 0) }

  lemma EmittedCounts(s: State)
    ensures L.HowMany(Emitted(s), L.Hi) == if EmitsHigh(s) then 1 else 0
    ensures L.HowMany(Emitted(s), L.Lo) == if EmitsLow(s) then 1 else 0
  {
    CountOf(s, L.Hi);
    CountOf(s, L.Lo);
  }

  lemma CountOf(s: State, e: L.Event)
    requires e.Hi? || e.Lo?
    ensures L.HowMany(Emitted(s), e) == if (e.Hi? && EmitsHigh(s)) || (e.Lo? && EmitsLow(s)) then 1 else 0
  {
    L.ManyInTwo(L.Hi, s.durTimer, e);
    L.ManyInTwo(L.Lo, s.delayTimer, e);
    L.ManyInTwo(L.End, 0, e);
    if s.pc.PulseHi? {
      L.ManyInTwo(L.Wait(s.delayTimer), 0, e);
      L.ManyConcat(if s.delay > 0 then [L.Wait(s.delayTimer)] else [], [L.Hi, L.Wait(s.durTimer)], e);
    }
  }

  lemma PlainlyHeard(s: State, t: State)
    requires Plainly(s.pc) && t.calls == Heard(s)
    ensures t.calls.his - s.calls.his == if EmitsHigh(s) then 1 else 0
    ensures t.calls.los - s.calls.los == if EmitsLow(s) then 1 else 0
  {
  }

  lemma CallsStay(s: State, c: EndChoice)
    requires WorkEnabled(s) && !Plainly(s.pc)
    ensures WorkerStep(s, c).calls.his == s.calls.his && WorkerStep(s, c).calls.los == s.calls.los
    ensures !EmitsHigh(s) && !EmitsLow(s)
  {
  }

  /** In every run the high and low callbacks counted are those emitted. */
  lemma {:induction false} TraceIsHeard(s: State, es: seq<Event>, t: State)
    requires Run(s, es, t)
    ensures t.calls.his - s.calls.his == L.HowMany(Trace(s, es), L.Hi)
    ensures t.calls.los - s.calls.los == L.HowMany(Trace(s, es), L.Lo)
    decreases |es|
  {
    if es != [] {
      EmittedIsHeard(s, es[0]);
      TraceIsHeard(Do(s, es[0]), es[1..], t);
      L.ManyConcat(EmittedBy(s, es[0]), Trace(Do(s, es[0]), es[1..]), L.Hi);
      L.ManyConcat(EmittedBy(s, es[0]), Trace(Do(s, es[0]), es[1..]), L.Lo);
    }
  }
}
