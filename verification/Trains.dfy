/** Infinite trains: what is counted, and how they stop. */
module Trains {

  import opened Words
  import opened Machine
  import opened Safety
  import opened Freshness

  /** A pulse of an infinite train has had its high callback and not yet its end. */
  predicate MidPulse(pc: Worker)
  {
    pc.LoopLo? || (pc.EndFn? && pc.loop) || (pc.EndFlag? && pc.loop)
  }

  /** Every pulse of an infinite train that went high is finished, save the one in progress. */
  predicate PulseInv(s: State)
  {
    s.calls.loopHis == s.calls.loopPulses + if MidPulse(s.pc) then 1 else 0
  }

  lemma PulseStep(s: State, e: Event)
    requires PulseInv(s) && Enabled(s, e)
    ensures PulseInv(Do(s, e))
  {
    if e.Work? {
      PulseWork(s, e.choice);
    } else {
      CallFrame(s, e);
    }
  }

  lemma PulseWork(s: State, c: EndChoice)
    requires PulseInv(s) && WorkEnabled(s)
    ensures PulseInv(WorkerStep(s, c))
  {
    if Plainly(s.pc) {
      PlainPulse(s, c);
    }
  }

  lemma PlainPulse(s: State, c: EndChoice)
    requires PulseInv(s) && WorkEnabled(s) && Plainly(s.pc)
    ensures PulseInv(WorkerStep(s, c))
  {
    assert WorkerStep(s, c) == s.(pc := NextPc(s), lock := NextLock(s), calls := Heard(s));
  }

  lemma {:induction false} PulseRun(s: State, es: seq<Event>, t: State)
    requires PulseInv(s) && Run(s, es, t)
    ensures PulseInv(t)
    decreases |es|
  {
    if es != [] {
      PulseStep(s, es[0]);
      PulseRun(Do(s, es[0]), es[1..], t);
    }
  }

  /** The worker is past the test of the train's loop and will call hiFunc once more. */
  predicate Committed(pc: Worker)
  {
    pc.LoopFlags? || pc.LoopLock? || pc.LoopHi? || (pc.Mod? && pc.site.InTrain?)
  }

  /** A stretch of a run in which the task stays an infinite train. */
  ghost predicate StaysInfinite(s: State, es: seq<Event>, t: State)
    decreases |es|
  {
    && s.nPulses == 0
    && if es == [] then s == t
       else Enabled(s, es[0]) && StaysInfinite(Do(s, es[0]), es[1..], t)
  }

  /** A stretch of a run in which, besides, nobody starts the train. */
  ghost predicate StaysStopped(s: State, es: seq<Event>, t: State)
    decreases |es|
  {
    && s.nPulses == 0 && !Odd(s.word)
    && if es == [] then s == t
       else Enabled(s, es[0]) && StaysStopped(Do(s, es[0]), es[1..], t)
  }

  lemma {:induction false} StaysStoppedFaults(s: State, es: seq<Event>, t: State)
    requires StaysStopped(s, es, t) && !t.h.fault
    ensures !s.h.fault
    decreases |es|
  {
    if es != [] {
      StaysStoppedFaults(Do(s, es[0]), es[1..], t);
      FaultsStay(s, es[0]);
    }
  }

  lemma InfiniteStep(s: State, e: Event)
    requires Inv(s) && !s.h.fault && s.nPulses == 0 && Enabled(s, e)
    ensures Do(s, e).h.completed == s.h.completed
  {
    if e.Work? {
      assert !s.pc.Dec?;
    } else {
      CallFrame(s, e);
    }
  }

  /** While the task stays an infinite train its count is 0 or 1 and nothing is counted off. */
  lemma {:induction false} InfiniteNeverDecremented(s: State, es: seq<Event>, t: State)
    requires Reachable(s) && StaysInfinite(s, es, t) && !t.h.fault
    ensures Count(t.word) <= 1 && t.h.completed == s.h.completed
    decreases |es|
  {
    ReachableInv(s);
    if es != [] {
      ReachStep(s, es[0]);
      InfiniteNeverDecremented(Do(s, es[0]), es[1..], t);
      StaysInfiniteFaults(Do(s, es[0]), es[1..], t);
      FaultsStay(s, es[0]);
      InfiniteStep(s, es[0]);
    }
  }

  lemma {:induction false} StaysInfiniteFaults(s: State, es: seq<Event>, t: State)
    requires StaysInfinite(s, es, t) && !t.h.fault
    ensures !s.h.fault
    decreases |es|
  {
    if es != [] {
      StaysInfiniteFaults(Do(s, es[0]), es[1..], t);
      FaultsStay(s, es[0]);
    }
  }

  /** One step of a stopped train uses up the commitment it spends. */
  lemma StoppedStep(s: State, e: Event)
    requires Inv(s) && !s.h.fault && s.nPulses == 0 && !Odd(s.word) && Enabled(s, e)
    ensures var t := Do(s, e);
            t.calls.his + (if Committed(t.pc) then 1 else 0)
            <= s.calls.his + (if Committed(s.pc) then 1 else 0)
  {
    if e.Work? {
      assert !FiniteBody(s.pc);
      StoppedWork(s, e.choice);
    } else {
      CallFrame(s, e);
    }
  }

  lemma StoppedWork(s: State, c: EndChoice)
    requires WorkEnabled(s) && !Odd(s.word) && !FiniteBody(s.pc)
    ensures var t := WorkerStep(s, c);
            t.calls.his + (if Committed(t.pc) then 1 else 0)
            <= s.calls.his + (if Committed(s.pc) then 1 else 0)
  {
    if Plainly(s.pc) {
      assert WorkerStep(s, c) == s.(pc := NextPc(s), lock := NextLock(s), calls := Heard(s));
    }
  }

  /** After the train is stopped and until somebody starts it again, hiFunc is called at most
      once more, and only by a worker already past its loop test; and a worker that has left
      the train has finished every pulse it began. */
  lemma {:induction false} StopsWithinOnePulse(s: State, es: seq<Event>, t: State)
    requires Reachable(s) && StaysStopped(s, es, t) && !t.h.fault
    ensures t.calls.his <= s.calls.his + (if Committed(s.pc) then 1 else 0)
    ensures !LoopBody(t.pc) ==> t.calls.loopHis == t.calls.loopPulses
    decreases |es|
  {
    ReachableInv(s);
    StaysStoppedFaults(s, es, t);
    if es == [] {
      ReachablePulse(s);
    } else {
      ReachStep(s, es[0]);
      StopsWithinOnePulse(Do(s, es[0]), es[1..], t);
      StoppedStep(s, es[0]);
    }
  }

  lemma ReachablePulse(t: State)
    requires Reachable(t)
    ensures PulseInv(t)
  {
    var s, es :| Init(s) && Run(s, es, t);
    PulseRun(s, es, t);
  }

  /** stopInfiniteTrain writes 0: from then on, as long as nobody starts the train again. */
  lemma StopTheorem(s: State, i: nat, es: seq<Event>, t: State)
    requires Reachable(s) && i < |s.ctl| && s.ctl[i] == Holding(Stop)
    requires StaysStopped(Do(s, Update(i)), es, t) && !t.h.fault
    ensures t.calls.his <= s.calls.his + 1
    ensures !LoopBody(t.pc) ==> t.calls.loopHis == t.calls.loopPulses
  {
    ReachStep(s, Update(i));
    StopsWithinOnePulse(Do(s, Update(i)), es, t);
  }

  // ------------------------------------------------------------------ one train of n pulses

  predicate InTrain(pc: Worker)
  {
    pc.TrainTest? || pc.TrainHi? || pc.TrainLo?
  }

  /** Pulses of the train whose high part, and whose low part, is behind the worker. */
  function Highs(pc: Worker): nat
  {
    match pc
    case TrainTest(i) => i
    case TrainHi(i) => i
    case TrainLo(i) => i + 1
    case _ => 0
  }

  function Lows(pc: Worker): nat
  {
    match pc
    case TrainTest(i) => i
    case TrainHi(i) => i
    case TrainLo(i) => i
    case _ => 0
  }

  /** A stretch of a run inside one train while nobody stores to its timing fields. */
  ghost predicate SteadyTrain(s: State, es: seq<Event>, t: State)
    decreases |es|
  {
    && InTrain(s.pc)
    && if es == [] then s == t
       else
         && Enabled(s, es[0])
         && (var u := Do(s, es[0]); u.delay == s.delay && u.dur == s.dur && u.nPulses == s.nPulses)
         && SteadyTrain(Do(s, es[0]), es[1..], t)
  }

  /** Whatever else the controllers do, a steady train calls high and low once for each pulse
      passed, the high one when the duration is not 0 and the low one when the delay is not 0. */
  lemma {:induction false} SteadyTrainCalls(s: State, es: seq<Event>, t: State)
    requires SteadyTrain(s, es, t)
    ensures t.calls.his - s.calls.his == if s.dur > 0 then Highs(t.pc) - Highs(s.pc) else 0
    ensures t.calls.los - s.calls.los == if s.delay > 0 then Lows(t.pc) - Lows(s.pc) else 0
    decreases |es|
  {
    if es != [] {
      SteadyTrainStep(s, es[0]);
      SteadyTrainCalls(Do(s, es[0]), es[1..], t);
    }
  }

  lemma SteadyTrainStep(s: State, e: Event)
    requires InTrain(s.pc) && Enabled(s, e) && InTrain(Do(s, e).pc)
    ensures var t := Do(s, e);
            && t.calls.his - s.calls.his == (if s.dur > 0 then Highs(t.pc) - Highs(s.pc) else 0)
            && t.calls.los - s.calls.los == (if s.delay > 0 then Lows(t.pc) - Lows(s.pc) else 0)
  {
    if e.Work? {
      TrainWork(s, e.choice);
    } else {
      CallFrame(s, e);
    }
  }

  lemma TrainWork(s: State, c: EndChoice)
    requires InTrain(s.pc) && WorkEnabled(s) && InTrain(WorkerStep(s, c).pc)
    ensures var t := WorkerStep(s, c);
            && t.calls.his - s.calls.his == (if s.dur > 0 then Highs(t.pc) - Highs(s.pc) else 0)
            && t.calls.los - s.calls.los == (if s.delay > 0 then Lows(t.pc) - Lows(s.pc) else 0)
            && Max(s.nPulses, Begun(t.pc)) == Max(s.nPulses, Begun(s.pc))
  {
  }

  // ------------------------------------------------------------------ one store inside a train

  function Max(a: int, b: int): int { if a < b then b else a }

  /** Pulses of the train that the worker has begun. */
  function Begun(pc: Worker): nat
  {
    match pc
    case TrainTest(i) => i
    case TrainHi(i) => i + 1
    case TrainLo(i) => i + 1
    case _ => 0
  }

  /** A steady train gets no further than its length, or than it had begun. */
  lemma {:induction false} SteadyTrainBound(s: State, es: seq<Event>, t: State)
    requires SteadyTrain(s, es, t)
    ensures Begun(t.pc) <= Max(s.nPulses, Begun(s.pc)) && t.nPulses == s.nPulses
    ensures t.pc.TrainTest? && t.pc.i >= s.nPulses ==> t.pc.i == Max(s.nPulses, Begun(s.pc))
    decreases |es|
  {
    if es != [] {
      BegunStep(s, es[0]);
      SteadyTrainBound(Do(s, es[0]), es[1..], t);
    }
  }

  lemma BegunStep(s: State, e: Event)
    requires InTrain(s.pc) && Enabled(s, e) && InTrain(Do(s, e).pc)
    ensures Max(s.nPulses, Begun(Do(s, e).pc)) == Max(s.nPulses, Begun(s.pc))
  {
    if e.Work? {
      TrainWork(s, e.choice);
    } else {
      CallFrame(s, e);
    }
  }

  /** A whole train, from its first test to its last, during which somebody stores once to one of
      its timing fields: `es` before the store e and `fs` after it. */
  ghost predicate RetimedTrain(s: State, es: seq<Event>, u: State, e: Event, fs: seq<Event>, t: State)
  {
    && s.pc == TrainTest(0) && SteadyTrain(s, es, u) && !e.Work? && Enabled(u, e)
    && SteadyTrain(Do(u, e), fs, t) && t.pc.TrainTest? && t.pc.i >= t.nPulses
  }

  /** The store counts from the moment it is made: the train has the new length, or the pulses
      begun if they are more, and each of its halves is heard by the fields of its own moment. */
  lemma RetimedTrainCalls(s: State, es: seq<Event>, u: State, e: Event, fs: seq<Event>, t: State)
    requires RetimedTrain(s, es, u, e, fs, t)
    ensures var w := Do(u, e);
            var pulses := Max(w.nPulses, Begun(u.pc));
            && t.pc == TrainTest(pulses)
            && t.calls.los - s.calls.los == HeardBy(s.delay, Lows(u.pc), w.delay, pulses)
            && t.calls.his - s.calls.his == HeardBy(s.dur, Highs(u.pc), w.dur, pulses)
  {
    StoreInTrain(u, e);
    SteadyTrainCalls(s, es, u);
    SteadyTrainCalls(Do(u, e), fs, t);
    SteadyTrainBound(Do(u, e), fs, t);
  }

  /** Callbacks of one kind: `before` pulses by the one value of a field, the rest by the other. */
  function HeardBy(field: uint32, before: int, newField: uint32, pulses: int): int
  {
    (if field > 0 then before else 0) + if newField > 0 then pulses - before else 0
  }

  lemma StoreInTrain(u: State, e: Event)
    requires InTrain(u.pc) && !e.Work? && Enabled(u, e)
    ensures Do(u, e).pc == u.pc && Do(u, e).calls == u.calls
  {
    CallFrame(u, e);
  }

  /** Exactly when the store makes no difference to the train: to its number of pulses, when it
      leaves the length alone or only cuts off what has begun anyway; to its low callbacks, when
      it leaves a delay a delay and none none, or comes after the last of them; and so to its
      high callbacks. */
  lemma RetimedTrainExactly(s: State, es: seq<Event>, u: State, e: Event, fs: seq<Event>, t: State)
    requires RetimedTrain(s, es, u, e, fs, t)
    ensures var w := Do(u, e);
            && (t.pc == TrainTest(s.nPulses) <==>
                  w.nPulses == s.nPulses || (w.nPulses < s.nPulses && Begun(u.pc) == s.nPulses))
            && (w.nPulses == s.nPulses ==>
                  && (t.calls.los - s.calls.los == (if s.delay > 0 then s.nPulses else 0) <==>
                        (w.delay > 0) == (s.delay > 0) || Lows(u.pc) == s.nPulses)
                  && (t.calls.his - s.calls.his == (if s.dur > 0 then s.nPulses else 0) <==>
                        (w.dur > 0) == (s.dur > 0) || Highs(u.pc) == s.nPulses))
  {
    SteadyTrainBound(s, es, u);
    RetimedTrainCalls(s, es, u, e, fs, t);
    SteadyFields(s, es, u);
  }

  lemma {:induction false} SteadyFields(s: State, es: seq<Event>, t: State)
    requires SteadyTrain(s, es, t)
    ensures t.delay == s.delay && t.dur == s.dur && t.nPulses == s.nPulses
    decreases |es|
  {
    if es != [] { SteadyFields(Do(s, es[0]), es[1..], t); }
  }
}
