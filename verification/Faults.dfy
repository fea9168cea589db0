/** Where the supported use ends: runs of the program as it is, in which a promise fails, and
    the exact conditions under which it does not. */
module Faults {

  import opened Words
  import opened Machine
  import opened Safety
  import opened Freshness
  import opened Drain

  /** A fresh controller and worker, one controller thread. */
  function Start(delay: uint32, dur: uint32, n: uint32): State
  {
    State(0, delay, dur, n, delay, dur, 0, SetupDelay, Free, [Idle],
          Calls(0, 0, 0, 0), History(0, 0, 0, 0, [], {}, {}, false, false, false))
  }

  lemma StartReachable(delay: uint32, dur: uint32, n: uint32)
    ensures Reachable(Start(delay, dur, n))
  {
    assert Run(Start(delay, dur, n), [], Start(delay, dur, n));
  }

  /** Controller 0 makes a whole call without being interrupted. */
  ghost function Call(s: State, op: Op): State
  {
    Apply(s, op).(pc := if s.pc.Asleep? then Woken else s.pc)
  }

  lemma CallReachable(s: State, op: Op)
    requires Reachable(s) && At(s, 0, Idle) && Guard(s, op) && s.lock == Free
    ensures Reachable(Call(s, op))
  {
    ReachStep(s, Begin(0, op));
    WaitingCallEnds(s, op);
  }

  /** The rest of a call, from where it waits for the lock. */
  lemma WaitingCallEnds(s: State, op: Op)
    requires At(s, 0, Idle) && s.lock == Free && Reachable(Move(s, 0, Want(op)))
    ensures Reachable(Call(s, op))
  {
    var s1 := Move(s, 0, Want(op));
    ReachStep(s1, Acquire(0));
    var s2 := Move(s, 0, Holding(op)).(lock := ByController(0));
    assert s2 == Do(s1, Acquire(0));
    ReachStep(s2, Update(0));
    CallEnds(s, s2, op);
  }

  lemma CallEnds(s: State, s2: State, op: Op)
    requires At(s, 0, Idle) && s.lock == Free
    requires s2 == Move(s, 0, Holding(op)).(lock := ByController(0)) && Reachable(Do(s2, Update(0)))
    ensures Reachable(Call(s, op))
  {
    ApplyFrame(s, s2, op);
    var s3 := Move(Apply(s, op), 0, Signalling).(lock := ByController(0));
    assert s3 == Do(s2, Update(0));
    ReachStep(s3, Signal(0));
    var s4 := Move(Call(s, op), 0, Leaving).(lock := ByController(0));
    assert s4 == Do(s3, Signal(0));
    ReachStep(s4, Unlock(0));
    assert Call(s, op) == Do(s4, Unlock(0)) by {
      assert Call(s, op).ctl == s.ctl[0 := Leaving][0 := Idle];
    }
  }

  lemma ApplyFrame(s: State, s2: State, op: Op)
    requires s2 == s.(ctl := s2.ctl, lock := s2.lock)
    ensures Apply(s2, op) == Apply(s, op).(ctl := s2.ctl, lock := s2.lock)
    ensures Apply(s, op).ctl == s.ctl && Apply(s, op).lock == s.lock && Apply(s, op).pc == s.pc
  {
  }

  lemma WorkReachable(s: State, t: State)
    requires Reachable(s) && WorkEnabled(s) && t == WorkerStep(s, NoChange)
    ensures Reachable(t)
  {
    ReachStep(s, Work(NoChange));
  }

  /** A worker that has configured its timers and is about to lock. */
  lemma Ready(delay: uint32, dur: uint32, n: uint32) returns (s: State)
    ensures Reachable(s) && s == Start(delay, dur, n).(pc := Top)
  {
    StartReachable(delay, dur, n);
    var s0 := Start(delay, dur, n);
    WorkReachable(s0, s0.(pc := SetupDur));
    WorkReachable(s0.(pc := SetupDur), s0.(pc := Top));
    s := s0.(pc := Top);
  }

  /** The worker at the choice of task, with one task counted. */
  lemma Dispatched(s: State) returns (t: State)
    requires Reachable(s) && s.pc.Top? && s.lock == Free && s.word == 1
    ensures Reachable(t) && t == s.(pc := Dispatch)
  {
    WorkReachable(s, s.(pc := Check, lock := ByWorker));
    WorkReachable(s.(pc := Check, lock := ByWorker), s.(pc := Release, lock := ByWorker));
    WorkReachable(s.(pc := Release, lock := ByWorker), s.(pc := Dispatch));
    t := s.(pc := Dispatch);
  }

  lemma SmallWords()
    ensures AddTask(0) == 1 && SetOdd(0) == 1 && RaiseCustom(0) == KMODCUSTOM
    ensures Count(1) == 1 && !HasAny(1) && Odd(1) && !HasAny(0) && Count(0) == 0
    ensures AdjustTasks(1, -1) == 0 && Classify(1, -1).Plain?
    ensures HasCustom(KMODCUSTOM) && Count(KMODCUSTOM) == 0
    ensures Decrement(0) == WORD - 1
  {
  }

  /** The state after one task was asked of a worker at rest and chosen. */
  function Chosen(delay: uint32, dur: uint32, n: uint32): State
  {
    var s := Start(delay, dur, n);
    s.(pc := Dispatch, word := 1,
       h := if n == 0 then s.h.(adjusted := 1) else s.h.(accepted := 1))
  }

  lemma ChosenReachable(delay: uint32, dur: uint32, n: uint32)
    ensures Reachable(Chosen(delay, dur, n))
  {
    SmallWords();
    var s := Ready(delay, dur, n);
    var op := if n == 0 then Op.Start else AddOne;
    CallReachable(s, op);
    assert Call(s, op) == Chosen(delay, dur, n).(pc := Top);
    var t := Dispatched(Call(s, op));
  }

  /** The worker alone goes from s to its decrement of the same task. */
  ghost predicate ComesToDecrement(s: State, es: seq<Event>, t: State)
  {
    && Run(s, es, t) && (forall i :: 0 <= i < |es| ==> es[i] == Work(NoChange))
    && t.pc.Dec? && t.nPulses == s.nPulses && Count(t.word) == Count(s.word)
    && t.h.completed == s.h.completed && t.h.fault == s.h.fault
  }

  /** From inside a task, the worker alone reaches its decrement with the count it has. */
  lemma {:induction false} ReachesDecrement(s: State)
    requires Inv(s) && InTask(s.pc) && s.nPulses != 0
    requires (LoopBody(s.pc) ==> !Odd(s.word)) && !s.lock.ByController?
    ensures exists es, t :: ComesToDecrement(s, es, t)
    decreases Stage(s), Left(s)
  {
    if s.pc.Dec? {
      assert ComesToDecrement(s, [], s);
    } else {
      TowardsDecrement(s);
      InvStep(s, Work(NoChange));
      var u := WorkerStep(s, NoChange);
      ReachesDecrement(u);
      var rest, t :| ComesToDecrement(u, rest, t);
      var es := [Work(NoChange)] + rest;
      assert es[1..] == rest;
      assert ComesToDecrement(s, es, t);
    }
  }

  lemma TowardsDecrement(s: State)
    requires Inv(s) && InTask(s.pc) && s.nPulses != 0 && !s.pc.Dec?
    requires (LoopBody(s.pc) ==> !Odd(s.word)) && !s.lock.ByController?
    ensures WorkEnabled(s)
    ensures var u := WorkerStep(s, NoChange);
            && InTask(u.pc) && u.nPulses == s.nPulses && !u.lock.ByController?
            && (LoopBody(u.pc) ==> !Odd(u.word))
            && Count(u.word) == Count(s.word)
            && u.h.completed == s.h.completed && u.h.fault == s.h.fault
            && (Stage(u) < Stage(s) || (Stage(u) == Stage(s) && Left(u) < Left(s)))
  {
    if s.pc.Mod? {
      ConsumeTowards(s);
    } else if s.pc.EndFlag? {
      RaiseBothRefines(s.word);
      ParityIsCount(s.word);
      ParityIsCount(RaiseBoth(s.word));
    } else {
      PlainTowards(s);
    }
  }

  lemma ConsumeTowards(s: State)
    requires Inv(s) && s.pc.Mod? && s.pc.site.InTrain?
    ensures var u := Consume(s);
            && InTask(u.pc) && Count(u.word) == Count(s.word) && Odd(u.word) == Odd(s.word)
            && Stage(u) < Stage(s)
  {
    ConsumeKeepsCount(s);
    ParityIsCount(s.word);
    ParityIsCount(Consume(s).word);
  }

  lemma PlainTowards(s: State)
    requires Inv(s) && InTask(s.pc) && s.nPulses != 0
    requires !s.pc.Dec? && !s.pc.Mod? && !s.pc.EndFlag?
    requires LoopBody(s.pc) ==> !Odd(s.word)
    requires WorkEnabled(s)
    ensures var u := WorkerStep(s, NoChange);
            && u.word == s.word && InTask(u.pc)
            && (LoopBody(u.pc) ==> LoopBody(s.pc))
            && (Stage(u) < Stage(s) || (Stage(u) == Stage(s) && Left(u) < Left(s)))
  {
  }

  lemma ParityIsCount(w: uint32)
    ensures Odd(w) <==> Count(w) % 2 == 1
  {
    SetOddRefines(w);
  }

  // ------------------------------------------------------------------ undercutting a task

  /** DoOrUndoTasks leaves a running task counted exactly when the sum with its argument is
      between 1 and 2^31, or outside 0..2^31 over an odd count. */
  lemma AdjustKeepsTaskExactly(w: uint32, n: int32)
    ensures Count(AdjustTasks(w, n)) >= 1 <==>
            var sum := Count(w) + n;
            1 <= sum < KMODCUSTOM || ((sum < 0 || sum >= KMODCUSTOM) && Count(w) % 2 == 1)
  {
    AdjustRefines(w, n);
  }

  /** DoOrUndoTasks(n) comes while a finite task is in progress, from the choice of the task to
      the moment before its decrement takes the lock.  Whatever the end functions do, that
      decrement takes one task off if and only if the sum is between 1 and 2^31, or outside
      0..2^31 over an odd count. */
  lemma UndercutExactly(s: State, n: int32, es: seq<Event>, t: State)
    requires Reachable(s) && BeforeDecrement(s.pc) && s.nPulses != 0 && At(s, 0, Idle) && s.lock == Free
    requires WorkerOnly(es) && Run(Call(s, Adjust(n)), es, t)
    requires t.pc.Dec? && t.h.completed == s.h.completed
    ensures TakesOneOff(t.word, Decrement(t.word)) <==>
            var sum := Count(s.word) + n;
            1 <= sum < KMODCUSTOM || ((sum < 0 || sum >= KMODCUSTOM) && Count(s.word) % 2 == 1)
  {
    CountToDecrement(Call(s, Adjust(n)), es, t);
    AdjustKeepsTaskExactly(s.word, n);
    DecrementRefines(t.word);
  }

  /** That decrement does come. */
  lemma UndercutComes(s: State, n: int32)
    requires Reachable(s) && BeforeDecrement(s.pc) && s.nPulses != 0 && At(s, 0, Idle) && s.lock == Free
    ensures exists es, t :: ComesToDecrement(Call(s, Adjust(n)), es, t)
  {
    CallReachable(s, Adjust(n));
    ReachableInv(Call(s, Adjust(n)));
    ReachesDecrement(Call(s, Adjust(n)));
  }

  /** Inside a finite task, and not inside its decrement. */
  predicate BeforeDecrement(pc: Worker)
  {
    pc.Dispatch? || FiniteBody(pc) || pc.Finish? || pc.DecLock?
  }

  /** Up to its decrement the worker alone does not touch the count. */
  lemma {:induction false} CountToDecrement(s: State, es: seq<Event>, t: State)
    requires (BeforeDecrement(s.pc) || s.pc.Dec?) && s.nPulses != 0 && WorkerOnly(es) && Run(s, es, t)
    ensures t.h.completed == s.h.completed ==> Count(t.word) == Count(s.word)
    decreases |es|
  {
    if es != [] {
      assert es[0].Work?;
      var u := Do(s, es[0]);
      if s.pc.Dec? {
        CompletedGrows(u, es[1..], t);
      } else {
        if s.pc.EndFlag? { RaiseBothRefines(s.word); }
        CountToDecrement(u, es[1..], t);
      }
    }
  }

  lemma {:induction false} CompletedGrows(s: State, es: seq<Event>, t: State)
    requires WorkerOnly(es) && Run(s, es, t)
    ensures t.h.completed >= s.h.completed
    decreases |es|
  {
    if es != [] {
      assert es[0].Work?;
      CompletedGrows(Do(s, es[0]), es[1..], t);
    }
  }

  /** A single pulse is running and nothing else is queued: DoOrUndoTasks(-1) is accepted, and
      the decrement that follows leaves a full counter and all three signals. */
  lemma UndercutHappens()
    ensures exists s :: Reachable(s) && s.pc.Dec? && s.h.accepted == 0 && Decrement(s.word) == WORD - 1
  {
    ChosenReachable(0, 10, 1);
    SmallWords();
    var s1 := Chosen(0, 10, 1).(pc := PulseHi);
    WorkReachable(Chosen(0, 10, 1), s1);
    CallReachable(s1, Adjust(-1));
    TakenBack(s1);
    PulseEnds(Call(s1, Adjust(-1)));
  }

  lemma TakenBack(s: State)
    requires s.word == 1 && s.h.accepted == 1 && s.pc.PulseHi?
    ensures Call(s, Adjust(-1)) ==
            s.(word := 0, h := s.h.(accepted := 0, fault := s.h.fault || InTask(s.pc)))
  {
    SmallWords();
  }

  lemma PulseEnds(s: State)
    requires Reachable(s) && s.pc.PulseHi? && s.lock == Free && s.word == 0
    requires s.nPulses != 0 && s.h.accepted == 0
    ensures exists t :: Reachable(t) && t.pc.Dec? && t.h.accepted == 0 && Decrement(t.word) == WORD - 1
  {
    SmallWords();
    var s4 := s.(pc := PulseLo, calls := s.calls.(his := s.calls.his + 1));
    WorkReachable(s, s4);
    var s5 := s4.(pc := EndFn(false), calls := s4.calls.(los := s4.calls.los + 1));
    WorkReachable(s4, s5);
    TaskEnds(s5);
  }

  lemma TaskEnds(s: State)
    requires Reachable(s) && s.pc == EndFn(false) && s.lock == Free && s.nPulses != 0
    ensures Reachable(s.(pc := Dec, lock := ByWorker))
  {
    WorkReachable(s, s.(pc := Finish));
    WorkReachable(s.(pc := Finish), s.(pc := DecLock));
    WorkReachable(s.(pc := DecLock), s.(pc := Dec, lock := ByWorker));
  }

  // ------------------------------------------------------------------ leaving infinite mode

  /** modTrainLength(n), all of it. */
  ghost function Resized(s: State, i: nat, n: uint32): State
    requires Enabled(s, TestLength(i, n))
  {
    Do(Do(s, TestLength(i, n)), StoreLength(i))
  }

  /** Whenever the worker alone, with end functions that leave the timing alone, comes to a
      decrement, it takes one task off. */
  ghost predicate SoundDecrements(u: State)
  {
    forall es, t :: Run(u, es, t) && (forall i :: 0 <= i < |es| ==> es[i] == Work(NoChange)) && t.pc.Dec?
                    ==> TakesOneOff(t.word, Decrement(t.word))
  }

  /** modTrainLength from an infinite to a finite task, after a stop: the test of ticks2Times
      passes whenever bit 0 is clear, but the decrements to come are sound exactly when the worker
      has left its task; and then also whatever controllers do within the supported use. */
  lemma ResizeAfterStopExactly(s: State, i: nat, n: uint32)
    requires Reachable(s) && !s.h.fault && s.nPulses == 0 && Count(s.word) == 0
    requires s.dur != 0 && n != 0 && At(s, i, Idle) && !s.lock.ByController?
    requires forall j :: 0 <= j < |s.ctl| ==> !RestsOnMode(s.ctl[j])
    ensures Enabled(s, TestLength(i, n)) && Resized(s, i, n).nPulses == n
    ensures SoundDecrements(Resized(s, i, n)) <==> !InTask(s.pc)
    ensures !InTask(s.pc) ==>
              forall es, t :: Run(Resized(s, i, n), es, t) && !t.h.fault && t.pc.Dec?
                              ==> TakesOneOff(t.word, Decrement(t.word))
  {
    ParityIsCount(s.word);
    ReachStep(s, TestLength(i, n));
    ReachStep(Do(s, TestLength(i, n)), StoreLength(i));
    var u := Resized(s, i, n);
    if InTask(s.pc) {
      ReachableInv(u);
      ReachesDecrement(u);
      var es, t :| ComesToDecrement(u, es, t);
      DecrementRefines(t.word);
    } else {
      forall es, t | Run(u, es, t) && !t.h.fault && t.pc.Dec?
        ensures TakesOneOff(t.word, Decrement(t.word))
      {
        ReachRun(u, es, t);
        DecrementNeverBorrows(t);
      }
      QuietRunsKeepFaults(u);
    }
  }

  lemma QuietRunsKeepFaults(u: State)
    ensures forall es, t :: Run(u, es, t) && (forall i :: 0 <= i < |es| ==> es[i] == Work(NoChange))
                            ==> t.h.fault == u.h.fault
  {
    forall es, t | Run(u, es, t) && (forall i :: 0 <= i < |es| ==> es[i] == Work(NoChange))
      ensures t.h.fault == u.h.fault
    {
      QuietKeepsFault(u, es, t);
    }
  }

  lemma {:induction false} QuietKeepsFault(u: State, es: seq<Event>, t: State)
    requires Run(u, es, t) && forall i :: 0 <= i < |es| ==> es[i] == Work(NoChange)
    ensures t.h.fault == u.h.fault
    decreases |es|
  {
    if es != [] {
      assert es[0] == Work(NoChange);
      QuietKeepsFault(Do(u, es[0]), es[1..], t);
    }
  }

  /** Such a state is reached: start, one pulse, stop while it is high. */
  lemma ResizeMidPulseHappens()
    ensures exists s :: Reachable(s) && !s.h.fault && s.nPulses == 0 && Count(s.word) == 0
                        && s.dur != 0 && s.ctl == [Idle] && s.pc == LoopLo
  {
    ChosenReachable(0, 10, 0);
    SmallWords();
    var s1 := Chosen(0, 10, 0);
    WorkReachable(s1, s1.(pc := LoopTest));
    LoopGoesHigh(s1.(pc := LoopTest));
    StopMidPulse(s1.(pc := LoopLo, calls := Calls(1, 0, 1, 0)));
  }

  lemma LoopGoesHigh(s: State)
    requires Reachable(s) && s.pc.LoopTest? && Odd(s.word) && !HasAny(s.word)
    ensures Reachable(s.(pc := LoopLo,
                         calls := s.calls.(his := s.calls.his + 1, loopHis := s.calls.loopHis + 1)))
  {
    WorkReachable(s, s.(pc := LoopFlags));
    WorkReachable(s.(pc := LoopFlags), s.(pc := LoopHi));
    WorkReachable(s.(pc := LoopHi),
                  s.(pc := LoopLo,
                     calls := s.calls.(his := s.calls.his + 1, loopHis := s.calls.loopHis + 1)));
  }

  lemma StopMidPulse(s: State)
    requires Reachable(s) && !s.h.fault && s.nPulses == 0 && s.word == 1 && s.lock == Free
    requires s.dur != 0 && s.ctl == [Idle] && s.pc == LoopLo
    ensures exists t :: Reachable(t) && !t.h.fault && t.nPulses == 0 && Count(t.word) == 0
                        && t.dur != 0 && t.ctl == [Idle] && t.pc == LoopLo
  {
    SmallWords();
    CallReachable(s, Stop);
    assert Call(s, Stop).word == 0;
  }

  // ------------------------------------------------------------------ the bounds on the count

  /** DoTasks(3) and then DoOrUndoTasks(-5) before the worker has started any: the promised
      count of 0 is missed, one task stays. */
  lemma ClampMissed()
    ensures exists s :: Reachable(s) && !s.h.fault && s.h.accepted == 3 && s.h.completed == 0
                        && s.nPulses == 2 && s.pc.Top? && s.word == 1
  {
    var s0 := Ready(0, 10, 2);
    FewTasks();
    CallReachable(s0, AddMany(3));
    var s1 := s0.(word := 3, h := s0.h.(accepted := 3));
    assert s1 == Call(s0, AddMany(3));
    CallReachable(s1, Adjust(-5));
    assert Call(s1, Adjust(-5)).word == 1;
  }

  lemma FewTasks()
    ensures TasksFit(0, 3) && AddTasks(0, 3) == 3
    ensures Classify(3, -5).Underflow? && AdjustTasks(3, -5) == 1 && Count(3) == 3 && !HasAny(3)
  {
    assert Signed(Wrap(-2)) == -2;
  }

  /** DoTask and then DoTasks(2^29): both are accepted, but one task is counted, and a change
      of the delay is signalled that nobody made. */
  lemma OverfullHappens()
    ensures exists s :: Reachable(s) && s.h.accepted == 1 + KMODDELAY && s.h.completed == 0
                        && Count(s.word) == 1 && HasDelay(s.word) && s.delayTimer == s.delay
  {
    SmallWords();
    var s0 := Ready(0, 10, 2);
    CallReachable(s0, AddOne);
    var s1 := s0.(word := 1, h := s0.h.(accepted := 1));
    assert s1 == Call(s0, AddOne);
    TooManyTasks();
    CallReachable(s1, AddMany(KMODDELAY));
    var s2 := Call(s1, AddMany(KMODDELAY));
    assert s2.word == 1 + KMODDELAY && s2.h.accepted == 1 + KMODDELAY;
  }

  lemma TooManyTasks()
    ensures TasksFit(1, KMODDELAY) && AddTasks(1, KMODDELAY) == 1 + KMODDELAY
    ensures Count(1 + KMODDELAY) == 1 && HasDelay(1 + KMODDELAY)
  {
    assert Wrap(KMODDELAY - Wrap(KMODDELAY + 1)) == WORD - 1;
  }

  // ------------------------------------------------------------------ cancelling too late

  /** UnDoTasks with nothing queued but a signal pending leaves one task that nobody asked for,
      and discards the signal; for n = 0 it starts the infinite train. */
  lemma UndoAddsTask(n: uint32)
    ensures exists s :: Reachable(s) && !s.h.fault && s.nPulses == n && s.h.accepted == 0
                        && s.h.completed == 0 && s.word == 1 && s.h.dropped == {0}
  {
    SmallWords();
    var s0 := Ready(0, 10, n);
    CallReachable(s0, SignalCustom);
    var s1 := s0.(word := KMODCUSTOM, h := s0.h.(nextTicket := 1));
    assert s1 == Call(s0, SignalCustom);
    CallReachable(s1, Undo);
    var s2 := Call(s1, Undo);
    assert s2.word == 1 && s2.h.dropped == {0} && s2.h.accepted == 0;
  }

  // ------------------------------------------------------------------ changes inside a train

  /** The low callback is chosen by the delay field as it is at that moment: a modDelay between
      two pulses of one train gives a train of two pulses with one low callback. */
  lemma TrainChangesMidway()
    ensures exists s :: Reachable(s) && !s.h.fault && s.h.completed == 0 && s.pc == TrainTest(2)
                        && s.calls.his == 2 && s.calls.los == 1 && s.delayTimer != s.delay
  {
    ChosenReachable(0, 10, 2);
    var s1 := Chosen(0, 10, 2);
    WorkReachable(s1, s1.(pc := TrainTest(0)));
    TrainPulse(s1.(pc := TrainTest(0)), 0);
    RetimeMidTrain(s1.(pc := TrainTest(1), calls := Calls(1, 0, 0, 0)));
  }

  /** One pulse of a train, from loop test to loop test. */
  lemma TrainPulse(s: State, i: nat)
    requires Reachable(s) && s.pc == TrainTest(i) && i < s.nPulses && s.dur > 0
    ensures Reachable(s.(pc := TrainTest(i + 1),
                         calls := s.calls.(his := s.calls.his + 1,
                                           los := s.calls.los + if s.delay > 0 then 1 else 0)))
  {
    WorkReachable(s, s.(pc := TrainHi(i)));
    var s2 := s.(pc := TrainLo(i), calls := s.calls.(his := s.calls.his + 1));
    WorkReachable(s.(pc := TrainHi(i)), s2);
    WorkReachable(s2, s2.(pc := TrainTest(i + 1),
                          calls := s2.calls.(los := s2.calls.los + if s.delay > 0 then 1 else 0)));
  }

  lemma RetimeMidTrain(s: State)
    requires Reachable(s) && !s.h.fault && s.h.completed == 0 && s.pc == TrainTest(1)
    requires s.nPulses == 2 && s.dur > 0 && s.delayTimer == 0 && s.ctl == [Idle]
    requires s.calls == Calls(1, 0, 0, 0)
    ensures exists t :: Reachable(t) && !t.h.fault && t.h.completed == 0 && t.pc == TrainTest(2)
                        && t.calls.his == 2 && t.calls.los == 1 && t.delayTimer != t.delay
  {
    var s3 := s.(delay := 5, ctl := [Want(SignalDelay)]);
    ReachStep(s, StoreDelay(0, 5));
    assert s3 == Do(s, StoreDelay(0, 5));
    TrainPulse(s3, 1);
  }
}
