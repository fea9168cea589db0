/** What becomes of a change of timing that the worker has not looked at yet, when a controller
    writes the word: whether the next task starts with the timers of the current fields. */
module Staleness {

  import opened Words
  import opened Machine
  import opened Safety
  import opened Freshness
  import opened Requests
  import opened Faults

  /** Only the worker steps, and its end functions leave the timing alone. */
  predicate Quiet(es: seq<Event>)
  {
    forall i :: 0 <= i < |es| ==> es[i] == Work(NoChange)
  }

  /** The worker has acted on all there was: it is about to start a task or a pulse, or asleep. */
  predicate Settled(s: State)
  {
    AboutToStart(s) || s.pc.Asleep?
  }

  /** The lines that write the whole word. */
  predicate Overwrites(w: uint32, op: Op)
  {
    op.Undo? || op.Stop? || (op.Adjust? && !Classify(w, op.delta).Plain?)
  }

  /** Left alone, the worker will have the delay field in its timer. */
  predicate DelayComing(s: State)
  {
    || s.delayTimer == s.delay
    || (HasDelay(s.word) && !(s.pc.Mod? && s.pc.phase.DelayClear?))
    || s.pc.EndFlag? || s.pc.SetupDelay?
  }

  predicate DurComing(s: State)
  {
    || s.durTimer == s.dur
    || (HasDur(s.word) && !(s.pc.Mod? && s.pc.phase.DurClear?))
    || s.pc.EndFlag? || s.pc.SetupDelay? || s.pc.SetupDur?
  }

  // ------------------------------------------------------------------ the worker alone

  /** A step of the worker neither makes good a loss nor loses anything. */
  lemma ComingStep(s: State)
    requires Inv(s) && !s.h.fault && WorkEnabled(s)
    ensures var t := WorkerStep(s, NoChange);
            && !t.h.fault && (t.lock.ByController? ==> s.lock.ByController?)
            && (DelayComing(t) <==> DelayComing(s)) && (DurComing(t) <==> DurComing(s))
  {
    if s.pc.Mod? {
      ComingConsume(s);
    } else if s.pc.EndFlag? {
      RaiseBothRefines(s.word);
    } else {
      SignalsStay(s, NoChange);
      ComingElse(s);
    }
  }

  lemma ComingConsume(s: State)
    requires PhaseInv(s) && s.pc.Mod?
    ensures var t := Consume(s);
            && t.h.fault == s.h.fault && (t.lock.ByController? ==> s.lock.ByController?)
            && (DelayComing(t) <==> DelayComing(s)) && (DurComing(t) <==> DurComing(s))
  {
    if s.pc.phase.DelayClear? || s.pc.phase.DurClear? || s.pc.phase.CustomClear? {
      ClearRefines(s.word);
    }
  }

  lemma ComingElse(s: State)
    requires WorkEnabled(s) && !s.pc.Mod? && !s.pc.EndFlag?
    requires var t := WorkerStep(s, NoChange);
             HasDelay(t.word) == HasDelay(s.word) && HasDur(t.word) == HasDur(s.word)
    ensures var t := WorkerStep(s, NoChange);
            && t.h.fault == s.h.fault && (t.lock.ByController? ==> s.lock.ByController?)
            && (DelayComing(t) <==> DelayComing(s)) && (DurComing(t) <==> DurComing(s))
  {
  }

  lemma {:induction false} ComingRun(s: State, es: seq<Event>, t: State)
    requires Inv(s) && !s.h.fault && Quiet(es) && Run(s, es, t)
    ensures Inv(t) && !t.h.fault && (t.lock.ByController? ==> s.lock.ByController?)
    ensures (DelayComing(t) <==> DelayComing(s)) && (DurComing(t) <==> DurComing(s))
    decreases |es|
  {
    if es != [] {
      assert es[0] == Work(NoChange);
      InvStep(s, es[0]);
      ComingStep(s);
      ComingRun(Do(s, es[0]), es[1..], t);
    }
  }

  lemma SettledIsFresh(s: State)
    requires Inv(s) && !s.lock.ByController? && Settled(s)
    ensures DelayComing(s) <==> s.delayTimer == s.delay
    ensures DurComing(s) <==> s.durTimer == s.dur
  {
  }

  // ------------------------------------------------------------------ a call, then the worker

  /** Exactly the overwriting lines take signals away. */
  lemma SignalsAfter(s: State, op: Op)
    requires Guard(s, op) && (op.AddMany? && s.nPulses != 0 ==> op.n < KMODDELAY)
    ensures HasDelay(Apply(s, op).word) <==> HasDelay(s.word) && !Overwrites(s.word, op)
    ensures HasDur(Apply(s, op).word) <==> HasDur(s.word) && !Overwrites(s.word, op)
  {
    match op
    case AddOne => SetOddRefines(s.word); AddTaskRefines(s.word);
    case AddMany(n) =>
      SetOddRefines(s.word);
      if s.nPulses != 0 { AddTasksRefines(s.word, n); }
    case Undo =>
    case Adjust(n) => AdjustRefines(s.word, n);
    case Start => SetOddRefines(s.word);
    case Stop =>
    case SignalCustom => RaiseRefines(s.word);
  }

  /** A whole call of a task method or of modCustom, not interrupted, after which the worker alone
      goes on; other controllers may wait for the lock. */
  ghost predicate CallThenRun(s: State, op: Op, es: seq<Event>, t: State)
  {
    && Reachable(s) && !s.h.fault && At(s, 0, Idle) && s.lock == Free && Guard(s, op)
    && !Call(s, op).h.fault && Quiet(es) && Run(Call(s, op), es, t) && Settled(t)
  }

  /** After such a call the worker arrives with the current delay in its timer if and only if it
      had it already, or was about to look, or its signal is up and the call is none of those
      that overwrite the word. */
  lemma DelayFreshExactly(s: State, op: Op, es: seq<Event>, t: State)
    requires CallThenRun(s, op, es, t)
    ensures t.delayTimer == t.delay <==>
      || s.delayTimer == s.delay || s.pc.SetupDelay? || s.pc.EndFlag?
      || (HasDelay(s.word) && !Overwrites(s.word, op))
  {
    ArrivesAsComing(s, op, es, t);
    SignalsAfter(s, op);
  }

  lemma DurFreshExactly(s: State, op: Op, es: seq<Event>, t: State)
    requires CallThenRun(s, op, es, t)
    ensures t.durTimer == t.dur <==>
      || s.durTimer == s.dur || s.pc.SetupDelay? || s.pc.SetupDur? || s.pc.EndFlag?
      || (HasDur(s.word) && !Overwrites(s.word, op))
  {
    ArrivesAsComing(s, op, es, t);
    SignalsAfter(s, op);
  }

  lemma ArrivesAsComing(s: State, op: Op, es: seq<Event>, t: State)
    requires CallThenRun(s, op, es, t)
    ensures At(s, 0, Idle) && (op.AddMany? && s.nPulses != 0 ==> op.n < KMODDELAY)
    ensures t.delayTimer == t.delay <==> DelayComing(Call(s, op))
    ensures t.durTimer == t.dur <==> DurComing(Call(s, op))
    ensures !s.pc.Mod?
  {
    ReachableInv(s);
    CallReachable(s, op);
    ReachableInv(Call(s, op));
    ComingRun(Call(s, op), es, t);
    SettledIsFresh(t);
  }

  /** The three stores of modTrainDur, which raises no signal. */
  ghost function Untold(s: State, delay: uint32, dur: uint32, n: uint32): State
    requires At(s, 0, Idle)
  {
    Do(Do(Do(s, Store(0, false, delay)), StoreNext(0, dur)), StoreNext(0, n))
  }

  /** After them the worker arrives with the new values in its timers if and only if it had them
      already, or was about to look anyway. */
  lemma UntoldFreshExactly(s: State, delay: uint32, dur: uint32, n: uint32, es: seq<Event>, t: State)
    requires Reachable(s) && !s.h.fault && At(s, 0, Idle) && !s.lock.ByController? && (n == 0) == (s.nPulses == 0)
    requires Quiet(es) && Run(Untold(s, delay, dur, n), es, t) && Settled(t)
    ensures Untold(s, delay, dur, n).nPulses == n
    ensures t.delayTimer == t.delay <==> DelayComing(s.(delay := delay))
    ensures t.durTimer == t.dur <==> DurComing(s.(dur := dur))
  {
    UntoldReachable(s, delay, dur, n);
    var u := Untold(s, delay, dur, n);
    ReachableInv(u);
    ComingRun(u, es, t);
    SettledIsFresh(t);
  }

  lemma UntoldReachable(s: State, delay: uint32, dur: uint32, n: uint32)
    requires Reachable(s) && At(s, 0, Idle)
    ensures var u := Untold(s, delay, dur, n);
            && Reachable(u) && u.lock == s.lock && ((n == 0) == (s.nPulses == 0) ==> u.h.fault == s.h.fault)
            && u.pc == s.pc && u.word == s.word && u.delay == delay && u.dur == dur && u.nPulses == n
            && u.delayTimer == s.delayTimer && u.durTimer == s.durTimer
  {
    var s1 := Do(s, Store(0, false, delay));
    var s2 := Do(s1, StoreNext(0, dur));
    ReachStep(s, Store(0, false, delay));
    ReachStep(s1, StoreNext(0, dur));
    ReachStep(s2, StoreNext(0, n));
  }

  // ------------------------------------------------------------------ requests for a callback

  /** The callbacks run so far, and the one whose turn is to come. */
  function Granted(s: State): seq<nat>
  {
    s.h.ran + if Pending(s) then [s.ticket] else []
  }

  lemma GrantedStep(s: State)
    requires Inv(s) && !s.h.fault && WorkEnabled(s)
    ensures Granted(WorkerStep(s, NoChange)) == Granted(s)
  {
    if s.pc.Mod? {
      GrantedConsume(s);
    } else {
      CustomStays(s, NoChange);
      Requests.BooksStay(s, NoChange);
    }
  }

  lemma GrantedConsume(s: State)
    requires PhaseInv(s) && s.pc.Mod?
    ensures Granted(Consume(s)) == Granted(s)
  {
    if s.pc.phase.DelayClear? || s.pc.phase.DurClear? || s.pc.phase.CustomClear? {
      ClearRefines(s.word);
    }
    assert s.h.ran + [s.ticket] + [] == s.h.ran + [s.ticket];
  }

  lemma {:induction false} GrantedRun(s: State, es: seq<Event>, t: State)
    requires Inv(s) && !s.h.fault && Quiet(es) && Run(s, es, t)
    ensures Granted(t) == Granted(s)
    decreases |es|
  {
    if es != [] {
      assert es[0] == Work(NoChange);
      InvStep(s, es[0]);
      ComingStep(s);
      GrantedStep(s);
      GrantedRun(Do(s, es[0]), es[1..], t);
    }
  }

  /** A request is pending when a call comes.  When the worker has settled, its callback has run,
      and no other, if and only if the call neither overwrites the word nor installs another
      request; it then was replaced by none, or by that other. */
  lemma RequestRunsExactly(s: State, op: Op, es: seq<Event>, t: State)
    requires CallThenRun(s, op, es, t) && HasCustom(s.word)
    ensures t.h.ran == s.h.ran + [s.ticket] <==> !Overwrites(s.word, op) && !op.SignalCustom?
    ensures Overwrites(s.word, op) ==> t.h.ran == s.h.ran
    ensures op.SignalCustom? ==> t.h.ran == s.h.ran + [s.h.nextTicket] && s.h.nextTicket != s.ticket
  {
    var u := Call(s, op);
    ReachableInv(s);
    EveryRequestAccounted(s);
    ArrivesAsComing(s, op, es, t);
    CallReachable(s, op);
    ReachableInv(u);
    GrantedRun(u, es, t);
    ComingRun(u, es, t);
    CustomAfter(s, op);
    assert !Pending(t);
    assert t.h.ran + [] == t.h.ran && s.h.ran + [] == s.h.ran;
    assert u.h.ran == s.h.ran && Pending(u) == HasCustom(u.word);
    assert (s.h.ran + [s.ticket])[|s.h.ran|] == s.ticket;
    assert (s.h.ran + [s.h.nextTicket])[|s.h.ran|] == s.h.nextTicket;
  }

  lemma CustomAfter(s: State, op: Op)
    requires Guard(s, op) && (op.AddMany? && s.nPulses != 0 ==> op.n < KMODDELAY)
    ensures HasCustom(Apply(s, op).word) <==> (HasCustom(s.word) && !Overwrites(s.word, op)) || op.SignalCustom?
    ensures Apply(s, op).ticket == if op.SignalCustom? then s.h.nextTicket else s.ticket
    ensures Apply(s, op).h.ran == s.h.ran
  {
    ApplyCustom(s, op);
  }

  // ------------------------------------------------------------------ it happens

  /** modDelay or modDur, all of it, by controller 0. */
  lemma TellReachable(s: State, delay: uint32, dur: uint32, op: Op)
    requires Reachable(s) && At(s, 0, Idle) && s.lock == Free && s.dur != 0 && dur != 0
    requires (op.SignalDelay? && dur == s.dur) || (op.SignalDur? && delay == s.delay)
    ensures Reachable(Call(s.(delay := delay, dur := dur), op))
  {
    var s0 := s.(delay := delay, dur := dur);
    if op.SignalDelay? {
      ReachStep(s, StoreDelay(0, delay));
      assert Move(s0, 0, Want(op)) == Do(s, StoreDelay(0, delay));
    } else {
      ReachStep(s, StoreDur(0, dur));
      assert Move(s0, 0, Want(op)) == Do(s, StoreDur(0, dur));
    }
    WaitingCallEnds(s0, op);
  }

  /** modDelay(5) and then UnDoTasks before the worker has looked: a train starts with a delay
      timer of 0 although the delay is 5. */
  lemma StaleDelayHappens()
    ensures exists s :: Reachable(s) && !s.h.fault && AboutToStart(s) && s.nPulses == 2
                        && s.delayTimer == 0 && s.delay == 5
  {
    SmallWords();
    RaiseRefines(0);
    var s0 := Ready(0, 10, 2);
    TellReachable(s0, 5, 10, SignalDelay);
    var s1 := Call(s0.(delay := 5), SignalDelay);
    assert s0.(delay := 5, dur := 10) == s0.(delay := 5);
    UndoneThenStarts(s1);
  }

  /** The same for modDur(20). */
  lemma StaleDurHappens()
    ensures exists s :: Reachable(s) && !s.h.fault && AboutToStart(s) && s.nPulses == 2
                        && s.durTimer == 10 && s.dur == 20
  {
    SmallWords();
    RaiseRefines(0);
    var s0 := Ready(0, 10, 2);
    TellReachable(s0, 0, 20, SignalDur);
    var s1 := Call(s0.(dur := 20), SignalDur);
    assert s0.(delay := 0, dur := 20) == s0.(dur := 20);
    UndoneThenStarts(s1);
  }

  lemma UndoneThenStarts(s: State)
    requires Reachable(s) && !s.h.fault && At(s, 0, Idle) && s.lock == Free && s.pc.Top? && s.word > 1
    ensures exists t :: Reachable(t) && !t.h.fault && AboutToStart(t) && t.nPulses == s.nPulses
                        && t.delayTimer == s.delayTimer && t.delay == s.delay
                        && t.durTimer == s.durTimer && t.dur == s.dur
  {
    SmallWords();
    CallReachable(s, Undo);
    var u := Call(s, Undo);
    WorkReachable(u, u.(pc := Check, lock := ByWorker));
    WorkReachable(u.(pc := Check, lock := ByWorker), u.(pc := Release, lock := ByWorker));
    assert AboutToStart(u.(pc := Release, lock := ByWorker));
  }
}
