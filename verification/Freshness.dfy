/** The worker's private timers are caches of two shared fields, invalidated by two signals. */
module Freshness {

  import opened Words
  import opened Machine
  import opened Safety

  /** A method that has stored a new delay and has yet to raise its signal. */
  predicate CarriesDelay(c: Controller)
  {
    || (c.Storing? && c.flagged)
    || ((c.Want? || c.Holding?) && (c.op.SignalDelay? || c.op.SignalBoth?))
  }

  predicate CarriesDur(c: Controller)
  {
    || (c.Storing? && c.flagged && c.next.PulsesField?)
    || ((c.Want? || c.Holding?) && (c.op.SignalDur? || c.op.SignalBoth?))
  }

  ghost predicate DelayOnItsWay(s: State)
  {
    exists i :: 0 <= i < |s.ctl| && CarriesDelay(s.ctl[i])
  }

  ghost predicate DurOnItsWay(s: State)
  {
    exists i :: 0 <= i < |s.ctl| && CarriesDur(s.ctl[i])
  }

  /** The delay timer is the delay field, or the worker is yet to be told: the signal is pending
      and not already being consumed, a method or endFunc is between its store and its signal,
      or the news was lost. */
  ghost predicate DelayFresh(s: State)
  {
    || s.delayTimer == s.delay
    || (HasDelay(s.word) && !(s.pc.Mod? && s.pc.phase.DelayClear?))
    || DelayOnItsWay(s)
    || s.pc.EndFlag? || s.pc.SetupDelay?
    || s.h.lostDelay
  }

  ghost predicate DurFresh(s: State)
  {
    || s.durTimer == s.dur
    || (HasDur(s.word) && !(s.pc.Mod? && s.pc.phase.DurClear?))
    || DurOnItsWay(s)
    || s.pc.EndFlag? || s.pc.SetupDelay? || s.pc.SetupDur?
    || s.h.lostDur
  }

  ghost predicate FreshInv(s: State) { DelayFresh(s) && DurFresh(s) }

  /** A move of one controller leaves the others' news on its way. */
  lemma OthersCarry(s: State, t: State, i: nat)
    requires i < |s.ctl| == |t.ctl|
    requires forall j :: 0 <= j < |s.ctl| && j != i ==> t.ctl[j] == s.ctl[j]
    ensures DelayOnItsWay(s) && !CarriesDelay(s.ctl[i]) ==> DelayOnItsWay(t)
    ensures DurOnItsWay(s) && !CarriesDur(s.ctl[i]) ==> DurOnItsWay(t)
    ensures CarriesDelay(t.ctl[i]) ==> DelayOnItsWay(t)
    ensures CarriesDur(t.ctl[i]) ==> DurOnItsWay(t)
  {
    if DelayOnItsWay(s) && !CarriesDelay(s.ctl[i]) {
      var j :| 0 <= j < |s.ctl| && CarriesDelay(s.ctl[j]);
      assert CarriesDelay(t.ctl[j]);
    }
    if DurOnItsWay(s) && !CarriesDur(s.ctl[i]) {
      var j :| 0 <= j < |s.ctl| && CarriesDur(s.ctl[j]);
      assert CarriesDur(t.ctl[j]);
    }
  }

  lemma FreshCall(s: State, e: Event)
    requires LockInv(s) && FreshInv(s) && Enabled(s, e) && !e.Work? && !e.Update? && !e.Wake?
    ensures FreshInv(Do(s, e))
  {
    DelayCall(s, e);
    DurCall(s, e);
  }

  lemma DelayCall(s: State, e: Event)
    requires DelayFresh(s) && Enabled(s, e) && !e.Work? && !e.Update? && !e.Wake?
    ensures DelayFresh(Do(s, e))
  {
    OthersCarry(s, Do(s, e), e.i);
  }

  lemma DurCall(s: State, e: Event)
    requires DurFresh(s) && Enabled(s, e) && !e.Work? && !e.Update? && !e.Wake?
    ensures DurFresh(Do(s, e))
  {
    OthersCarry(s, Do(s, e), e.i);
  }

  /** Which signals survive a controller's write. */
  lemma ApplySignals(s: State, op: Op)
    requires op.AddMany? && s.nPulses != 0 ==> op.n < KMODDELAY
    ensures var t := Apply(s, op);
            && t == s.(word := t.word, ticket := t.ticket, h := t.h)
            && (s.h.lostDelay ==> t.h.lostDelay) && (s.h.lostDur ==> t.h.lostDur)
            && (HasDelay(s.word) ==> HasDelay(t.word) || t.h.lostDelay)
            && (HasDur(s.word) ==> HasDur(t.word) || t.h.lostDur)
            && (op.SignalDelay? || op.SignalBoth? ==> HasDelay(t.word))
            && (op.SignalDur? || op.SignalBoth? ==> HasDur(t.word))
  {
    match op
    case AddOne => SetOddRefines(s.word); AddTaskRefines(s.word);
    case AddMany(n) =>
      SetOddRefines(s.word);
      if s.nPulses != 0 { AddTasksRefines(s.word, n); }
    case Undo =>
    case Adjust(n) => AdjustRefines(s.word, n);
    case Start => SetOddRefines(s.word);
    case Stop =>
    case SignalDelay => RaiseRefines(s.word);
    case SignalDur => RaiseRefines(s.word);
    case SignalBoth => RaiseBothRefines(s.word);
    case SignalCustom => RaiseRefines(s.word);
  }

  lemma FreshUpdate(s: State, i: nat)
    requires LockInv(s) && FreshInv(s) && Enabled(s, Update(i)) && !Do(s, Update(i)).h.fault
    ensures FreshInv(Do(s, Update(i)))
  {
    var t := Do(s, Update(i));
    ApplySignals(s, s.ctl[i].op);
    OthersCarry(s, t, i);
    assert !s.pc.Mod?;
  }

  lemma FreshWork(s: State, c: EndChoice)
    requires PhaseInv(s) && TaskInv(s) && FreshInv(s) && WorkEnabled(s) && !s.h.fault
    ensures FreshInv(WorkerStep(s, c))
  {
    if s.pc.Mod? {
      DelayConsume(s);
      DurConsume(s);
    } else if s.pc.EndFlag? {
      RaiseBothRefines(s.word);
    } else {
      FreshElse(s, c);
    }
  }

  lemma FreshElse(s: State, c: EndChoice)
    requires TaskInv(s) && FreshInv(s) && WorkEnabled(s) && !s.h.fault && !s.pc.Mod? && !s.pc.EndFlag?
    ensures FreshInv(WorkerStep(s, c))
  {
    SignalsStay(s, c);
    if Plainly(s.pc) {
      FreshPlain(s, WorkerStep(s, c));
    } else {
      FreshAdvance(s, WorkerStep(s, c));
    }
  }

  lemma FreshPlain(s: State, t: State)
    requires FreshInv(s) && Plainly(s.pc) && t == s.(pc := NextPc(s), lock := NextLock(s), calls := Heard(s))
    ensures FreshInv(t)
  {
    FreshAdvance(s, t);
  }

  /** Outside its consuming steps the worker takes no signal away. */
  lemma SignalsStay(s: State, c: EndChoice)
    requires TaskInv(s) && WorkEnabled(s) && !s.h.fault && !s.pc.Mod? && !s.pc.EndFlag?
    ensures HasDelay(WorkerStep(s, c).word) == HasDelay(s.word)
    ensures HasDur(WorkerStep(s, c).word) == HasDur(s.word)
  {
    if s.pc.Dec? { DecrementRefines(s.word); }
  }

  lemma FreshAdvance(s: State, t: State)
    requires FreshInv(s) && !s.pc.Mod? && !s.pc.EndFlag? && t.ctl == s.ctl
    requires HasDelay(t.word) == HasDelay(s.word) && HasDur(t.word) == HasDur(s.word)
    requires t.pc.Mod? ==> t.pc.phase.DelayTest?
    requires
      || t.pc.EndFlag?
      || (t.delay == s.delay && t.dur == s.dur
          && (s.pc.SetupDelay? ==> t.pc.SetupDur?)
          && (if s.pc.SetupDelay? then t.delayTimer == s.delay
              else t.delayTimer == s.delayTimer && t.h.lostDelay == s.h.lostDelay)
          && (if s.pc.SetupDur? then t.durTimer == s.dur
              else t.durTimer == s.durTimer && t.h.lostDur == s.h.lostDur))
    ensures FreshInv(t)
  {
    assert DelayOnItsWay(s) ==> DelayOnItsWay(t);
    assert DurOnItsWay(s) ==> DurOnItsWay(t);
  }

  lemma DelayConsume(s: State)
    requires PhaseInv(s) && DelayFresh(s) && s.pc.Mod?
    ensures DelayFresh(Consume(s))
  {
    assert DelayOnItsWay(s) ==> DelayOnItsWay(Consume(s));
    if s.pc.phase.DurClear? || s.pc.phase.CustomClear? { ClearRefines(s.word); }
  }

  lemma DurConsume(s: State)
    requires PhaseInv(s) && DurFresh(s) && s.pc.Mod?
    ensures DurFresh(Consume(s))
  {
    assert DurOnItsWay(s) ==> DurOnItsWay(Consume(s));
    if s.pc.phase.DelayClear? || s.pc.phase.CustomClear? { ClearRefines(s.word); }
  }

  lemma FreshStep(s: State, e: Event)
    requires Inv(s) && FreshInv(s) && Enabled(s, e) && !Do(s, e).h.fault
    ensures FreshInv(Do(s, e))
  {
    FaultsStay(s, e);
    match e
    case Work(c) => FreshWork(s, c);
    case Update(i) => FreshUpdate(s, i);
    case Wake =>
      assert DelayOnItsWay(s) ==> DelayOnItsWay(Do(s, e));
      assert DurOnItsWay(s) ==> DurOnItsWay(Do(s, e));
    case _ => FreshCall(s, e);
  }

  lemma {:induction false} FreshRun(s: State, es: seq<Event>, t: State)
    requires Inv(s) && FreshInv(s) && Run(s, es, t) && !t.h.fault
    ensures FreshInv(t)
    decreases |es|
  {
    if es != [] {
      InvStep(s, es[0]);
      FaultsStayOverRun(Do(s, es[0]), es[1..], t);
      FreshStep(s, es[0]);
      FreshRun(Do(s, es[0]), es[1..], t);
    }
  }

  lemma {:induction false} FaultsStayOverRun(s: State, es: seq<Event>, t: State)
    requires Run(s, es, t) && !t.h.fault
    ensures !s.h.fault
    decreases |es|
  {
    if es != [] {
      FaultsStayOverRun(Do(s, es[0]), es[1..], t);
      FaultsStay(s, es[0]);
    }
  }

  /** In every run within the supported use, each private timer is the shared field, or the
      worker is yet to be told, or the news was discarded. */
  lemma TimersFresh(t: State)
    requires Reachable(t) && !t.h.fault
    ensures DelayFresh(t) && DurFresh(t)
  {
    var s, es :| Init(s) && Run(s, es, t);
    FreshRun(s, es, t);
  }

  /** The worker is about to give up the lock and start a task, or to start a pulse of an
      infinite train, having just consumed the signals or found none. */
  predicate AboutToStart(s: State)
  {
    || s.pc.Release?
    || (s.pc.Mod? && s.pc.phase.Done? && (s.pc.site.InTrain? || s.word != 0))
    || (s.pc.LoopFlags? && !HasAny(s.word))
  }

  /** Every task, and every pulse of an infinite train, is started from such a place, where no
      signal is pending any more. */
  lemma StartsOnlyWhenAbout(s: State, c: EndChoice)
    requires Reachable(s) && WorkEnabled(s)
    requires WorkerStep(s, c).pc.Dispatch? || WorkerStep(s, c).pc.LoopHi?
    ensures AboutToStart(s) && !HasAny(s.word)
  {
    ReachableInv(s);
    if s.pc.Mod? {
      DoneWithSignals(s);
    } else {
      StartPlainly(s, c);
    }
  }

  lemma DoneWithSignals(s: State)
    requires PhaseInv(s) && s.pc.Mod? && (Consume(s).pc.Dispatch? || Consume(s).pc.LoopHi?)
    ensures AboutToStart(s) && !HasAny(s.word)
  {
    assert s.pc.phase.Done?;
  }

  lemma StartPlainly(s: State, c: EndChoice)
    requires PhaseInv(s) && !s.pc.Mod? && WorkEnabled(s)
    requires WorkerStep(s, c).pc.Dispatch? || WorkerStep(s, c).pc.LoopHi?
    ensures s.pc.Release? || (s.pc.LoopFlags? && !HasAny(s.word))
  {
    if Plainly(s.pc) { assert WorkerStep(s, c).pc == NextPc(s); }
  }

  /** When no store is waiting for its signal and no signal was discarded, every task, and
      every pulse of an infinite train, starts with the timers of the current fields. */
  lemma TasksStartFresh(s: State)
    requires Reachable(s) && !s.h.fault && AboutToStart(s)
    requires !s.h.lostDelay && !s.h.lostDur && !DelayOnItsWay(s) && !DurOnItsWay(s)
    ensures s.delayTimer == s.delay && s.durTimer == s.dur
  {
    ReachableInv(s);
    TimersFresh(s);
  }
}
