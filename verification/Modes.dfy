/** Stopping an infinite train, and turning queued tasks into one. */
module Modes {

  import opened Words
  import opened Machine
  import opened Safety
  import opened Freshness
  import opened Trains
  import opened Faults
  import opened Cancelling
  import opened Staleness

  /** Only the worker steps, and its end functions keep the train infinite. */
  predicate TrainAlone(es: seq<Event>)
  {
    forall i :: 0 <= i < |es| ==> es[i].Work? && (es[i].choice.Retime? ==> es[i].choice.n == 0)
  }

  /** The task is an infinite train, and no controller holds the lock. */
  ghost predicate Left(s: State)
  {
    Inv(s) && !s.h.fault && s.nPulses == 0 && !s.lock.ByController?
  }

  // ------------------------------------------------------------------ after a stop

  /** The steps that a worker with a stopped train has before it at most. */
  function Steps(s: State): nat
  {
    match s.pc
    case SetupDelay => 44
    case SetupDur => 43
    case LoopFlags => 42
    case LoopLock => 41
    case Mod(site, phase) => if site.InTrain? then 40 - Rank(phase) else 22 - Rank(phase)
    case LoopHi => 33
    case LoopLo => 32
    case EndFn(_) => 31
    case EndFlag(_) => 30
    case Dispatch => 29
    case LoopTest => 28
    case Finish => 27
    case DecRelease => 26
    case Top | Woken => if HasAny(s.word) then 24 else 12
    case Check => if HasAny(s.word) then 23 else 11
    case _ => 0
  }

  lemma StoppedAloneStep(s: State, c: EndChoice)
    requires Left(s) && !Odd(s.word) && WorkEnabled(s) && (c.Retime? ==> c.n == 0)
    ensures var t := WorkerStep(s, c);
            && Left(t) && !Odd(t.word) && Steps(t) < Steps(s)
            && t.calls.his + (if Committed(t.pc) then 1 else 0)
               <= s.calls.his + (if Committed(s.pc) then 1 else 0)
  {
    InvStep(s, Work(c));
    StoppedStep(s, Work(c));
    StaysLeft(s, c);
    SetOddRefines(s.word);
    if s.pc.Mod? {
      StoppedConsume(s);
    } else if s.pc.EndFlag? {
      StoppedRaises(s, c);
    } else {
      OnlySignals(s.word);
      StoppedElse(s, c);
    }
  }

  lemma OnlySignals(w: uint32)
    requires Count(w) == 0
    ensures w != 0 ==> HasAny(w)
  {
    Split(w);
    SignalsOf(w);
  }

  lemma StaysLeft(s: State, c: EndChoice)
    requires WorkEnabled(s) && s.nPulses == 0 && (c.Retime? ==> c.n == 0)
    ensures var t := WorkerStep(s, c);
            t.nPulses == 0 && t.h.fault == s.h.fault && (t.lock.ByController? ==> s.lock.ByController?)
  {
  }

  lemma StoppedElse(s: State, c: EndChoice)
    requires PhaseInv(s) && ModeInv(s) && s.nPulses == 0 && !Odd(s.word) && (s.word != 0 ==> HasAny(s.word))
    requires WorkEnabled(s) && !s.pc.Mod? && !s.pc.EndFlag?
    ensures var t := WorkerStep(s, c); t.word == s.word && Steps(t) < Steps(s)
  {
  }

  lemma StoppedRaises(s: State, c: EndChoice)
    requires Count(s.word) == 0 && s.pc.EndFlag? && s.pc.loop
    ensures var t := WorkerStep(s, c); !Odd(t.word) && Steps(t) < Steps(s)
  {
    RaiseBothRefines(s.word);
    SetOddRefines(RaiseBoth(s.word));
  }

  lemma StoppedConsume(s: State)
    requires PhaseInv(s) && Count(s.word) == 0 && s.pc.Mod?
    ensures var t := Consume(s); !Odd(t.word) && Steps(t) < Steps(s)
  {
    ConsumeKeepsCount(s);
    SetOddRefines(Consume(s).word);
    OnlySignals(s.word);
  }

  /** A stopped train and the worker alone: whatever its end functions do, it makes at most 44
      steps, in which hiFunc is called at most once and only if the worker had passed its test;
      when no step is left it sleeps on an empty word with every pulse finished. */
  lemma {:induction false} StoppedTrainRests(s: State, es: seq<Event>, t: State)
    requires Reachable(s) && Left(s) && !Odd(s.word) && TrainAlone(es) && Run(s, es, t)
    ensures |es| + Steps(t) <= Steps(s) <= 44
    ensures t.calls.his <= s.calls.his + if Committed(s.pc) then 1 else 0
    ensures !WorkEnabled(t) ==> t.pc.Asleep? && t.word == 0 && t.calls.loopHis == t.calls.loopPulses
    decreases |es|
  {
    if es == [] {
      ReachablePulse(s);
    } else {
      var c := es[0].choice;
      StoppedAloneStep(s, c);
      ReachStep(s, es[0]);
      StoppedTrainRests(Do(s, es[0]), es[1..], t);
    }
  }

  /** stopInfiniteTrain, called and not interrupted: the train ends. */
  lemma StopSleeps(s: State, es: seq<Event>, t: State)
    requires Reachable(s) && Left(s) && At(s, 0, Idle) && s.lock == Free && Odd(s.word)
    requires TrainAlone(es) && Run(Call(s, Stop), es, t)
    ensures |es| <= 44 && t.calls.his <= s.calls.his + 1
    ensures !WorkEnabled(t) ==> t.pc.Asleep? && t.word == 0 && t.calls.loopHis == t.calls.loopPulses
  {
    CallReachable(s, Stop);
    ReachableInv(Call(s, Stop));
    StoppedTrainRests(Call(s, Stop), es, t);
  }

  // ------------------------------------------------------------------ from finite to infinite

  /** modTrainLength(0), all of it; its guard tests the other direction only. */
  ghost function MadeInfinite(s: State): State
    requires At(s, 0, Idle) && s.dur != 0
  {
    Do(Do(s, TestLength(0, 0)), StoreLength(0))
  }

  /** The change is made wherever the worker is, in a task or between two. */
  ghost predicate Finite(s: State)
  {
    && Reachable(s) && !s.h.fault && s.nPulses != 0 && s.dur != 0
    && At(s, 0, Idle) && !s.lock.ByController?
  }

  /** The worker has decided to take one task off, and will whatever nPulses is now. */
  predicate Deciding(pc: Worker) { pc.DecLock? || pc.Dec? }

  /** The tasks that stay counted: a task in progress is taken off only when that is decided. */
  function Staying(s: State): int
  {
    Count(s.word) - if Deciding(s.pc) then 1 else 0
  }

  /** Tasks completed, or about to be. */
  function Done(s: State): int
  {
    s.h.completed + if Deciding(s.pc) then 1 else 0
  }

  /** A worker that does not know of the change yet, or has found an infinite train that is
      counted and not started. */
  ghost predicate Adrift(s: State)
  {
    && LockInv(s) && PhaseInv(s) && WakeInv(s) && s.nPulses == 0 && !s.lock.ByController?
    && (LoopBody(s.pc) ==> s.pc.LoopTest?) && (Deciding(s.pc) ==> Count(s.word) >= 1)
  }

  lemma AdriftStep(s: State, c: EndChoice)
    requires Adrift(s) && WorkEnabled(s) && (c.Retime? ==> c.n == 0)
    requires Staying(s) % 2 == 0
    ensures var t := WorkerStep(s, c);
            && Adrift(t) && Staying(t) == Staying(s) && Done(t) == Done(s)
            && t.calls.loopHis == s.calls.loopHis
  {
    KeepsOrder(s, c);
    SetOddRefines(s.word);
    if s.pc.Mod? {
      AdriftConsume(s);
    } else if s.pc.Dec? {
      DecrementRefines(s.word);
    } else if s.pc.EndFlag? {
      RaiseBothRefines(s.word);
    } else {
      AdriftElse(s, c);
    }
  }

  lemma KeepsOrder(s: State, c: EndChoice)
    requires LockInv(s) && PhaseInv(s) && WakeInv(s) && WorkEnabled(s)
    ensures var t := WorkerStep(s, c); LockInv(t) && PhaseInv(t) && WakeInv(t)
  {
    LockStep(s, Work(c));
    PhaseStep(s, Work(c));
    WakeStep(s, Work(c));
  }

  lemma AdriftConsume(s: State)
    requires PhaseInv(s) && s.pc.Mod? && s.pc.site.AtTop? && s.nPulses == 0 && !s.lock.ByController?
    ensures var t := Consume(s);
            && t.nPulses == 0 && !t.lock.ByController? && !LoopBody(t.pc) && !Deciding(t.pc)
            && Count(t.word) == Count(s.word) && t.h.completed == s.h.completed && t.calls == s.calls
  {
    ConsumeKeepsCount(s);
  }

  lemma AdriftElse(s: State, c: EndChoice)
    requires WorkEnabled(s) && s.nPulses == 0 && !s.lock.ByController? && (c.Retime? ==> c.n == 0)
    requires (LoopBody(s.pc) ==> s.pc.LoopTest? && !Odd(s.word)) && !s.pc.Mod? && !s.pc.Dec? && !s.pc.EndFlag?
    ensures var t := WorkerStep(s, c);
            && t.word == s.word && t.nPulses == 0 && !t.lock.ByController?
            && (LoopBody(t.pc) ==> t.pc.LoopTest?) && (Deciding(t.pc) <==> Deciding(s.pc))
            && t.h.completed == s.h.completed && t.calls.loopHis == s.calls.loopHis
  {
  }

  /** Steps until the worker has found out. */
  function ToTurn(pc: Worker): nat
  {
    match pc
    case TrainHi(_) => 5
    case TrainLo(_) => 4
    case TrainTest(_) => 3
    case PulseHi => 4
    case PulseLo => 3
    case EndFn(_) => 2
    case EndFlag(_) => 1
    case DecLock => 3
    case Dec => 2
    case DecRelease => 1
    case SetupDelay => 2
    case SetupDur => 1
    case _ => 0
  }

  lemma TurnStep(s: State, c: EndChoice)
    requires Adrift(s) && WorkEnabled(s) && Count(s.word) % 2 == 0
    ensures ToTurn(s.pc) == 0 ==> ToTurn(WorkerStep(s, c).pc) == 0
    ensures ToTurn(s.pc) > 0 ==> ToTurn(WorkerStep(s, c).pc) < ToTurn(s.pc)
  {
    SetOddRefines(s.word);
  }

  lemma TurnStepDeciding(s: State, c: EndChoice)
    requires WorkEnabled(s) && Deciding(s.pc)
    ensures ToTurn(WorkerStep(s, c).pc) < ToTurn(s.pc)
  {
  }

  /** On an even number of tasks that stay counted, no infinite train is ever run and no further
      task is taken off; and unless that number is 0, the worker always has a step. */
  lemma {:induction false} StaysAdrift(s: State, es: seq<Event>, t: State)
    requires Adrift(s) && Staying(s) % 2 == 0 && TrainAlone(es) && Run(s, es, t)
    ensures Adrift(t) && Staying(t) == Staying(s) && Done(t) == Done(s)
    ensures t.calls.loopHis == s.calls.loopHis
    ensures Staying(s) > 0 ==> WorkEnabled(t)
    ensures ToTurn(t.pc) == 0 || |es| + ToTurn(t.pc) <= ToTurn(s.pc)
    decreases |es|
  {
    if es == [] {
      assert Count(0) == 0;
    } else {
      var c := es[0].choice;
      AdriftStep(s, c);
      if Deciding(s.pc) {
        TurnStepDeciding(s, c);
      } else {
        TurnStep(s, c);
      }
      StaysAdrift(Do(s, es[0]), es[1..], t);
    }
  }

  /** It has found out, and an even number of tasks stays counted. */
  ghost predicate Turning(s: State)
  {
    Adrift(s) && ToTurn(s.pc) == 0 && Count(s.word) % 2 == 0 && Count(s.word) > 0
  }

  /** Once it has found out, and while tasks stay counted, the worker turns in its loop without a
      callback. */
  lemma {:induction false} TurnsForEver(s: State, es: seq<Event>, t: State)
    requires Turning(s) && TrainAlone(es) && Run(s, es, t)
    ensures WorkEnabled(t) && t.calls == s.calls && t.h.completed == s.h.completed
    ensures Count(t.word) == Count(s.word)
    decreases |es|
  {
    StaysAdrift(s, es, t);
    if es != [] {
      var c := es[0].choice;
      AdriftStep(s, c);
      TurnStep(s, c);
      SilentStep(s, c);
      TurnsForEver(Do(s, es[0]), es[1..], t);
    }
  }

  lemma SilentStep(s: State, c: EndChoice)
    requires WorkEnabled(s) && ToTurn(s.pc) == 0 && (LoopBody(s.pc) ==> s.pc.LoopTest?)
    ensures WorkerStep(s, c).calls == s.calls && WorkerStep(s, c).h.completed == s.h.completed
  {
  }

  // ------------------------------------------------------------------ an odd count

  /** Steps to the next high callback of an infinite train. */
  function StepsToHigh(pc: Worker): nat
  {
    match pc
    case SetupDelay => 60
    case SetupDur => 59
    case TrainHi(_) => 58
    case TrainLo(_) => 57
    case TrainTest(_) => 56
    case PulseHi => 58
    case PulseLo => 57
    case EndFn(_) => 55
    case EndFlag(_) => 54
    case Finish => 53
    case DecLock => 52
    case Dec => 51
    case DecRelease => 50
    case Top | Woken => 40
    case Check => 39
    case Mod(site, phase) => if site.AtTop? then 38 - Rank(phase) else 26 - Rank(phase)
    case Release => 31
    case Dispatch => 30
    case LoopTest => 29
    case LoopFlags => 28
    case LoopLock => 27
    case LoopHi => 19
    case _ => 0
  }

  ghost predicate OnTheWayUp(s: State)
  {
    && LockInv(s) && PhaseInv(s) && WakeInv(s) && s.nPulses == 0 && !s.lock.ByController?
    && (LoopBody(s.pc) ==> s.pc.LoopTest? || Committed(s.pc)) && (Deciding(s.pc) ==> Count(s.word) >= 1)
    && Staying(s) % 2 == 1
  }

  lemma UpStep(s: State)
    requires OnTheWayUp(s) && !s.pc.LoopHi?
    ensures WorkEnabled(s)
    ensures var t := WorkerStep(s, NoChange);
            && OnTheWayUp(t) && StepsToHigh(t.pc) < StepsToHigh(s.pc)
            && t.calls.loopHis == s.calls.loopHis && Done(t) == Done(s)
  {
    assert Count(0) == 0;
    KeepsOrder(s, NoChange);
    SetOddRefines(s.word);
    if s.pc.Mod? {
      ConsumeKeepsCount(s);
      UpConsume(s);
    } else if s.pc.Dec? || s.pc.EndFlag? {
      UpWrite(s);
    } else {
      UpElse(s);
    }
  }

  lemma UpWrite(s: State)
    requires (s.pc.Dec? && Count(s.word) >= 1) || (s.pc.EndFlag? && !s.pc.loop)
    requires s.nPulses == 0 && !s.lock.ByController?
    ensures var t := WorkerStep(s, NoChange);
            && !LoopBody(t.pc) && !Deciding(t.pc) && StepsToHigh(t.pc) < StepsToHigh(s.pc)
            && t.nPulses == 0 && !t.lock.ByController?
            && Staying(t) == Staying(s) && Done(t) == Done(s) && t.calls == s.calls
  {
    DecrementRefines(s.word);
    RaiseBothRefines(s.word);
  }

  lemma UpConsume(s: State)
    requires s.pc.Mod? && s.nPulses == 0 && Count(Consume(s).word) == Count(s.word) > 0
    requires !s.lock.ByController?
    ensures var t := Consume(s);
            && (LoopBody(t.pc) ==> Committed(t.pc)) && !Deciding(t.pc)
            && StepsToHigh(t.pc) < StepsToHigh(s.pc) && t.nPulses == 0 && !t.lock.ByController?
            && t.calls == s.calls && t.h.completed == s.h.completed
  {
    assert Count(0) == 0;
  }

  lemma UpElse(s: State)
    requires WorkEnabled(s) && s.nPulses == 0 && !s.lock.ByController? && s.word != 0
    requires LoopBody(s.pc) ==> (s.pc.LoopTest? && Odd(s.word)) || Committed(s.pc)
    requires !s.pc.Mod? && !s.pc.LoopHi? && !s.pc.Dec? && !s.pc.EndFlag?
    ensures var t := WorkerStep(s, NoChange);
            && (LoopBody(t.pc) ==> t.pc.LoopTest? || Committed(t.pc)) && (Deciding(t.pc) <==> Deciding(s.pc))
            && StepsToHigh(t.pc) < StepsToHigh(s.pc)
            && t.word == s.word && t.nPulses == 0 && !t.lock.ByController?
            && t.calls.loopHis == s.calls.loopHis && t.h.completed == s.h.completed
  {
    if Plainly(s.pc) { UpPlain(s, WorkerStep(s, NoChange)); }
  }

  lemma UpPlain(s: State, t: State)
    requires Plainly(s.pc) && t == s.(pc := NextPc(s), lock := NextLock(s), calls := Heard(s))
    requires s.nPulses == 0 && s.word != 0 && !s.pc.LoopHi? && !s.pc.Asleep?
    requires LoopBody(s.pc) ==> (s.pc.LoopTest? && Odd(s.word)) || Committed(s.pc)
    ensures LoopBody(t.pc) ==> t.pc.LoopTest? || Committed(t.pc)
    ensures (Deciding(t.pc) <==> Deciding(s.pc)) && StepsToHigh(t.pc) < StepsToHigh(s.pc)
    ensures (t.lock.ByController? ==> s.lock.ByController?) && t.calls.loopHis == s.calls.loopHis
  {
  }

  /** The worker alone goes from s to the next high callback of an infinite train. */
  ghost predicate GoesHigh(s: State, es: seq<Event>, t: State)
  {
    Run(s, es, t) && TrainAlone(es) && t.calls.loopHis == s.calls.loopHis + 1 && Done(t) == Done(s)
  }

  lemma {:induction false} OddGoesHigh(s: State)
    requires OnTheWayUp(s)
    ensures exists es, t :: GoesHigh(s, es, t)
    decreases StepsToHigh(s.pc)
  {
    var w := Work(NoChange);
    if s.pc.LoopHi? {
      assert [w][1..] == [];
      assert Run(WorkerStep(s, NoChange), [], WorkerStep(s, NoChange));
      assert GoesHigh(s, [w], WorkerStep(s, NoChange));
    } else {
      UpStep(s);
      var u := WorkerStep(s, NoChange);
      OddGoesHigh(u);
      var rest, t :| GoesHigh(u, rest, t);
      assert ([w] + rest)[1..] == rest;
      assert GoesHigh(s, [w] + rest, t);
    }
  }

  // ------------------------------------------------------------------ exactly

  /** From u the worker turns for ever: it always has a step, and from the sixth on it makes no
      callback and takes no task off. */
  ghost predicate TurnsFrom(u: State)
  {
    forall es, t :: TrainAlone(es) && Run(u, es, t) ==>
      WorkEnabled(t) && (|es| > 5 ==> Turning(t))
  }

  /** modTrainLength(0) for a finite task is accepted wherever the worker is.  It then runs an
      infinite train if and only if the number of tasks that stay counted is odd; when that is
      even and not 0 it turns for ever. */
  lemma IntoInfiniteExactly(s: State)
    requires Finite(s)
    ensures Enabled(s, TestLength(0, 0)) && MadeInfinite(s).nPulses == 0
    ensures MadeInfinite(s).word == s.word && MadeInfinite(s).pc == s.pc
    ensures (exists es, t :: GoesHigh(MadeInfinite(s), es, t)) <==> Staying(s) % 2 == 1
    ensures Staying(s) % 2 == 0 && Staying(s) > 0 ==> TurnsFrom(MadeInfinite(s))
  {
    ReachableInv(s);
    var u := MadeInfinite(s);
    InvStep(s, TestLength(0, 0));
    InvStep(Do(s, TestLength(0, 0)), StoreLength(0));
    if Staying(s) % 2 == 1 {
      OddGoesHigh(u);
    } else {
      NeverHigh(u);
      if Staying(s) > 0 { EvenTurns(u); }
    }
  }

  lemma NeverHigh(u: State)
    requires Adrift(u) && Staying(u) % 2 == 0
    ensures forall es, t :: !GoesHigh(u, es, t)
  {
    forall es, t ensures !GoesHigh(u, es, t) {
      if GoesHigh(u, es, t) { StaysAdrift(u, es, t); }
    }
  }

  lemma EvenTurns(u: State)
    requires Adrift(u) && Staying(u) % 2 == 0 && Staying(u) > 0
    ensures TurnsFrom(u)
  {
    forall es, t | TrainAlone(es) && Run(u, es, t)
      ensures WorkEnabled(t)
      ensures |es| > 5 ==> Turning(t)
    {
      StaysAdrift(u, es, t);
    }
  }

  /** Two tasks are queued and none is running: such a state is reached. */
  lemma QueuedHappens()
    ensures exists s :: Finite(s) && Staying(s) == 2 && s.pc.Top?
  {
    var s0 := Ready(0, 10, 2);
    TwoTasks();
    CallReachable(s0, AddMany(2));
    var s1 := Call(s0, AddMany(2));
    assert Finite(s1) && Staying(s1) == 2;
  }

  lemma TwoTasks()
    ensures AddTasks(0, 2) == 2 && Count(2) == 2
  {
  }

  // ------------------------------------------------------------------ a started train made finite

  /** While no controller writes the word a started train goes on, whatever nPulses becomes. */
  lemma {:induction false} StartedTrainGoesOn(s: State, es: seq<Event>, t: State)
    requires Inv(s) && LoopBody(s.pc) && Odd(s.word) && NoWrites(es) && Run(s, es, t)
    ensures LoopBody(t.pc) && Odd(t.word)
    decreases |es|
  {
    if es != [] {
      assert !es[0].Update?;
      InvStep(s, es[0]);
      if es[0].Work? {
        GoesOnStep(s, es[0].choice);
      } else {
        CallFrame(s, es[0]);
        assert Do(s, es[0]).word == s.word;
      }
      StartedTrainGoesOn(Do(s, es[0]), es[1..], t);
    }
  }

  lemma GoesOnStep(s: State, c: EndChoice)
    requires PhaseInv(s) && WorkEnabled(s) && LoopBody(s.pc) && Odd(s.word)
    ensures var t := WorkerStep(s, c); LoopBody(t.pc) && Odd(t.word)
  {
    SetOddRefines(s.word);
    if s.pc.Mod? {
      ConsumeKeepsCount(s);
      SetOddRefines(Consume(s).word);
    } else if s.pc.EndFlag? {
      RaiseBothRefines(s.word);
      SetOddRefines(RaiseBoth(s.word));
    }
  }

  /** times2Ticks has no guard: when the stores of modTrainDur give a started infinite train a
      finite length, the train goes on until somebody writes the word, and as long as the length
      stays finite stopInfiniteTrain refuses to. */
  lemma RunawayTrain(s: State, delay: uint32, dur: uint32, n: uint32, es: seq<Event>, t: State)
    requires Reachable(s) && At(s, 0, Idle) && LoopBody(s.pc) && Odd(s.word)
    requires NoWrites(es) && Run(Untold(s, delay, dur, n), es, t)
    ensures LoopBody(t.pc) && Odd(t.word)
    ensures Guard(t, Stop) <==> t.nPulses == 0
  {
    UntoldReachable(s, delay, dur, n);
    ReachableInv(Untold(s, delay, dur, n));
    StartedTrainGoesOn(Untold(s, delay, dur, n), es, t);
  }
}
