/** What every step keeps: mutual exclusion, the consuming phases, the kind of task, the count
    while a task is in progress, and the tally of tasks. */
module Safety {

  import opened Words
  import opened Machine

  // ------------------------------------------------------------------ mutual exclusion

  ghost predicate LockInv(s: State)
  {
    && (s.lock == ByWorker <==> WorkerHolds(s.pc))
    && (s.lock.ByController? ==> s.lock.i < |s.ctl|)
    && (forall i :: 0 <= i < |s.ctl| ==> (ControllerHolds(s.ctl[i]) <==> s.lock == ByController(i)))
  }

  lemma LockStep(s: State, e: Event)
    requires LockInv(s) && Enabled(s, e)
    ensures LockInv(Do(s, e))
  {
    match e
    case Work(c) => LockWork(s, c);
    case Update(i) => LockUpdate(s, i);
    case _ => LockCall(s, e);
  }

  lemma LockWork(s: State, c: EndChoice)
    requires LockInv(s) && WorkEnabled(s)
    ensures LockInv(WorkerStep(s, c))
  {
    assert WorkerStep(s, c).ctl == s.ctl;
  }

  lemma LockUpdate(s: State, i: nat)
    requires LockInv(s) && Enabled(s, Update(i))
    ensures LockInv(Do(s, Update(i)))
  {
    var t := Apply(s, s.ctl[i].op);
    assert t.ctl == s.ctl && t.pc == s.pc && t.lock == s.lock;
  }

  lemma LockCall(s: State, e: Event)
    requires LockInv(s) && Enabled(s, e) && !e.Work? && !e.Update?
    ensures LockInv(Do(s, e))
  {
    if !e.Wake? { LockMove(s, Do(s, e), e.i); }
  }

  /** One controller takes the lock, gives it up, or neither holds it before nor after. */
  lemma LockMove(s: State, t: State, i: nat)
    requires LockInv(s) && i < |s.ctl| == |t.ctl| && t.ctl == s.ctl[i := t.ctl[i]]
    requires t.pc == s.pc || (s.pc.Asleep? && t.pc.Woken?)
    requires
      || (s.lock == Free && t.lock == ByController(i) && ControllerHolds(t.ctl[i]))
      || (s.lock == ByController(i) && t.lock == Free && !ControllerHolds(t.ctl[i]))
      || (t.lock == s.lock && (ControllerHolds(t.ctl[i]) <==> ControllerHolds(s.ctl[i])))
    ensures LockInv(t)
  {
  }

  /** No lost wakeup: the worker is blocked only while there is nothing in doTask, or while the
      controller that wrote it still holds the lock and is about to signal. */
  predicate WakeInv(s: State)
  {
    s.pc.Asleep? ==>
      || s.word == 0
      || (s.lock.ByController? && At(s, s.lock.i, Signalling))
  }

  lemma WakeStep(s: State, e: Event)
    requires LockInv(s) && WakeInv(s) && Enabled(s, e)
    ensures WakeInv(Do(s, e))
  {
    match e
    case Update(i) => WakeUpdate(s, i);
    case Work(c) => WakeWork(s, c);
    case _ => WakeCall(s, e);
  }

  lemma WakeUpdate(s: State, i: nat)
    requires LockInv(s) && Enabled(s, Update(i))
    ensures WakeInv(Do(s, Update(i)))
  {
    var t := Apply(s, s.ctl[i].op);
    assert t.ctl == s.ctl && t.pc == s.pc && t.lock == s.lock;
  }

  lemma WakeWork(s: State, c: EndChoice)
    requires WorkEnabled(s)
    ensures WakeInv(WorkerStep(s, c))
  {
  }

  lemma WakeCall(s: State, e: Event)
    requires LockInv(s) && WakeInv(s) && Enabled(s, e) && !e.Work? && !e.Update?
    ensures WakeInv(Do(s, e))
  {
    var t := Do(s, e);
    assert t.word == s.word;
    assert t.pc.Asleep? ==> s.pc.Asleep? && !e.Signal?;
  }

  // ------------------------------------------------------------------ consuming signals

  function Rank(p: Phase): nat
  {
    match p
    case DelayTest => 0 case DelayClear => 1 case DurTest => 2 case DurClear => 3
    case CustomTest => 4 case CustomClear => 5 case Done => 6
  }

  predicate PhaseInv(s: State)
  {
    && (s.pc.Release? ==> s.word != 0 && !HasAny(s.word))
    && (s.pc.Mod? ==>
          && (HasDelay(s.word) ==> Rank(s.pc.phase) <= 1)
          && (HasDur(s.word) ==> Rank(s.pc.phase) <= 3)
          && (HasCustom(s.word) ==> Rank(s.pc.phase) <= 5)
          && (s.pc.phase.DelayClear? ==> HasDelay(s.word))
          && (s.pc.phase.DurClear? ==> HasDur(s.word))
          && (s.pc.phase.CustomClear? ==> HasCustom(s.word)))
  }

  lemma PhaseStep(s: State, e: Event)
    requires LockInv(s) && PhaseInv(s) && Enabled(s, e)
    ensures PhaseInv(Do(s, e))
  {
    match e
    case Work(c) => PhaseWork(s, c);
    case Update(i) => assert Do(s, e).pc == s.pc;
    case _ => assert Do(s, e).word == s.word;
  }

  lemma PhaseWork(s: State, c: EndChoice)
    requires PhaseInv(s) && WorkEnabled(s)
    ensures PhaseInv(WorkerStep(s, c))
  {
    if s.pc.Mod? {
      PhaseConsume(s);
    }
  }

  lemma PhaseConsume(s: State)
    requires PhaseInv(s) && s.pc.Mod?
    ensures PhaseInv(Consume(s))
  {
    ClearRefines(s.word);
  }

  // ------------------------------------------------------------------ kind of task and count

  predicate FiniteOnly(c: Controller)
  {
    (c.Want? || c.Holding?) && c.op.Adjust?
  }

  predicate InfiniteOnly(c: Controller)
  {
    (c.Want? || c.Holding?) && (c.op.Start? || c.op.Stop?)
  }

  /** The worker and the controllers agree with nPulses on the kind of task. */
  ghost predicate ModeInv(s: State)
  {
    && (FiniteBody(s.pc) || s.pc.DecLock? || s.pc.Dec? ==> s.nPulses != 0)
    && (LoopBody(s.pc) ==> s.nPulses == 0)
    && (forall i :: 0 <= i < |s.ctl| ==>
          && (FiniteOnly(s.ctl[i]) ==> s.nPulses != 0)
          && (InfiniteOnly(s.ctl[i]) ==> s.nPulses == 0))
  }

  /** A finite task in progress is still counted; an infinite train counts 0 or 1. */
  predicate CountInv(s: State)
  {
    && (s.nPulses == 0 ==> Count(s.word) <= 1)
    && (s.nPulses != 0 && InTask(s.pc) ==> Count(s.word) >= 1)
  }

  /** Every task taken is completed, still counted, or accounted for as an adjustment. */
  predicate TallyInv(s: State)
  {
    s.h.accepted + s.h.adjusted == s.h.completed + Count(s.word)
  }

  ghost predicate TaskInv(s: State)
  {
    !s.h.fault ==> ModeInv(s) && CountInv(s) && TallyInv(s)
  }

  /** What a controller's write does to the count, and that it books the change. */
  lemma ApplyCounts(s: State, op: Op)
    requires !Apply(s, op).h.fault
    requires s.nPulses == 0 ==> !op.Adjust? && Count(s.word) <= 1
    requires s.nPulses != 0 ==> !op.Start? && !op.Stop?
    ensures var t := Apply(s, op);
            && t == s.(word := t.word, ticket := t.ticket, h := t.h)
            && !s.h.fault && t.h.completed == s.h.completed
            && t.h.accepted + t.h.adjusted - s.h.accepted - s.h.adjusted
               == Count(t.word) - Count(s.word)
            && (s.nPulses == 0 ==> Count(t.word) <= 1)
            && (s.nPulses != 0 && InTask(s.pc) && Count(s.word) >= 1 ==> Count(t.word) >= 1)
  {
    match op
    case AddOne => SetOddRefines(s.word); AddTaskRefines(s.word);
    case AddMany(n) =>
      SetOddRefines(s.word);
      if s.nPulses != 0 { AddTasksRefines(s.word, n); }
    case Undo =>
    case Adjust(n) => AdjustRefines(s.word, n);
    case Start => SetOddRefines(s.word);
    case Stop =>
    case SignalDelay => RaiseRefines(s.word);
    case SignalDur => RaiseRefines(s.word);
    case SignalBoth => RaiseBothRefines(s.word);
    case SignalCustom => RaiseRefines(s.word);
  }

  lemma TaskUpdate(s: State, i: nat)
    requires LockInv(s) && TaskInv(s) && Enabled(s, Update(i))
    ensures TaskInv(Do(s, Update(i)))
  {
    if !Do(s, Update(i)).h.fault {
      FaultsStay(s, Update(i));
      ApplyCounts(s, s.ctl[i].op);
    }
  }

  lemma FaultsStay(s: State, e: Event)
    requires Enabled(s, e)
    ensures s.h.fault ==> Do(s, e).h.fault
  {
  }

  /** A store to nPulses keeps the kind of task, or changes it at rest. */
  lemma SetPulsesKeepsMode(s: State, n: uint32)
    requires TaskInv(s)
    ensures TaskInv(SetPulses(s, n))
  {
    if !SetPulses(s, n).h.fault && (n == 0) != (s.nPulses == 0) {
      assert Quiescent(s);
    }
  }

  lemma TaskCall(s: State, e: Event)
    requires TaskInv(s) && Enabled(s, e) && !e.Work? && !e.Update?
    ensures TaskInv(Do(s, e))
  {
    match e
    case StoreNext(i, v) => TaskStoreNext(s, i, v);
    case StoreLength(i) => TaskStoreLength(s, i);
    case Wake =>
    case Begin(i, _) => TaskMove(s, Do(s, e), i);
    case StoreDelay(i, _) => TaskMove(s, Do(s, e), i);
    case StoreDur(i, _) => TaskMove(s, Do(s, e), i);
    case Store(i, _, _) => TaskMove(s, Do(s, e), i);
    case TestLength(i, _) => TaskMove(s, Do(s, e), i);
    case Acquire(i) => TaskMove(s, Do(s, e), i);
    case Signal(i) => TaskMove(s, Do(s, e), i);
    case Unlock(i) => TaskMove(s, Do(s, e), i);
  }

  lemma TaskStoreNext(s: State, i: nat, v: uint32)
    requires TaskInv(s) && Enabled(s, StoreNext(i, v))
    ensures TaskInv(Do(s, StoreNext(i, v)))
  {
    if s.ctl[i].next.DurField? {
      TaskMove(s, Do(s, StoreNext(i, v)), i);
    } else {
      SetPulsesKeepsMode(s, v);
      TaskMove(SetPulses(s, v), Do(s, StoreNext(i, v)), i);
    }
  }

  lemma TaskStoreLength(s: State, i: nat)
    requires TaskInv(s) && Enabled(s, StoreLength(i))
    ensures TaskInv(Do(s, StoreLength(i)))
  {
    SetPulsesKeepsMode(s, s.ctl[i].n);
    TaskMove(SetPulses(s, s.ctl[i].n), Do(s, StoreLength(i)), i);
  }

  /** One controller moves and neither the word, the tally nor the kind of task changes. */
  lemma TaskMove(s: State, t: State, i: nat)
    requires TaskInv(s) && i < |s.ctl| == |t.ctl|
    requires t.word == s.word && t.nPulses == s.nPulses
    requires t.pc == s.pc || (s.pc.Asleep? && t.pc.Woken?)
    requires t.h.fault == s.h.fault && t.h.accepted == s.h.accepted
    requires t.h.adjusted == s.h.adjusted && t.h.completed == s.h.completed
    requires forall j :: 0 <= j < |s.ctl| && j != i ==> t.ctl[j] == s.ctl[j]
    requires FiniteOnly(t.ctl[i]) ==> FiniteOnly(s.ctl[i]) || s.nPulses != 0
    requires InfiniteOnly(t.ctl[i]) ==> InfiniteOnly(s.ctl[i]) || s.nPulses == 0
    ensures TaskInv(t)
  {
  }

  lemma TaskWork(s: State, c: EndChoice)
    requires LockInv(s) && PhaseInv(s) && TaskInv(s) && WorkEnabled(s)
    ensures TaskInv(WorkerStep(s, c))
  {
    if s.pc.Mod? {
      TaskConsume(s);
    } else if s.pc.Dec? {
      TaskDecrement(s, c);
    } else if s.pc.EndFlag? || s.pc.EndFn? {
      TaskEnd(s, c);
    } else {
      if s.pc.Release? { Split(s.word); }
      TaskPlainWork(s, c);
    }
  }

  lemma TaskDecrement(s: State, c: EndChoice)
    requires TaskInv(s) && WorkEnabled(s) && s.pc.Dec?
    ensures TaskInv(WorkerStep(s, c))
  {
    if !s.h.fault { DecrementRefines(s.word); }
  }

  lemma TaskEnd(s: State, c: EndChoice)
    requires TaskInv(s) && WorkEnabled(s) && (s.pc.EndFlag? || s.pc.EndFn?)
    ensures TaskInv(WorkerStep(s, c))
  {
    RaiseBothRefines(s.word);
    if c.Retime? { SetPulsesKeepsMode(s, c.n); }
  }

  lemma TaskPlainWork(s: State, c: EndChoice)
    requires TaskInv(s) && WorkEnabled(s) && (s.pc.Release? ==> Count(s.word) >= 1)
    requires Plainly(s.pc) || s.pc.SetupDelay? || s.pc.SetupDur?
    ensures TaskInv(WorkerStep(s, c))
  {
    TaskAdvance(s, WorkerStep(s, c));
  }

  /** The worker moves on without touching the word, the tally or the kind of task. */
  lemma TaskAdvance(s: State, t: State)
    requires TaskInv(s) && t.word == s.word && t.nPulses == s.nPulses && t.ctl == s.ctl
    requires t.h.fault == s.h.fault && t.h.accepted == s.h.accepted
    requires t.h.adjusted == s.h.adjusted && t.h.completed == s.h.completed
    requires FiniteBody(t.pc) || t.pc.DecLock? || t.pc.Dec? ==>
               FiniteBody(s.pc) || s.pc.DecLock? || s.nPulses != 0
    requires LoopBody(t.pc) ==> LoopBody(s.pc) || s.nPulses == 0
    requires InTask(t.pc) ==> InTask(s.pc) || s.nPulses == 0 || Count(s.word) >= 1
    ensures TaskInv(t)
  {
  }

  lemma TaskConsume(s: State)
    requires PhaseInv(s) && TaskInv(s) && s.pc.Mod?
    ensures TaskInv(Consume(s))
  {
    var t := Consume(s);
    if s.pc.phase.Done? {
      Split(s.word);
      TaskAdvance(s, t);
    } else {
      ConsumeKeepsCount(s);
      assert t.pc == Mod(s.pc.site, t.pc.phase);
    }
  }

  lemma ConsumeKeepsCount(s: State)
    requires PhaseInv(s) && s.pc.Mod?
    ensures Count(Consume(s).word) == Count(s.word)
  {
    if s.pc.phase.DelayClear? || s.pc.phase.DurClear? || s.pc.phase.CustomClear? {
      ClearRefines(s.word);
    }
  }

  lemma TaskStep(s: State, e: Event)
    requires LockInv(s) && PhaseInv(s) && TaskInv(s) && Enabled(s, e)
    ensures TaskInv(Do(s, e))
  {
    match e
    case Work(c) => TaskWork(s, c);
    case Update(i) => TaskUpdate(s, i);
    case _ => TaskCall(s, e);
  }

  // ------------------------------------------------------------------ every reachable state

  ghost predicate Inv(s: State)
  {
    LockInv(s) && WakeInv(s) && PhaseInv(s) && TaskInv(s)
  }

  lemma InvStep(s: State, e: Event)
    requires Inv(s) && Enabled(s, e)
    ensures Inv(Do(s, e))
  {
    LockStep(s, e);
    WakeStep(s, e);
    PhaseStep(s, e);
    TaskStep(s, e);
  }

  lemma {:induction false} InvRun(s: State, es: seq<Event>, t: State)
    requires Inv(s) && Run(s, es, t)
    ensures Inv(t)
    decreases |es|
  {
    if es != [] {
      InvStep(s, es[0]);
      InvRun(Do(s, es[0]), es[1..], t);
    }
  }

  lemma ReachableInv(t: State)
    requires Reachable(t)
    ensures Inv(t)
  {
    var s, es :| Init(s) && Run(s, es, t);
    InvRun(s, es, t);
  }

  /** In every run, a blocked worker has nothing to do or is about to be signalled; the signal
      is then enabled and wakes it. */
  lemma NoLostWakeup(s: State)
    requires Reachable(s) && s.pc.Asleep? && s.word != 0
    ensures s.lock.ByController? && Enabled(s, Signal(s.lock.i))
    ensures Do(s, Signal(s.lock.i)).pc.Woken?
  {
    ReachableInv(s);
  }

  /** In every run within the supported use, the decrement takes one task off and leaves the
      signals alone, and no infinite train is ever decremented. */
  lemma DecrementNeverBorrows(s: State)
    requires Reachable(s) && !s.h.fault && s.pc.Dec?
    ensures s.nPulses != 0 && TakesOneOff(s.word, Decrement(s.word))
  {
    ReachableInv(s);
    DecrementRefines(s.word);
  }

  /** Conservation of tasks over every run within the supported use. */
  lemma TasksConserved(s: State)
    requires Reachable(s) && !s.h.fault
    ensures s.h.accepted == s.h.completed + Count(s.word) - s.h.adjusted
  {
    ReachableInv(s);
  }

  /** For a finite task the tally is adjusted by nothing but UnDoTasks and the two saturating
      branches of DoOrUndoTasks, by the change of the count they make. */
  lemma AdjustedOnlyBy(s: State, e: Event)
    requires Reachable(s) && Enabled(s, e) && !Do(s, e).h.fault && s.nPulses != 0
    ensures Do(s, e).h.adjusted != s.h.adjusted ==>
              && e.Update?
              && (s.ctl[e.i].op.Undo? ||
                  (s.ctl[e.i].op.Adjust? && !Classify(s.word, s.ctl[e.i].op.delta).Plain?))
              && Do(s, e).h.adjusted - s.h.adjusted == Count(Do(s, e).word) - Count(s.word)
  {
    ReachableInv(s);
    FaultsStay(s, e);
    match e
    case Update(i) => assert !InfiniteOnly(s.ctl[i]);
    case Work(c) => WorkerKeepsBooks(s, c);
    case _ => assert Do(s, e).h.adjusted == s.h.adjusted;
  }

  lemma WorkerKeepsBooks(s: State, c: EndChoice)
    requires WorkEnabled(s)
    ensures WorkerStep(s, c).h.accepted == s.h.accepted
    ensures WorkerStep(s, c).h.adjusted == s.h.adjusted
  {
  }

  // ------------------------------------------------------------------ the abstract record

  /** The record after a controller's write, in unbounded arithmetic. */
  function JobApply(j: Job, finite: bool, op: Op): Job
  {
    match op
    case AddOne =>
      if !finite then j.(count := 1)
      else if j.count + 1 < KMODDELAY - 1 then j.(count := j.count + 1) else j
    case AddMany(n) =>
      if !finite then j.(count := 1)
      else if j.count + n < KMODDELAY - 1 then j.(count := j.count + n) else j
    case Undo => Job(1, false, false, false)
    case Adjust(n) =>
      var sum := j.count + n;
      if 0 <= sum < KMODDELAY then j.(count := sum)
      else if KMODDELAY <= sum < KMODCUSTOM then Job(KMODDELAY - 1, false, false, false)
      else Job(j.count % 2, false, false, false)
    case Start => j.(count := 1)
    case Stop => Job(0, false, false, false)
    case SignalDelay => j.(delay := true)
    case SignalDur => j.(dur := true)
    case SignalBoth => j.(delay := true, dur := true)
    case SignalCustom => j.(custom := true)
  }

  /** The record after any step. */
  function JobAfter(s: State, e: Event): Job
  {
    var j := Abs(s.word);
    if e.Update? && e.i < |s.ctl| && s.ctl[e.i].Holding? then
      JobApply(j, s.nPulses != 0, s.ctl[e.i].op)
    else if e.Work? && s.pc.Mod? then
      match s.pc.phase
      case DelayClear => j.(delay := false)
      case DurClear => j.(dur := false)
      case CustomClear => j.(custom := false)
      case _ => j
    else if e.Work? && s.pc.EndFlag? then j.(delay := true, dur := true)
    else if e.Work? && s.pc.Dec? && j.count > 0 then j.(count := j.count - 1)
    else j
  }

  lemma ApplyRefines(s: State, op: Op)
    requires !Apply(s, op).h.fault
    requires s.nPulses == 0 ==> Count(s.word) <= 1
    requires op.Start? ==> s.nPulses == 0
    ensures Abs(Apply(s, op).word) == JobApply(Abs(s.word), s.nPulses != 0, op)
  {
    match op
    case AddOne => AddRefines(s, op);
    case AddMany(_) => AddRefines(s, op);
    case Undo =>
    case Adjust(n) => AdjustRefines(s.word, n);
    case Start => SetOddRefines(s.word);
    case Stop =>
    case SignalDelay => RaiseRefines(s.word);
    case SignalDur => RaiseRefines(s.word);
    case SignalBoth => RaiseBothRefines(s.word);
    case SignalCustom => RaiseRefines(s.word);
  }

  lemma AddRefines(s: State, op: Op)
    requires (op.AddOne? || op.AddMany?) && !Apply(s, op).h.fault
    requires s.nPulses == 0 ==> Count(s.word) <= 1
    ensures Abs(Apply(s, op).word) == JobApply(Abs(s.word), s.nPulses != 0, op)
  {
    if s.nPulses == 0 {
      SetOddRefines(s.word);
    } else if op.AddOne? {
      AddTaskRefines(s.word);
    } else {
      AddTasksRefines(s.word, op.n);
    }
  }

  /** In every run within the supported use, every step of the packed word is the step of the
      record: nothing carries into the signals and nothing borrows from them. */
  lemma StepRefinesRecord(s: State, e: Event)
    requires Reachable(s) && Enabled(s, e) && !Do(s, e).h.fault
    ensures Abs(Do(s, e).word) == JobAfter(s, e)
  {
    ReachableInv(s);
    FaultsStay(s, e);
    match e
    case Update(i) => ApplyRefines(s, s.ctl[i].op);
    case Work(c) => WorkRefines(s, c);
    case _ =>
  }

  lemma WorkRefines(s: State, c: EndChoice)
    requires Inv(s) && !s.h.fault && WorkEnabled(s)
    ensures Abs(WorkerStep(s, c).word) == JobAfter(s, Work(c))
  {
    if s.pc.Mod? {
      ClearRefines(s.word);
    } else if s.pc.EndFlag? {
      RaiseBothRefines(s.word);
    } else if s.pc.Dec? {
      DecrementRefines(s.word);
    }
  }
}
