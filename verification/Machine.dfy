/** The worker thread and any number of controller threads as a step system.

    One step is one access to shared state: a mutex operation, a condition-variable operation,
    a read-modify-write of `doTask`, a store to a timing field, or a callback.  The worker's
    program counter follows `pulsedThreadFunc`; a controller's follows the public methods, with
    their unlocked tests and stores as steps of their own. */
module Machine {

  import opened Words

  /** Where the worker consumes signals: at the top of its loop, or between two pulses of an
      infinite train. */
  datatype Site = AtTop | InTrain

  datatype Phase = DelayTest | DelayClear | DurTest | DurClear | CustomTest | CustomClear | Done

  datatype Worker =
    | SetupDelay | SetupDur               // first configuration of the private timers
    | Top                                 // about to lock
    | Check                               // holds the lock, about to test doTask == 0
    | Asleep                              // blocked on the condition variable
    | Woken                               // signalled, about to lock again
    | Mod(site: Site, phase: Phase)       // holds the lock, consuming signals
    | Release                             // holds the lock, nothing to consume
    | Dispatch                            // about to read nPulses
    | PulseHi | PulseLo                   // single pulse
    | TrainTest(i: nat) | TrainHi(i: nat) | TrainLo(i: nat)
    | LoopTest | LoopFlags | LoopLock | LoopHi | LoopLo
    | EndFn(loop: bool)                   // about to run endFunc
    | EndFlag(loop: bool)                 // endFunc has stored timing, about to raise signals
    | Finish                              // about to test nPulses again
    | DecLock | Dec | DecRelease          // doTask -= 1 under the lock

  datatype Op =
    | AddOne | AddMany(n: uint32) | Undo | Adjust(delta: int32)
    | Start | Stop
    | SignalDelay | SignalDur | SignalBoth | SignalCustom

  datatype Field = DurField | PulsesField

  datatype Controller =
    | Idle
    | Storing(flagged: bool, next: Field)  // inside times2Ticks
    | Resizing(n: uint32)                  // modTrainLength, past the test of ticks2Times
    | Want(op: Op)                         // about to lock
    | Holding(op: Op)                      // holds the lock, about to write doTask
    | Signalling                           // doTask written, about to signal
    | Leaving                              // signalled, about to unlock

  datatype Lock = Free | ByWorker | ByController(i: nat)

  /** What endFunc does: nothing to the task, or what the array endFuncs do, storing new timing
      and then raising both timing signals. */
  datatype EndChoice = NoChange | Retime(delay: uint32, dur: uint32, n: uint32)

  /** Bookkeeping that the program does not have and no step tests. */
  datatype History = History(
    accepted: int,           // tasks taken by DoTask, DoTasks and the plain branch of DoOrUndoTasks
    adjusted: int,           // change of the count by every other write of a controller
    completed: nat,          // decrements
    nextTicket: nat,         // custom requests are numbered in the order they are installed
    ran: seq<nat>,           // requests whose callback the worker ran
    superseded: set<nat>,    // requests overwritten by a later one while still pending
    dropped: set<nat>,       // requests whose signal a writing line discarded
    lostDelay: bool,         // a delay value the worker was never told about, since it last looked
    lostDur: bool,
    fault: bool)             // a caller went outside what the program supports

  /** The callbacks made so far. */
  datatype Calls = Calls(
    his: nat,                // hiFunc calls
    los: nat,                // loFunc calls
    loopHis: nat,            // hiFunc calls of infinite trains
    loopPulses: nat)         // pulses of infinite trains that reached their end

  datatype State = State(
    word: uint32,
    delay: uint32, dur: uint32, nPulses: uint32,
    delayTimer: uint32, durTimer: uint32,
    ticket: nat,             // the request installed in modCustomFunc
    pc: Worker,
    lock: Lock,
    ctl: seq<Controller>,
    calls: Calls,
    h: History)

  datatype Event =
    | Work(choice: EndChoice)                         // the worker's next step
    | Wake                                            // spurious return of the wait
    | Begin(i: nat, op: Op)                           // past the unlocked test of a method
    | StoreDelay(i: nat, v: uint32)                   // modDelay
    | StoreDur(i: nat, v: uint32)                     // modDur
    | Store(i: nat, flagged: bool, v: uint32)         // times2Ticks, first store
    | StoreNext(i: nat, v: uint32)                    // times2Ticks, later stores
    | TestLength(i: nat, n: uint32) | StoreLength(i: nat)
    | Acquire(i: nat) | Update(i: nat) | Signal(i: nat) | Unlock(i: nat)

  ghost predicate Init(s: State)
  {
    && s.word == 0 && s.ticket == 0
    && s.pc == SetupDelay && s.lock == Free
    && (forall i :: 0 <= i < |s.ctl| ==> s.ctl[i] == Idle)
    && s.calls == Calls(0, 0, 0, 0)
    && s.h == History(0, 0, 0, 0, [], {}, {}, false, false, false)
  }

  // ------------------------------------------------------------------ regions of the worker

  predicate WorkerHolds(pc: Worker)
  {
    pc.Check? || pc.Mod? || pc.Release? || pc.Dec? || pc.DecRelease?
  }

  predicate ControllerHolds(c: Controller)
  {
    c.Holding? || c.Signalling? || c.Leaving?
  }

  predicate FiniteBody(pc: Worker)
  {
    || pc.PulseHi? || pc.PulseLo? || pc.TrainTest? || pc.TrainHi? || pc.TrainLo?
    || (pc.EndFn? && !pc.loop) || (pc.EndFlag? && !pc.loop)
  }

  predicate LoopBody(pc: Worker)
  {
    || pc.LoopTest? || pc.LoopFlags? || pc.LoopLock? || pc.LoopHi? || pc.LoopLo?
    || (pc.Mod? && pc.site.InTrain?) || (pc.EndFn? && pc.loop) || (pc.EndFlag? && pc.loop)
  }

  /** From the read of nPulses that chooses the kind of task to the decrement. */
  predicate InTask(pc: Worker)
  {
    pc.Dispatch? || FiniteBody(pc) || LoopBody(pc) || pc.Finish? || pc.DecLock? || pc.Dec?
  }

  /** A method that has tested nPulses outside the lock and will act on it inside. */
  predicate RestsOnMode(c: Controller)
  {
    (c.Want? || c.Holding?) && (c.op.Adjust? || c.op.Start? || c.op.Stop?)
  }

  /** No task queued or running, and no method relying on the kind of task. */
  ghost predicate Quiescent(s: State)
  {
    && Count(s.word) == 0
    && !InTask(s.pc)
    && (forall i :: 0 <= i < |s.ctl| ==> !RestsOnMode(s.ctl[i]))
  }

  // ------------------------------------------------------------------ effects

  /** A store to nPulses.  Changing between finite and infinite is supported only at rest. */
  ghost function SetPulses(s: State, n: uint32): State
  {
    s.(nPulses := n,
       h := s.h.(fault := s.h.fault || ((n == 0) != (s.nPulses == 0) && !Quiescent(s))))
  }

  /** A write of the whole word that forgets pending signals. */
  function Overwrite(s: State, w: uint32): State
  {
    s.(word := w,
       h := s.h.(adjusted := s.h.adjusted + Count(w) - Count(s.word),
                 lostDelay := s.h.lostDelay || HasDelay(s.word),
                 lostDur := s.h.lostDur || HasDur(s.word),
                 dropped := if HasCustom(s.word) then s.h.dropped + {s.ticket} else s.h.dropped))
  }

  /** doTask |= 1 for an infinite train. */
  function StartTrain(s: State): State
  {
    s.(word := SetOdd(s.word),
       h := s.h.(adjusted := s.h.adjusted + if Odd(s.word) then 0 else 1))
  }

  /** The write of doTask inside a controller's critical section. */
  function Apply(s: State, op: Op): State
  {
    match op
    case AddOne =>
      if s.nPulses == 0 then StartTrain(s)
      else s.(word := AddTask(s.word),
              h := s.h.(accepted := s.h.accepted + if Count(s.word) < KMODDELAY - 2 then 1 else 0))
    case AddMany(n) =>
      if s.nPulses == 0 then StartTrain(s)
      else s.(word := AddTasks(s.word, n),
              h := s.h.(accepted := s.h.accepted + if TasksFit(s.word, n) then n else 0,
                        fault := s.h.fault || n >= KMODDELAY))
    case Undo => Overwrite(s, 1)
    case Adjust(n) =>
      var t := if Classify(s.word, n).Plain?
               then s.(word := AdjustTasks(s.word, n), h := s.h.(accepted := s.h.accepted + n))
               else Overwrite(s, AdjustTasks(s.word, n));
      t.(h := t.h.(fault := t.h.fault || (InTask(s.pc) && Count(t.word) == 0)))
    case Start => StartTrain(s)
    case Stop => Overwrite(s, 0)
    case SignalDelay => s.(word := RaiseDelay(s.word))
    case SignalDur => s.(word := RaiseDur(s.word))
    case SignalBoth => s.(word := RaiseBoth(s.word))
    case SignalCustom =>
      s.(word := RaiseCustom(s.word),
         ticket := s.h.nextTicket,
         h := s.h.(nextTicket := s.h.nextTicket + 1,
                   superseded := if HasCustom(s.word) then s.h.superseded + {s.ticket} else s.h.superseded))
  }

  /** The unlocked test a method makes before it locks; the method returns when it fails. */
  predicate Guard(s: State, op: Op)
  {
    match op
    case Undo => s.word > 1
    case Adjust(_) => s.nPulses != 0
    case Start => s.nPulses == 0 && !Odd(s.word)
    case Stop => s.nPulses == 0 && Odd(s.word)
    case AddOne | AddMany(_) | SignalCustom => true
    case SignalDelay | SignalDur | SignalBoth => false  // only after their stores
  }

  // ------------------------------------------------------------------ the worker

  predicate NeedsLock(pc: Worker) { pc.Top? || pc.Woken? || pc.LoopLock? || pc.DecLock? }

  predicate WorkEnabled(s: State)
  {
    !s.pc.Asleep? && (NeedsLock(s.pc) ==> s.lock == Free)
  }

  function Consume(s: State): State
    requires s.pc.Mod?
  {
    var site := s.pc.site;
    match s.pc.phase
    case DelayTest =>
      if HasDelay(s.word)
      then s.(delayTimer := s.delay, pc := Mod(site, DelayClear), h := s.h.(lostDelay := false))
      else s.(pc := Mod(site, DurTest))
    case DelayClear => s.(word := ClearDelay(s.word), pc := Mod(site, DurTest))
    case DurTest =>
      if HasDur(s.word)
      then s.(durTimer := s.dur, pc := Mod(site, DurClear), h := s.h.(lostDur := false))
      else s.(pc := Mod(site, CustomTest))
    case DurClear => s.(word := ClearDur(s.word), pc := Mod(site, CustomTest))
    case CustomTest =>
      if HasCustom(s.word)
      then s.(pc := Mod(site, CustomClear), h := s.h.(ran := s.h.ran + [s.ticket]))
      else s.(pc := Mod(site, Done))
    case CustomClear => s.(word := ClearCustom(s.word), pc := Mod(site, Done))
    case Done =>
      s.(lock := Free, pc := if site.InTrain? then LoopHi else if s.word == 0 then Top else Dispatch)
  }

  /** endFunc, then on to the next loop test or to the end of the task. */
  function AfterEnd(s: State, loop: bool): State
  {
    if loop then s.(pc := LoopTest, calls := s.calls.(loopPulses := s.calls.loopPulses + 1)) else s.(pc := Finish)
  }

  /** The timing stores of an array endFunc; a change it makes is followed by its signals. */
  ghost function RunEnd(s: State, loop: bool, c: EndChoice): State
  {
    match c
    case NoChange => AfterEnd(s, loop)
    case Retime(d, u, n) => SetPulses(s, n).(delay := d, dur := u, pc := EndFlag(loop))
  }

  /** Steps of the worker that write no task data: where they lead, what they do to the lock,
      and which callbacks they make. */
  predicate Plainly(pc: Worker)
  {
    !(pc.SetupDelay? || pc.SetupDur? || pc.Mod? || pc.EndFn? || pc.EndFlag? || pc.Dec?)
  }

  function NextPc(s: State): Worker
  {
    match s.pc
    case Top => Check
    case Check => if s.word == 0 then Asleep else if HasAny(s.word) then Mod(AtTop, DelayTest) else Release
    case Woken => Check
    case Release => Dispatch
    case Dispatch => if s.nPulses == 1 then PulseHi else if s.nPulses == 0 then LoopTest else TrainTest(0)
    case PulseHi => PulseLo
    case PulseLo => EndFn(false)
    case TrainTest(i) => if i < s.nPulses then TrainHi(i) else EndFn(false)
    case TrainHi(i) => TrainLo(i)
    case TrainLo(i) => TrainTest(i + 1)
    case LoopTest => if Odd(s.word) then LoopFlags else Finish
    case LoopFlags => if HasAny(s.word) then LoopLock else LoopHi
    case LoopLock => Mod(InTrain, DelayTest)
    case LoopHi => LoopLo
    case LoopLo => EndFn(true)
    case Finish => if s.nPulses != 0 then DecLock else Top
    case DecLock => Dec
    case DecRelease => Top
    case _ => s.pc
  }

  function NextLock(s: State): Lock
  {
    match s.pc
    case Top | Woken | LoopLock | DecLock => ByWorker
    case Check => if s.word == 0 then Free else s.lock
    case Release | DecRelease => Free
    case _ => s.lock
  }

  /** The high callback of a train is skipped when the duration field is 0, the low one when
      the delay field is 0; both fields are read as they are at that moment. */
  function Heard(s: State): Calls
  {
    match s.pc
    case PulseHi => s.calls.(his := s.calls.his + 1)
    case PulseLo => s.calls.(los := s.calls.los + 1)
    case TrainHi(_) => s.calls.(his := s.calls.his + if s.dur > 0 then 1 else 0)
    case TrainLo(_) => s.calls.(los := s.calls.los + if s.delay > 0 then 1 else 0)
    case LoopHi => s.calls.(his := s.calls.his + 1, loopHis := s.calls.loopHis + 1)
    case LoopLo => s.calls.(los := s.calls.los + if s.delay > 0 then 1 else 0)
    case _ => s.calls
  }

  ghost function WorkerStep(s: State, c: EndChoice): State
    requires WorkEnabled(s)
  {
    match s.pc
    case SetupDelay => s.(delayTimer := s.delay, pc := SetupDur, h := s.h.(lostDelay := false))
    case SetupDur => s.(durTimer := s.dur, pc := Top, h := s.h.(lostDur := false))
    case Mod(_, _) => Consume(s)
    case EndFn(loop) => RunEnd(s, loop, c)
    case EndFlag(loop) => AfterEnd(s.(word := RaiseBoth(s.word)), loop)
    case Dec => s.(word := Decrement(s.word), pc := DecRelease, h := s.h.(completed := s.h.completed + 1))
    case _ => s.(pc := NextPc(s), lock := NextLock(s), calls := Heard(s))
  }

  // ------------------------------------------------------------------ all steps

  predicate At(s: State, i: nat, c: Controller) { i < |s.ctl| && s.ctl[i] == c }

  predicate Enabled(s: State, e: Event)
  {
    match e
    case Work(_) => WorkEnabled(s)
    case Wake => s.pc.Asleep?
    case Begin(i, op) => At(s, i, Idle) && Guard(s, op)
    case StoreDelay(i, _) => At(s, i, Idle) && s.dur != 0
    case StoreDur(i, v) => At(s, i, Idle) && v != 0
    case Store(i, _, _) => At(s, i, Idle)
    case StoreNext(i, _) => i < |s.ctl| && s.ctl[i].Storing?
    case TestLength(i, n) => At(s, i, Idle) && s.dur != 0 && !(s.nPulses == 0 && n != 0 && Odd(s.word))
    case StoreLength(i) => i < |s.ctl| && s.ctl[i].Resizing?
    case Acquire(i) => i < |s.ctl| && s.ctl[i].Want? && s.lock == Free
    case Update(i) => i < |s.ctl| && s.ctl[i].Holding?
    case Signal(i) => At(s, i, Signalling)
    case Unlock(i) => At(s, i, Leaving)
  }

  function Move(s: State, i: nat, c: Controller): State
    requires i < |s.ctl|
  {
    s.(ctl := s.ctl[i := c])
  }

  ghost function Do(s: State, e: Event): State
    requires Enabled(s, e)
  {
    match e
    case Work(c) => WorkerStep(s, c)
    case Wake => s.(pc := Woken)
    case Begin(i, op) => Move(s, i, Want(op))
    case StoreDelay(i, v) => Move(s.(delay := v), i, Want(SignalDelay))
    case StoreDur(i, v) => Move(s.(dur := v), i, Want(SignalDur))
    case Store(i, flagged, v) =>
      Move(s.(delay := v,
              h := s.h.(lostDelay := s.h.lostDelay || (!flagged && v != s.delay))),
           i, Storing(flagged, DurField))
    case StoreNext(i, v) =>
      var flagged := s.ctl[i].flagged;
      if s.ctl[i].next.DurField? then
        Move(s.(dur := v,
                h := s.h.(lostDur := s.h.lostDur || (!flagged && v != s.dur))),
             i, Storing(flagged, PulsesField))
      else
        Move(SetPulses(s, v), i, if flagged then Want(SignalBoth) else Idle)
    case TestLength(i, n) => Move(s, i, Resizing(n))
    case StoreLength(i) => Move(SetPulses(s, s.ctl[i].n), i, Idle)
    case Acquire(i) => Move(s, i, Holding(s.ctl[i].op)).(lock := ByController(i))
    case Update(i) => Move(Apply(s, s.ctl[i].op), i, Signalling)
    case Signal(i) => Move(s, i, Leaving).(pc := if s.pc.Asleep? then Woken else s.pc)
    case Unlock(i) => Move(s, i, Idle).(lock := Free)
  }

  /** What the steps of controllers leave alone. */
  lemma CallFrame(s: State, e: Event)
    requires Enabled(s, e) && !e.Work?
    ensures var t := Do(s, e);
            && (t.pc == s.pc || (s.pc.Asleep? && t.pc.Woken?))
            && t.calls == s.calls && t.delayTimer == s.delayTimer && t.durTimer == s.durTimer
            && t.h.ran == s.h.ran && t.h.completed == s.h.completed
  {
    if e.Update? { ApplyLeaves(s, s.ctl[e.i].op); }
  }

  lemma ApplyLeaves(s: State, op: Op)
    ensures var t := Apply(s, op);
            && t == s.(word := t.word, ticket := t.ticket, h := t.h)
            && t.h.ran == s.h.ran && t.h.completed == s.h.completed
  {
  }

  // ------------------------------------------------------------------ runs

  ghost predicate Run(s: State, es: seq<Event>, t: State)
    decreases |es|
  {
    if es == [] then s == t
    else Enabled(s, es[0]) && Run(Do(s, es[0]), es[1..], t)
  }

  ghost predicate Reachable(t: State)
  {
    exists s, es :: Init(s) && Run(s, es, t)
  }

  lemma RunAppend(s: State, es: seq<Event>, t: State, e: Event)
    requires Run(s, es, t) && Enabled(t, e)
    ensures Run(s, es + [e], Do(t, e))
    decreases |es|
  {
    if es == [] {
      assert [e][1..] == [];
    } else {
      RunAppend(Do(s, es[0]), es[1..], t, e);
      assert (es + [e])[1..] == es[1..] + [e];
    }
  }

  lemma ReachStep(s: State, e: Event)
    requires Reachable(s) && Enabled(s, e)
    ensures Reachable(Do(s, e))
  {
    var s0, es :| Init(s0) && Run(s0, es, s);
    RunAppend(s0, es, s, e);
  }

  lemma {:induction false} ReachRun(s: State, es: seq<Event>, t: State)
    requires Reachable(s) && Run(s, es, t)
    ensures Reachable(t)
    decreases |es|
  {
    if es != [] {
      ReachStep(s, es[0]);
      ReachRun(Do(s, es[0]), es[1..], t);
    }
  }
}
