/** The worker left to itself: it finishes exactly the queued tasks and goes to sleep. */
module Drain {

  import opened Words
  import opened Machine
  import opened Safety
  import opened Freshness

  /** No controller holds the lock, though some may wait for it in the middle of a call, and the
      task is finite. */
  ghost predicate Alone(s: State)
  {
    Inv(s) && !s.h.fault && s.nPulses != 0 && !s.lock.ByController?
  }

  /** endFuncs keep the task finite; otherwise they may retime it and raise signals each time. */
  ghost predicate KeepsFinite(oracle: State -> EndChoice)
  {
    forall s: State :: oracle(s).Retime? ==> oracle(s).n != 0
  }

  /** How far the worker is from its next decrement, or from sleep. */
  function Stage(s: State): nat
  {
    match s.pc
    case SetupDelay => 60
    case SetupDur => 59
    case DecRelease => 50
    case Top | Woken => if HasAny(s.word) then 41 else 21
    case Check => if HasAny(s.word) then 40 else 20
    case Mod(site, phase) => if site.AtTop? then 39 - Rank(phase) else 15 - Rank(phase)
    case Release => 19
    case Dispatch => 18
    case LoopFlags => 17
    case LoopLock => 16
    case LoopHi => 8
    case LoopLo => 7
    case LoopTest => 4
    case TrainTest(_) | TrainHi(_) | TrainLo(_) => 8
    case PulseHi => 7
    case PulseLo => 6
    case EndFn(loop) => if loop then 6 else 5
    case EndFlag(loop) => if loop then 5 else 4
    case Finish => 3
    case DecLock => 2
    case Dec => 1
    case Asleep => 0
  }

  function Remaining(n: int): nat { if n < 0 then 0 else n }

  /** What is left of the train in progress. */
  function Left(s: State): nat
  {
    match s.pc
    case TrainTest(i) => 3 * Remaining(s.nPulses - i)
    case TrainHi(i) => 3 * Remaining(s.nPulses - i - 1) + 2
    case TrainLo(i) => 3 * Remaining(s.nPulses - i - 1) + 1
    case _ => 0
  }

  /** The lexicographic measure. */
  ghost predicate Closer(t: State, s: State)
  {
    || Count(t.word) < Count(s.word)
    || (Count(t.word) == Count(s.word) && Stage(t) < Stage(s))
    || (Count(t.word) == Count(s.word) && Stage(t) == Stage(s) && Left(t) < Left(s))
  }

  lemma AloneEnabled(s: State)
    requires Alone(s)
    ensures WorkEnabled(s) <==> !s.pc.Asleep?
    ensures s.pc.Asleep? ==> s.word == 0
  {
  }

  /** What controllers have asked for, and where they are. */
  ghost predicate SameCalls(t: State, s: State)
  {
    && t.ctl == s.ctl && t.h.accepted == s.h.accepted && t.h.adjusted == s.h.adjusted
    && t.h.nextTicket == s.h.nextTicket
  }

  lemma AloneStep(s: State, c: EndChoice)
    requires Alone(s) && WorkEnabled(s) && (c.Retime? ==> c.n != 0)
    ensures Alone(WorkerStep(s, c)) && SameCalls(WorkerStep(s, c), s)
  {
    InvStep(s, Work(c));
    AloneFrame(s, c);
  }

  lemma AloneFrame(s: State, c: EndChoice)
    requires WorkEnabled(s) && s.nPulses != 0 && (c.Retime? ==> c.n != 0)
    ensures var t := WorkerStep(s, c);
            && t.nPulses != 0 && t.h.fault == s.h.fault && (t.lock.ByController? ==> s.lock.ByController?)
            && SameCalls(t, s)
  {
  }

  lemma StepCloser(s: State, c: EndChoice)
    requires Alone(s) && WorkEnabled(s)
    ensures Closer(WorkerStep(s, c), s)
  {
    if s.pc.Mod? {
      ConsumeKeepsCount(s);
      ConsumeCloser(s);
    } else if s.pc.Dec? {
      DecrementRefines(s.word);
    } else if s.pc.EndFlag? {
      RaiseBothRefines(s.word);
    } else {
      PlainCloser(s, c);
    }
  }

  lemma ConsumeCloser(s: State)
    requires PhaseInv(s) && s.pc.Mod?
    ensures Stage(Consume(s)) < Stage(s)
  {
  }

  lemma PlainCloser(s: State, c: EndChoice)
    requires Alone(s) && WorkEnabled(s) && !s.pc.Mod? && !s.pc.Dec? && !s.pc.EndFlag?
    ensures Closer(WorkerStep(s, c), s)
  {
    assert WorkerStep(s, c).word == s.word;
  }

  /** Only the worker steps, and its endFuncs keep the task finite. */
  predicate WorkerOnly(es: seq<Event>)
  {
    forall i :: 0 <= i < |es| ==> es[i].Work? && (es[i].choice.Retime? ==> es[i].choice.n != 0)
  }

  const MOST_LEFT: int := 4 * WORD

  /** The measure as one number: a bound on the steps that remain. */
  function Weight(s: State): nat
  {
    (64 * Count(s.word) + Stage(s)) * MOST_LEFT + Left(s)
  }

  lemma CloserWeighsLess(s: State, t: State)
    requires PhaseInv(s) && PhaseInv(t) && Closer(t, s)
    ensures Weight(t) < Weight(s)
  {
    LeftIsSmall(s);
    LeftIsSmall(t);
    PairsInOrder(64 * Count(t.word) + Stage(t), Left(t), 64 * Count(s.word) + Stage(s), Left(s));
  }

  lemma PairsInOrder(a: nat, x: nat, b: nat, y: nat)
    requires x < MOST_LEFT && (a < b || (a == b && x < y))
    ensures a * MOST_LEFT + x < b * MOST_LEFT + y
  {
  }

  lemma LeftIsSmall(s: State)
    requires PhaseInv(s)
    ensures Left(s) < MOST_LEFT && Stage(s) <= 60
  {
  }

  /** Every run of the worker without further steps of controllers, with whatever the endFuncs
      choose: its length is bounded beforehand, a task is completed for each one taken off the
      count, and when no step is left the worker sleeps on an empty word, having completed
      exactly the tasks that were queued. */
  lemma {:induction false} EveryRunDrains(s: State, es: seq<Event>, t: State)
    requires Alone(s) && WorkerOnly(es) && Run(s, es, t)
    ensures |es| + Weight(t) <= Weight(s) && Alone(t) && SameCalls(t, s)
    ensures t.h.completed + Count(t.word) == s.h.completed + Count(s.word)
    ensures !WorkEnabled(t) ==>
              t.pc.Asleep? && t.word == 0 && t.h.completed == s.h.completed + Count(s.word)
    decreases |es|
  {
    AloneEnabled(s);
    if es != [] {
      var c := es[0].choice;
      AloneStep(s, c);
      StepCloser(s, c);
      CloserWeighsLess(s, WorkerStep(s, c));
      EveryRunDrains(WorkerStep(s, c), es[1..], t);
    }
  }

  /** From every state in which no controller holds the lock, with whatever the endFuncs choose,
      the worker alone has a run to sleep on an empty word. */
  lemma {:induction false} Drains(s: State, oracle: State -> EndChoice)
    requires Alone(s) && KeepsFinite(oracle)
    ensures exists es, t :: Run(s, es, t) && WorkerOnly(es) && t.pc.Asleep? && t.word == 0
                            && t.h.completed == s.h.completed + Count(s.word)
    decreases Count(s.word), Stage(s), Left(s)
  {
    AloneEnabled(s);
    if s.pc.Asleep? {
      assert Run(s, [], s) && WorkerOnly([]);
    } else {
      var c := oracle(s);
      AloneStep(s, c);
      StepCloser(s, c);
      Drains(WorkerStep(s, c), oracle);
      var rest, t :| Run(WorkerStep(s, c), rest, t) && WorkerOnly(rest) && t.pc.Asleep? && t.word == 0
                     && t.h.completed == WorkerStep(s, c).h.completed + Count(WorkerStep(s, c).word);
      var es := [Work(c)] + rest;
      assert es[1..] == rest;
      assert Run(s, es, t) && WorkerOnly(es);
    }
  }

  /** Every way the worker alone can continue gets closer: it cannot run for ever. */
  lemma NeverStuckNeverForever(s: State, c: EndChoice)
    requires Reachable(s) && Alone(s) && (c.Retime? ==> c.n != 0)
    ensures s.pc.Asleep? ==> s.word == 0
    ensures !s.pc.Asleep? ==>
              WorkEnabled(s) && Alone(WorkerStep(s, c)) && Closer(WorkerStep(s, c), s)
  {
    AloneEnabled(s);
    if !s.pc.Asleep? {
      AloneStep(s, c);
      StepCloser(s, c);
    }
  }
}
