/** UnDoTasks tests the word before it locks, and writes one task whatever has happened since. */
module Cancelling {

  import opened Words
  import opened Machine
  import opened Safety
  import opened Drain
  import opened Faults

  /** The write adds a task exactly when none is counted any more; otherwise it takes all but one
      away, or leaves the one there is. */
  lemma UndoWriteExactly(s: State, i: nat)
    requires At(s, i, Holding(Undo))
    ensures var t := Do(s, Update(i));
            && Count(t.word) == 1 && !HasAny(t.word)
            && (Count(t.word) > Count(s.word) <==> Count(s.word) == 0)
            && t.h.adjusted - s.h.adjusted == 1 - Count(s.word)
  {
  }

  /** No controller writes the word; anything else may happen. */
  predicate NoWrites(es: seq<Event>)
  {
    forall k :: 0 <= k < |es| ==> !es[k].Update?
  }

  lemma {:induction false} BooksStay(s: State, es: seq<Event>, t: State)
    requires NoWrites(es) && Run(s, es, t)
    ensures t.h.accepted == s.h.accepted && t.h.adjusted == s.h.adjusted && t.h.nextTicket == s.h.nextTicket
    ensures t.h.dropped == s.h.dropped
    decreases |es|
  {
    if es != [] {
      assert !es[0].Update?;
      BookStep(s, es[0]);
      BooksStay(Do(s, es[0]), es[1..], t);
    }
  }

  lemma BookStep(s: State, e: Event)
    requires Enabled(s, e) && !e.Update?
    ensures var t := Do(s, e);
            && t.h.accepted == s.h.accepted && t.h.adjusted == s.h.adjusted
            && t.h.nextTicket == s.h.nextTicket && t.h.dropped == s.h.dropped
  {
    if e.Work? { BooksOfWorker(s, e.choice); }
  }

  lemma BooksOfWorker(s: State, c: EndChoice)
    requires WorkEnabled(s)
    ensures var t := WorkerStep(s, c);
            && t.h.accepted == s.h.accepted && t.h.adjusted == s.h.adjusted
            && t.h.nextTicket == s.h.nextTicket && t.h.dropped == s.h.dropped
  {
  }

  /** A call of UnDoTasks from its test to its write, while no other controller writes the word:
      it adds a task exactly when the worker has meanwhile completed all those counted at the
      test. */
  ghost predicate UndoUnderWay(s: State, i: nat, es: seq<Event>, t: State)
  {
    && Enabled(s, Begin(i, Undo)) && NoWrites(es) && Run(Do(s, Begin(i, Undo)), es, t)
    && !t.h.fault && At(t, i, Holding(Undo))
  }

  lemma UndoAddsExactly(s: State, i: nat, es: seq<Event>, t: State)
    requires Reachable(s) && !s.h.fault && UndoUnderWay(s, i, es, t)
    ensures Count(Do(t, Update(i)).word) > Count(t.word) <==>
            t.h.completed - s.h.completed == Count(s.word)
  {
    var u := Do(s, Begin(i, Undo));
    ReachStep(s, Begin(i, Undo));
    ReachRun(u, es, t);
    BooksStay(u, es, t);
    TasksConserved(s);
    TasksConserved(t);
    UndoWriteExactly(t, i);
  }

  /** What a caller can tell beforehand: a call for a finite task may add one if and only if the
      word is above 1 when it starts, whatever is counted, for the worker may be that fast. */
  lemma UndoMayAddExactly(s: State, i: nat)
    requires Reachable(s) && !s.h.fault && s.nPulses != 0 && At(s, i, Idle) && !s.lock.ByController?
    ensures (exists es, t :: UndoUnderWay(s, i, es, t) && Count(t.word) == 0) <==> s.word > 1
  {
    if s.word > 1 {
      UndoCanBeLate(s, i);
    }
  }

  lemma UndoCanBeLate(s: State, i: nat)
    requires Reachable(s) && !s.h.fault && s.nPulses != 0 && At(s, i, Idle) && !s.lock.ByController?
    requires s.word > 1
    ensures exists es, t :: UndoUnderWay(s, i, es, t) && Count(t.word) == 0 && t.nPulses != 0
  {
    var u := Do(s, Begin(i, Undo));
    ReachStep(s, Begin(i, Undo));
    ReachableInv(u);
    Drains(u, x => NoChange);
    var es, v :| Run(u, es, v) && WorkerOnly(es) && v.pc.Asleep? && v.word == 0
                 && v.h.completed == u.h.completed + Count(u.word);
    EveryRunDrains(u, es, v);
    RunAppend(u, es, v, Acquire(i));
    var fs, t := es + [Acquire(i)], Do(v, Acquire(i));
    assert NoWrites(fs);
    assert Count(0) == 0;
    assert UndoUnderWay(s, i, fs, t) && Count(t.word) == 0 && t.nPulses != 0;
  }

  /** DoTasks(2); the test of UnDoTasks passes; the worker does both tasks; UnDoTasks writes one
      more.  No signal was involved. */
  lemma UndoTooLate()
    ensures exists s :: Reachable(s) && !s.h.fault && s.nPulses != 0 && s.h.accepted == 2
                        && s.h.completed == 2 && s.word == 1 && s.h.nextTicket == 0
  {
    var s0 := Ready(0, 10, 1);
    TwoFit();
    CallReachable(s0, AddMany(2));
    var s1 := s0.(word := 2, h := s0.h.(accepted := 2));
    assert s1 == Call(s0, AddMany(2));
    UndoCanBeLate(s1, 0);
    var es, t :| UndoUnderWay(s1, 0, es, t) && Count(t.word) == 0 && t.nPulses != 0;
    LateWrite(s1, es, t);
  }

  lemma TwoFit()
    ensures AddTasks(0, 2) == 2 && TasksFit(0, 2) && Count(2) == 2
  {
  }

  lemma LateWrite(s: State, es: seq<Event>, t: State)
    requires Reachable(s) && !s.h.fault && UndoUnderWay(s, 0, es, t) && Count(t.word) == 0 && t.nPulses != 0
    ensures exists u :: Reachable(u) && !u.h.fault && u.nPulses != 0 && u.h.accepted == s.h.accepted
                        && u.h.completed == s.h.completed + Count(s.word) && u.word == 1
                        && u.h.nextTicket == s.h.nextTicket
  {
    UndoAddsExactly(s, 0, es, t);
    UndoWriteExactly(t, 0);
    var u := Do(s, Begin(0, Undo));
    BooksStay(u, es, t);
    ReachStep(s, Begin(0, Undo));
    ReachRun(u, es, t);
    ReachStep(t, Update(0));
    WrittenLate(t);
  }

  lemma WrittenLate(t: State)
    requires At(t, 0, Holding(Undo))
    ensures var u := Do(t, Update(0));
            && u.word == 1 && u.nPulses == t.nPulses && u.h.fault == t.h.fault
            && u.h.accepted == t.h.accepted && u.h.completed == t.h.completed && u.h.nextTicket == t.h.nextTicket
  {
  }
}
