/** Requests to run a custom callback under the worker: each is numbered when it is installed
    and accounted for exactly once; timers and callbacks change only at boundaries. */
module Requests {

  import opened Words
  import opened Machine
  import opened Safety
  import opened Freshness

  /** The signal is up and its callback has not run yet. */
  predicate Pending(s: State)
  {
    HasCustom(s.word) && !(s.pc.Mod? && s.pc.phase.CustomClear?)
  }

  /** Request t has run, was overwritten while pending, was discarded, or is pending. */
  predicate Accounted(s: State, t: nat)
  {
    || t in s.h.ran
    || t in s.h.superseded
    || t in s.h.dropped
    || (Pending(s) && t == s.ticket)
  }

  ghost predicate Increasing(q: seq<nat>)
  {
    forall a, b :: 0 <= a < b < |q| ==> q[a] < q[b]
  }

  ghost predicate RequestInv(s: State)
  {
    // every request made so far, and no other, is accounted for
    && (forall t: nat :: t < s.h.nextTicket <==> Accounted(s, t))
    // in one way only
    && (forall t :: t in s.h.ran ==> t !in s.h.superseded && t !in s.h.dropped)
    && (forall t :: t in s.h.superseded ==> t !in s.h.dropped)
    && (Pending(s) ==> s.ticket !in s.h.ran && s.ticket !in s.h.superseded && s.ticket !in s.h.dropped)
    // callbacks run in the order they were installed, each at most once
    && Increasing(s.h.ran)
    && (forall t :: t in s.h.ran ==> t <= s.ticket)
    && s.ticket <= s.h.nextTicket
    && (HasCustom(s.word) ==> s.h.nextTicket == s.ticket + 1)
  }

  /** What a controller's write does to the custom signal. */
  lemma ApplyCustom(s: State, op: Op)
    requires op.AddMany? && s.nPulses != 0 ==> op.n < KMODDELAY
    ensures var t := Apply(s, op);
            HasCustom(t.word) ==
            match op
            case Undo => false
            case Stop => false
            case Adjust(n) => Classify(s.word, n).Plain? && HasCustom(s.word)
            case SignalCustom => true
            case _ => HasCustom(s.word)
  {
    match op
    case AddOne => SetOddRefines(s.word); AddTaskRefines(s.word);
    case AddMany(n) =>
      SetOddRefines(s.word);
      if s.nPulses != 0 { AddTasksRefines(s.word, n); }
    case Undo =>
    case Adjust(n) => AdjustRefines(s.word, n);
    case Start => SetOddRefines(s.word);
    case Stop =>
    case SignalDelay => RaiseRefines(s.word);
    case SignalDur => RaiseRefines(s.word);
    case SignalBoth => RaiseBothRefines(s.word);
    case SignalCustom => RaiseRefines(s.word);
  }

  lemma RequestUpdate(s: State, i: nat)
    requires LockInv(s) && RequestInv(s) && Enabled(s, Update(i)) && !Do(s, Update(i)).h.fault
    ensures RequestInv(Do(s, Update(i)))
  {
    var op := s.ctl[i].op;
    var t := Do(s, Update(i));
    ApplyCustom(s, op);
    assert !s.pc.Mod?;
    if op.SignalCustom? {
      Install(s, t);
    } else if HasCustom(s.word) && !HasCustom(t.word) {
      Discard(s, t);
    } else {
      Untouched(s, t);
    }
  }

  lemma Install(s: State, t: State)
    requires RequestInv(s) && !s.pc.Mod? && !t.pc.Mod? && HasCustom(t.word)
    requires t.ticket == s.h.nextTicket && t.h.nextTicket == s.h.nextTicket + 1
    requires t.h.ran == s.h.ran && t.h.dropped == s.h.dropped
    requires t.h.superseded == if HasCustom(s.word) then s.h.superseded + {s.ticket} else s.h.superseded
    ensures RequestInv(t)
  {
    assert Pending(s) <==> HasCustom(s.word);
    assert !Accounted(s, s.h.nextTicket);
    forall x | x in s.h.ran ensures x <= t.ticket { assert Accounted(s, x); }
    forall x: nat ensures x < t.h.nextTicket <==> Accounted(t, x) {
      assert x < s.h.nextTicket <==> Accounted(s, x);
    }
  }

  lemma Discard(s: State, t: State)
    requires RequestInv(s) && !s.pc.Mod? && !t.pc.Mod? && HasCustom(s.word) && !HasCustom(t.word)
    requires t.ticket == s.ticket && t.h.nextTicket == s.h.nextTicket
    requires t.h.ran == s.h.ran && t.h.superseded == s.h.superseded
    requires t.h.dropped == s.h.dropped + {s.ticket}
    ensures RequestInv(t)
  {
    forall x: nat ensures x < t.h.nextTicket <==> Accounted(t, x) {
      assert x < s.h.nextTicket <==> Accounted(s, x);
    }
  }

  lemma Untouched(s: State, t: State)
    requires RequestInv(s) && Pending(t) == Pending(s) && (HasCustom(t.word) ==> HasCustom(s.word))
    requires t.ticket == s.ticket && t.h.nextTicket == s.h.nextTicket
    requires t.h.ran == s.h.ran && t.h.superseded == s.h.superseded && t.h.dropped == s.h.dropped
    ensures RequestInv(t)
  {
    forall x: nat ensures x < t.h.nextTicket <==> Accounted(t, x) {
      assert x < s.h.nextTicket <==> Accounted(s, x);
    }
  }

  lemma RequestWork(s: State, c: EndChoice)
    requires PhaseInv(s) && TaskInv(s) && RequestInv(s) && WorkEnabled(s) && !s.h.fault
    ensures RequestInv(WorkerStep(s, c))
  {
    if s.pc.Mod? {
      RequestConsume(s);
    } else {
      CustomStays(s, c);
      BooksStay(s, c);
      Untouched(s, WorkerStep(s, c));
    }
  }

  lemma BooksStay(s: State, c: EndChoice)
    requires WorkEnabled(s) && !s.pc.Mod?
    ensures var t := WorkerStep(s, c);
            && t.ticket == s.ticket && t.h.nextTicket == s.h.nextTicket && t.h.ran == s.h.ran
            && t.h.superseded == s.h.superseded && t.h.dropped == s.h.dropped
            && !(t.pc.Mod? && t.pc.phase.CustomClear?)
  {
  }

  lemma CustomStays(s: State, c: EndChoice)
    requires TaskInv(s) && WorkEnabled(s) && !s.h.fault && !s.pc.Mod?
    ensures HasCustom(WorkerStep(s, c).word) == HasCustom(s.word)
  {
    if s.pc.Dec? { DecrementRefines(s.word); }
    if s.pc.EndFlag? { RaiseBothRefines(s.word); }
  }

  lemma RequestConsume(s: State)
    requires PhaseInv(s) && RequestInv(s) && s.pc.Mod?
    ensures RequestInv(Consume(s))
  {
    ClearRefines(s.word);
    var t := Consume(s);
    if s.pc.phase.CustomTest? && HasCustom(s.word) {
      RunPending(s, t);
    } else {
      Untouched(s, t);
    }
  }

  lemma RunPending(s: State, t: State)
    requires RequestInv(s) && Pending(s) && !Pending(t) && HasCustom(t.word)
    requires t.ticket == s.ticket && t.h.nextTicket == s.h.nextTicket
    requires t.h.ran == s.h.ran + [s.ticket]
    requires t.h.superseded == s.h.superseded && t.h.dropped == s.h.dropped
    ensures RequestInv(t)
  {
    forall x: nat ensures x < t.h.nextTicket <==> Accounted(t, x) {
      assert x < s.h.nextTicket <==> Accounted(s, x);
    }
    forall x | x in s.h.ran ensures x < s.ticket {
      assert x <= s.ticket && x != s.ticket;
    }
    assert forall a :: 0 <= a < |s.h.ran| ==> s.h.ran[a] in s.h.ran;
  }

  lemma RequestStep(s: State, e: Event)
    requires Inv(s) && RequestInv(s) && Enabled(s, e) && !Do(s, e).h.fault
    ensures RequestInv(Do(s, e))
  {
    FaultsStay(s, e);
    match e
    case Work(c) => RequestWork(s, c);
    case Update(i) => RequestUpdate(s, i);
    case _ => RequestCall(s, e);
  }

  lemma RequestCall(s: State, e: Event)
    requires RequestInv(s) && Enabled(s, e) && !e.Work? && !e.Update?
    ensures RequestInv(Do(s, e))
  {
    Untouched(s, Do(s, e));
  }

  lemma {:induction false} RequestRun(s: State, es: seq<Event>, t: State)
    requires Inv(s) && RequestInv(s) && Run(s, es, t) && !t.h.fault
    ensures RequestInv(t)
    decreases |es|
  {
    if es != [] {
      InvStep(s, es[0]);
      FaultsStayOverRun(Do(s, es[0]), es[1..], t);
      RequestStep(s, es[0]);
      RequestRun(Do(s, es[0]), es[1..], t);
    }
  }

  /** In every run, every request is pending, has run once, was overwritten by a later one
      while pending, or was discarded by a write of the whole word; callbacks run in order. */
  lemma EveryRequestAccounted(t: State)
    requires Reachable(t) && !t.h.fault
    ensures RequestInv(t)
  {
    var s, es :| Init(s) && Run(s, es, t);
    RequestRun(s, es, t);
  }

  /** Once nothing is pending, a request that was neither overwritten nor discarded has run,
      exactly once. */
  lemma RequestsRunOnce(t: State, x: nat)
    requires Reachable(t) && !t.h.fault && !HasCustom(t.word)
    requires x < t.h.nextTicket && x !in t.h.superseded && x !in t.h.dropped
    ensures multiset(t.h.ran)[x] == 1
  {
    EveryRequestAccounted(t);
    assert Accounted(t, x);
    IncreasingOnce(t.h.ran, x);
  }

  lemma {:induction false} IncreasingOnce(q: seq<nat>, x: nat)
    requires Increasing(q) && x in q
    ensures multiset(q)[x] == 1
  {
    var last := |q| - 1;
    assert q == q[..last] + [q[last]];
    if x == q[last] {
      assert x !in q[..last];
    } else {
      assert x in q[..last];
      IncreasingOnce(q[..last], x);
    }
  }

  // ------------------------------------------------------------------ boundaries

  /** From the choice of the kind of task to the end of a finite task, or from the start of one
      pulse of an infinite train to its end. */
  predicate Inside(pc: Worker)
  {
    || FiniteBody(pc) || pc.Finish? || pc.DecLock? || pc.Dec?
    || pc.LoopLo? || (pc.EndFn? && pc.loop) || (pc.EndFlag? && pc.loop)
  }

  /** A stretch of a run throughout which the worker stays inside one task or pulse. */
  ghost predicate StaysInside(s: State, es: seq<Event>, t: State)
    decreases |es|
  {
    && Inside(s.pc)
    && if es == [] then s == t
       else Enabled(s, es[0]) && StaysInside(Do(s, es[0]), es[1..], t)
  }

  lemma InsideStep(s: State, e: Event)
    requires Enabled(s, e) && Inside(s.pc)
    ensures Do(s, e).delayTimer == s.delayTimer && Do(s, e).durTimer == s.durTimer
    ensures Do(s, e).h.ran == s.h.ran
  {
    if !e.Work? { CallFrame(s, e); }
  }

  /** Whatever the controllers do meanwhile, the timers do not change and no requested callback
      runs inside a finite task or inside a pulse of an infinite train. */
  lemma {:induction false} BoundaryOnly(s: State, es: seq<Event>, t: State)
    requires StaysInside(s, es, t)
    ensures t.delayTimer == s.delayTimer && t.durTimer == s.durTimer && t.h.ran == s.h.ran
    decreases |es|
  {
    if es != [] {
      InsideStep(s, es[0]);
      BoundaryOnly(Do(s, es[0]), es[1..], t);
    }
  }
}
