/** The shared word `doTask`: an unsigned 32-bit integer whose low 29 bits count tasks and
    whose top three bits signal that the delay, the duration or custom data changed.

    The operators below are the ones the program applies to the word, spelled with division and
    remainder by powers of two.  `Job` is the record the word stands for, and the lemmas say
    which operators are what the record needs, for every word. */
module Words {

  const KMODDELAY: int := 0x2000_0000
  const KMODDUR: int := 0x4000_0000
  const KMODCUSTOM: int := 0x8000_0000
  const WORD: int := 0x1_0000_0000

  type uint32 = x: int | 0 <= x < 0x1_0000_0000
  type int32 = x: int | -0x8000_0000 <= x < 0x8000_0000

  /** Unsigned arithmetic keeps the low 32 bits. */
  function Wrap(x: int): uint32 { x % 0x1_0000_0000 }

  /** The value of an unsigned word read as a signed integer of the same width. */
  function Signed(w: uint32): int32 { if w < 0x8000_0000 then w else w - 0x1_0000_0000 }

  /** doTask &~ kMODANY */
  function Count(w: uint32): nat { w % 0x2000_0000 }

  /** The three signal bits as a number below 8: 1 for the delay, 2 for the duration, 4 for
      custom data. */
  function Flags(w: uint32): nat { w / 0x2000_0000 }

  predicate HasDelay(w: uint32) { Flags(w) % 2 == 1 }
  predicate HasDur(w: uint32) { Flags(w) / 2 % 2 == 1 }
  predicate HasCustom(w: uint32) { Flags(w) / 4 % 2 == 1 }

  /** doTask & kMODANY */
  predicate HasAny(w: uint32) { HasDelay(w) || HasDur(w) || HasCustom(w) }

  /** doTask & 1 */
  predicate Odd(w: uint32) { w % 2 == 1 }

  /** What the word means: a task count and three signals. */
  datatype Job = Job(count: nat, delay: bool, dur: bool, custom: bool)

  function Abs(w: uint32): Job { Job(Count(w), HasDelay(w), HasDur(w), HasCustom(w)) }

  function Bit(b: bool, weight: nat): nat { if b then weight else 0 }

  function Pack(j: Job): uint32
    requires j.count < KMODDELAY
  {
    j.count + Bit(j.delay, KMODDELAY) + Bit(j.dur, KMODDUR) + Bit(j.custom, KMODCUSTOM)
  }

  /** A word is its count plus 2^29 times its signal bits. */
  lemma Split(w: uint32)
    ensures w == Count(w) + 0x2000_0000 * Flags(w) && Count(w) < KMODDELAY && Flags(w) < 8
  {
  }

  lemma Join(count: nat, top: nat)
    requires count < KMODDELAY && top < 8
    ensures count + 0x2000_0000 * top < WORD
    ensures Count(count + 0x2000_0000 * top) == count && Flags(count + 0x2000_0000 * top) == top
  {
  }

  lemma PackAbs(w: uint32)
    ensures Abs(w).count < KMODDELAY && Pack(Abs(w)) == w
  {
    Split(w);
  }

  lemma AbsPack(j: Job)
    requires j.count < KMODDELAY
    ensures Abs(Pack(j)) == j
  {
    Join(j.count, Bit(j.delay, 1) + Bit(j.dur, 2) + Bit(j.custom, 4));
  }

  /** Two words with the same record are the same word. */
  lemma AbsInjective(v: uint32, w: uint32)
    requires Abs(v) == Abs(w)
    ensures v == w
  {
    PackAbs(v);
    PackAbs(w);
  }

  // ------------------------------------------------------------------ operators on the word

  /** doTask |= kMODDELAY, and so on. */
  function RaiseDelay(w: uint32): uint32 { if HasDelay(w) then w else w + KMODDELAY }
  function RaiseDur(w: uint32): uint32 { if HasDur(w) then w else w + KMODDUR }
  function RaiseCustom(w: uint32): uint32 { if HasCustom(w) then w else w + KMODCUSTOM }
  function RaiseBoth(w: uint32): uint32 { RaiseDur(RaiseDelay(w)) }

  /** doTask |= 1 */
  function SetOdd(w: uint32): uint32 { if Odd(w) then w else w + 1 }

  /** doTask -= kMODDELAY, and so on: subtractions, not masks. */
  function ClearDelay(w: uint32): uint32 { Wrap(w - KMODDELAY) }
  function ClearDur(w: uint32): uint32 { Wrap(w - KMODDUR) }
  function ClearCustom(w: uint32): uint32 { Wrap(w - KMODCUSTOM) }

  /** doTask -= 1 */
  function Decrement(w: uint32): uint32 { Wrap(w - 1) }

  /** DoTask, finite task. */
  function AddTask(w: uint32): uint32
  {
    if Count(w) < KMODDELAY - 2 then Wrap(w + 1) else w
  }

  /** DoTasks, finite task: the bound is computed in unsigned arithmetic. */
  function AddTasks(w: uint32, n: uint32): uint32
  {
    if TasksFit(w, n) then Wrap(w + n) else w
  }

  predicate TasksFit(w: uint32, n: uint32)
  {
    Count(w) < Wrap(KMODDELAY - Wrap(n + 1))
  }

  /** DoOrUndoTasks: the three branches in the order the program tests them. */
  datatype Adjustment = Underflow | Saturate | Plain

  function Classify(w: uint32, n: int32): Adjustment
  {
    if Signed(Wrap(Count(w) + n)) < 0 then Underflow
    else if Wrap(Count(w) + n) >= KMODDELAY then Saturate
    else Plain
  }

  function AdjustTasks(w: uint32, n: int32): uint32
  {
    match Classify(w, n)
    case Underflow => w % 2
    case Saturate => KMODDELAY - 1
    case Plain => Wrap(w + n)
  }

  // ------------------------------------------------------------------ refinement lemmas

  lemma RaiseRefines(w: uint32)
    ensures Abs(RaiseDelay(w)) == Abs(w).(delay := true)
    ensures Abs(RaiseDur(w)) == Abs(w).(dur := true)
    ensures Abs(RaiseCustom(w)) == Abs(w).(custom := true)
  {
    SignalsOf(w);
    AddFlags(w, 1);
    AddFlags(w, 2);
    AddFlags(w, 4);
    SignalsOf(RaiseDelay(w));
    SignalsOf(RaiseDur(w));
    SignalsOf(RaiseCustom(w));
  }

  lemma AddFlags(w: uint32, bits: nat)
    requires bits <= 4
    ensures Flags(w) + bits < 8 ==>
              && w + 0x2000_0000 * bits < WORD
              && Count(w + 0x2000_0000 * bits) == Count(w)
              && Flags(w + 0x2000_0000 * bits) == Flags(w) + bits
  {
    Split(w);
    if Flags(w) + bits < 8 { Join(Count(w), Flags(w) + bits); }
  }

  /** A word that differs from w in one signal at most, and has that signal, is w with the
      signal raised. */
  lemma RaisedDelay(w: uint32, v: uint32)
    requires Count(v) == Count(w) && HasDelay(v) && HasDur(v) == HasDur(w) && HasCustom(v) == HasCustom(w)
    ensures v == RaiseDelay(w)
  {
    RaiseRefines(w);
    AbsInjective(v, RaiseDelay(w));
  }

  lemma RaisedDur(w: uint32, v: uint32)
    requires Count(v) == Count(w) && HasDur(v) && HasDelay(v) == HasDelay(w) && HasCustom(v) == HasCustom(w)
    ensures v == RaiseDur(w)
  {
    RaiseRefines(w);
    AbsInjective(v, RaiseDur(w));
  }

  lemma RaisedCustom(w: uint32, v: uint32)
    requires Count(v) == Count(w) && HasCustom(v) && HasDelay(v) == HasDelay(w) && HasDur(v) == HasDur(w)
    ensures v == RaiseCustom(w)
  {
    RaiseRefines(w);
    AbsInjective(v, RaiseCustom(w));
  }

  lemma RaiseBothRefines(w: uint32)
    ensures Abs(RaiseBoth(w)) == Abs(w).(delay := true, dur := true)
  {
    RaiseRefines(w);
    RaiseRefines(RaiseDelay(w));
  }

  /** The consuming subtractions clear exactly their own signal if and only if it is set;
      otherwise they borrow. */
  lemma ClearRefines(w: uint32)
    ensures HasDelay(w) <==> Abs(ClearDelay(w)) == Abs(w).(delay := false)
    ensures HasDur(w) <==> Abs(ClearDur(w)) == Abs(w).(dur := false)
    ensures HasCustom(w) <==> Abs(ClearCustom(w)) == Abs(w).(custom := false)
  {
    ClearDelayRefines(w);
    ClearDurRefines(w);
    ClearCustomRefines(w);
  }

  lemma ClearDelayRefines(w: uint32)
    ensures HasDelay(w) <==> Abs(ClearDelay(w)) == Abs(w).(delay := false)
  {
    SubtractFlags(w, 1);
    SignalsOf(w);
    SignalsOf(ClearDelay(w));
  }

  lemma ClearDurRefines(w: uint32)
    ensures HasDur(w) <==> Abs(ClearDur(w)) == Abs(w).(dur := false)
  {
    SubtractFlags(w, 2);
    SignalsOf(w);
    SignalsOf(ClearDur(w));
  }

  lemma ClearCustomRefines(w: uint32)
    ensures HasCustom(w) <==> Abs(ClearCustom(w)) == Abs(w).(custom := false)
  {
    SubtractFlags(w, 4);
    SignalsOf(w);
    SignalsOf(ClearCustom(w));
  }

  lemma SignalsOf(w: uint32)
    ensures Flags(w) == Bit(HasDelay(w), 1) + Bit(HasDur(w), 2) + Bit(HasCustom(w), 4)
  {
    Split(w);
  }

  lemma SubtractFlags(w: uint32, bits: nat)
    requires bits <= 4
    ensures Count(Wrap(w - 0x2000_0000 * bits)) == Count(w)
    ensures Flags(Wrap(w - 0x2000_0000 * bits)) ==
            if bits <= Flags(w) then Flags(w) - bits else Flags(w) + 8 - bits
  {
    Split(w);
    var top := if bits <= Flags(w) then Flags(w) - bits else Flags(w) + 8 - bits;
    Join(Count(w), top);
  }

  /** The decrement counts one task off and leaves the signals alone if and only if there is a
      task to count off; at count 0 it fills the counter and borrows from the signals. */
  lemma DecrementRefines(w: uint32)
    ensures Count(w) >= 1 <==> TakesOneOff(w, Decrement(w))
    ensures Count(w) == 0 ==> Count(Decrement(w)) == KMODDELAY - 1
  {
    Split(w);
    if Count(w) >= 1 {
      Join(Count(w) - 1, Flags(w));
    } else {
      Join(KMODDELAY - 1, if Flags(w) == 0 then 7 else Flags(w) - 1);
    }
  }

  predicate TakesOneOff(w: uint32, after: uint32)
  {
    Count(after) == Count(w) - 1 && Flags(after) == Flags(w)
  }

  lemma SetOddRefines(w: uint32)
    ensures Abs(SetOdd(w)) == Abs(w).(count := if Odd(w) then Count(w) else Count(w) + 1)
    ensures Odd(w) <==> Count(w) % 2 == 1
    ensures Odd(SetOdd(w))
  {
    Split(w);
    if !Odd(w) { Join(Count(w) + 1, Flags(w)); }
  }

  lemma AddTaskRefines(w: uint32)
    ensures Abs(AddTask(w)) ==
            Abs(w).(count := if Count(w) < KMODDELAY - 2 then Count(w) + 1 else Count(w))
  {
    Split(w);
    if Count(w) < KMODDELAY - 2 {
      Join(Count(w) + 1, Flags(w));
      assert AddTask(w) == (Count(w) + 1) + 0x2000_0000 * Flags(w);
    }
  }

  /** What DoTasks is meant to do: take all n tasks, or none when they do not fit. */
  predicate TakesAllOrNone(w: uint32, n: uint32, after: uint32)
  {
    || after == w
    || (Count(w) + n < KMODDELAY && Abs(after) == Abs(w).(count := Count(w) + n))
  }

  /** DoTasks takes all or none on every word exactly when n is below 2^29. */
  lemma AddTasksExact(n: uint32)
    ensures n < KMODDELAY <==> forall w: uint32 :: TakesAllOrNone(w, n, AddTasks(w, n))
  {
    if n < KMODDELAY {
      forall w: uint32
        ensures TakesAllOrNone(w, n, AddTasks(w, n))
      {
        AddTasksRefines(w, n);
      }
    } else {
      assert !TakesAllOrNone(1, n, AddTasks(1, n));
    }
  }

  lemma FitExact(w: uint32, n: uint32)
    requires n < KMODDELAY
    ensures TasksFit(w, n) <==> Count(w) + n < KMODDELAY - 1
  {
    assert Wrap(n + 1) == n + 1;
  }

  lemma AddTasksRefines(w: uint32, n: uint32)
    requires n < KMODDELAY
    ensures TasksFit(w, n) <==> Count(w) + n < KMODDELAY - 1
    ensures Abs(AddTasks(w, n)) ==
            Abs(w).(count := if TasksFit(w, n) then Count(w) + n else Count(w))
  {
    Split(w);
    FitExact(w, n);
    if Count(w) + n < KMODDELAY - 1 {
      Join(Count(w) + n, Flags(w));
      assert AddTasks(w, n) == (Count(w) + n) + 0x2000_0000 * Flags(w);
    }
  }

  /** DoOrUndoTasks on the record, for every word and every signed n: a sum of 2^31 or more is
      taken for a negative one, and the underflow branch leaves the parity of the old count. */
  lemma AdjustRefines(w: uint32, n: int32)
    ensures Abs(AdjustTasks(w, n)) ==
            var sum := Count(w) + n;
            if 0 <= sum < KMODDELAY then Abs(w).(count := sum)
            else if KMODDELAY <= sum < KMODCUSTOM then Job(KMODDELAY - 1, false, false, false)
            else Job(Count(w) % 2, false, false, false)
    ensures Classify(w, n).Plain? <==> 0 <= Count(w) + n < KMODDELAY
    ensures Classify(w, n).Saturate? <==> KMODDELAY <= Count(w) + n < KMODCUSTOM
  {
    ClassifyBySum(w, n);
    Split(w);
    var sum := Count(w) + n;
    if 0 <= sum < KMODDELAY {
      Join(sum, Flags(w));
      assert AdjustTasks(w, n) == sum + 0x2000_0000 * Flags(w);
    } else if KMODDELAY <= sum < KMODCUSTOM {
      Join(KMODDELAY - 1, 0);
    } else {
      Join(Count(w) % 2, 0);
      assert w % 2 == Count(w) % 2;
    }
  }

  lemma ClassifyBySum(w: uint32, n: int32)
    ensures Classify(w, n).Plain? <==> 0 <= Count(w) + n < KMODDELAY
    ensures Classify(w, n).Saturate? <==> KMODDELAY <= Count(w) + n < KMODCUSTOM
  {
    Split(w);
    var sum := Count(w) + n;
    if sum < 0 {
      assert Wrap(sum) == sum + WORD;
    } else {
      assert Wrap(sum) == sum;
    }
  }

  function Clamp(x: int): nat
  {
    if x < 0 then 0 else if x >= KMODDELAY then KMODDELAY - 1 else x
  }

  /** DoOrUndoTasks promises to keep the count between 0 and the first signal bit.  It clamps
      the sum and keeps the signals exactly when the sum is in range, or no signal is pending
      and the sum is either negative over an even count or between 2^29 and 2^31. */
  lemma AdjustClampsExactly(w: uint32, n: int32)
    ensures Abs(AdjustTasks(w, n)) == Abs(w).(count := Clamp(Count(w) + n))
       <==> (var sum := Count(w) + n;
             || 0 <= sum < KMODDELAY
             || (!HasAny(w) && KMODDELAY <= sum < KMODCUSTOM)
             || (!HasAny(w) && sum < 0 && Count(w) % 2 == 0))
  {
    AdjustRefines(w, n);
  }
}
