/** The walk of the array end functions through a section of an array of floats. */
module ArrayWalk {

  import opened Words

  /** pulsedThreadArrayStruct, without the data. */
  datatype Section = Section(startPos: uint32, endPos: uint32, arrayPos: uint32)

  /** Inside the section. */
  predicate Inside(s: Section) { s.startPos <= s.arrayPos < s.endPos }

  /** What one end function does to the position: an unsigned increment, and back to the start
      when the result equals the end. */
  function Step(s: Section): Section
  {
    var next := Wrap(s.arrayPos + 1);
    s.(arrayPos := if next == s.endPos then s.startPos else next)
  }

  function Steps(s: Section, k: nat): Section
  {
    if k == 0 then s else Step(Steps(s, k - 1))
  }

  /** pulsedThreadSetArrayLimitsCallback: bit 1 sets the start, bit 2 the end, bit 4 the
      position; a position before the start or after the end goes to the start. */
  function Limit(s: Section, modBits: nat, startPos: uint32, endPos: uint32, arrayPos: uint32): Section
  {
    var t := Section(
      if modBits % 2 == 1 then startPos else s.startPos,
      if modBits / 2 % 2 == 1 then endPos else s.endPos,
      if modBits / 4 % 2 == 1 then arrayPos else s.arrayPos);
    if t.arrayPos < t.startPos || t.arrayPos > t.endPos then t.(arrayPos := t.startPos) else t
  }

  /** After k end functions the position is k further on, modulo the length of the section; so
      every value read comes from inside the section. */
  lemma {:induction false} WalkIsModular(s: Section, k: nat)
    requires Inside(s)
    ensures var t := Steps(s, k);
            && t == s.(arrayPos := t.arrayPos) && Inside(t)
            && t.arrayPos == s.startPos + (s.arrayPos - s.startPos + k) % (s.endPos - s.startPos)
  {
    var length := s.endPos - s.startPos;
    if k == 0 {
      SmallMod(s.arrayPos - s.startPos, length);
    } else {
      WalkIsModular(s, k - 1);
      var before := s.arrayPos - s.startPos + (k - 1);
      ModSucc(before, length);
      StepOn(Steps(s, k - 1), length, before % length);
    }
  }

  /** One step from the position r of a section. */
  lemma StepOn(t: Section, length: nat, r: nat)
    requires r < length && t.endPos == t.startPos + length && t.arrayPos == t.startPos + r
    ensures Step(t) == t.(arrayPos := t.startPos + if r + 1 == length then 0 else r + 1)
  {
  }

  lemma SmallMod(a: nat, m: nat)
    requires a < m
    ensures a % m == a
  {
  }

  lemma ModSucc(a: nat, m: nat)
    requires m > 0
    ensures (a + 1) % m == if a % m + 1 == m then 0 else a % m + 1
  {
    var q, r := a / m, a % m;
    assert a == q * m + r;
    if r + 1 == m {
      assert a + 1 == (q + 1) * m;
      ModUnique(a + 1, m, q + 1, 0);
    } else {
      ModUnique(a + 1, m, q, r + 1);
    }
  }

  lemma ModUnique(a: nat, m: nat, q: nat, r: nat)
    requires m > 0 && a == q * m + r && r < m
    ensures a % m == r
  {
    var q', r' := a / m, a % m;
    assert a == q' * m + r';
    if q' < q {
      MulLe(q' + 1, q, m);
    } else if q < q' {
      MulLe(q + 1, q', m);
    }
  }

  lemma MulLe(a: nat, b: nat, m: nat)
    requires a <= b
    ensures a * m <= b * m
  {
  }

  /** Every position of the section is visited within one round. */
  lemma WalkVisitsAll(s: Section, p: uint32) returns (k: nat)
    requires Inside(s) && s.startPos <= p < s.endPos
    ensures k < s.endPos - s.startPos && Steps(s, k).arrayPos == p
  {
    var length := s.endPos - s.startPos;
    k := if p >= s.arrayPos then p - s.arrayPos else p + length - s.arrayPos;
    WalkIsModular(s, k);
    if p >= s.arrayPos {
      SmallMod(p - s.startPos, length);
    } else {
      ModUnique(p - s.startPos + length, length, 1, p - s.startPos);
    }
  }

  /** From now on every value read comes from inside the section. */
  ghost predicate StaysInside(s: Section)
  {
    forall k: nat :: k >= 1 ==> Inside(Steps(s, k))
  }

  /** Every position of the unsigned range but the last: the one section whose walk comes back
      by itself when it is left on its end. */
  predicate Whole(startPos: uint32, endPos: uint32) { startPos == 0 && endPos == WORD - 1 }

  lemma StaysInsideFromFirst(s: Section)
    ensures StaysInside(s) <==> Inside(Step(s))
  {
    assert Steps(s, 1) == Step(Steps(s, 0));
    if Inside(Step(s)) {
      forall k: nat | k >= 1 ensures Inside(Steps(s, k)) {
        StepsAgain(s, k);
        WalkIsModular(Step(s), k - 1);
      }
    }
  }

  lemma {:induction false} StepsAgain(s: Section, k: nat)
    requires k >= 1
    ensures Steps(s, k) == Steps(Step(s), k - 1)
  {
    assert Steps(s, 0) == s;
    if k > 1 { StepsAgain(s, k - 1); }
  }

  /** setEndFuncArrayPos: the walk stays in the section from then on exactly when the section is
      not empty and the new position is not its end.  A position outside is put at the start. */
  lemma SetPosStaysInsideExactly(s: Section, startPos: uint32, endPos: uint32, p: uint32)
    ensures StaysInside(Limit(s, 4, startPos, endPos, p)) <==>
            s.startPos < s.endPos && (p != s.endPos || Whole(s.startPos, s.endPos))
  {
    StaysInsideFromFirst(Limit(s, 4, startPos, endPos, p));
  }

  /** setEndFuncArrayLimits: the walk stays in the new section from then on exactly when that is
      not empty and the position, which is not asked for, is not its end. */
  lemma SetLimitsStaysInsideExactly(s: Section, startPos: uint32, endPos: uint32, p: uint32)
    ensures StaysInside(Limit(s, 3, startPos, endPos, p)) <==>
            startPos < endPos && (s.arrayPos != endPos || Whole(startPos, endPos))
  {
    StaysInsideFromFirst(Limit(s, 3, startPos, endPos, p));
  }

  /** Where the k-th end function after setEndFuncArrayPos reads: k further on from the position
      asked for, or from the start when that was outside. */
  lemma SetPosReads(s: Section, startPos: uint32, endPos: uint32, p: uint32, k: nat)
    requires s.startPos < s.endPos && p != s.endPos
    ensures var from := if s.startPos <= p < s.endPos then p else s.startPos;
            Steps(Limit(s, 4, startPos, endPos, p), k).arrayPos
            == s.startPos + (from - s.startPos + k) % (s.endPos - s.startPos)
  {
    WalkIsModular(Limit(s, 4, startPos, endPos, p), k);
  }

  /** And after setEndFuncArrayLimits: from the present position if it is in the new section. */
  lemma SetLimitsReads(s: Section, startPos: uint32, endPos: uint32, p: uint32, k: nat)
    requires startPos < endPos && s.arrayPos != endPos
    ensures var from := if startPos <= s.arrayPos < endPos then s.arrayPos else startPos;
            Steps(Limit(s, 3, startPos, endPos, p), k).arrayPos
            == startPos + (from - startPos + k) % (endPos - startPos)
  {
    WalkIsModular(Limit(s, 3, startPos, endPos, p), k);
  }

  /** Left on the end, the position runs away from the section. */
  lemma {:induction false} RunsAway(s: Section, k: nat)
    requires s.startPos < s.endPos == s.arrayPos && s.endPos + k < WORD
    ensures Steps(s, k).arrayPos == s.endPos + k && Steps(s, k) == s.(arrayPos := Steps(s, k).arrayPos)
  {
    if k > 0 { RunsAway(s, k - 1); }
  }

  /** The position callback accepts the end position, and the walk then leaves the section. */
  lemma PositionOnEndAccepted()
    ensures var t := Limit(Section(0, 10, 3), 4, 0, 0, 10);
            t.arrayPos == 10 && Step(t).arrayPos == 11
  {
  }

  /** The end functions' data: a section of the caller's array. */
  class ArrayCursor {
    var arrayData: array<real>
    var startPos: uint32
    var endPos: uint32
    var arrayPos: uint32

    /** setUpEndFuncArray with the setup callback. */
    constructor (arrayData: array<real>, nData: uint32)
      ensures this.arrayData == arrayData && Now() == Section(0, nData, 0)
      ensures Inside(Now()) <==> nData > 0
    {
      this.arrayData, startPos, endPos, arrayPos := arrayData, 0, nData, 0;
    }

    ghost function Now(): Section
      reads this
    {
      Section(startPos, endPos, arrayPos)
    }

    /** Move on and read.  The caller owes the memory that is read, no more. */
    method Next() returns (value: real)
      requires Step(Now()).arrayPos < arrayData.Length
      modifies this`arrayPos
      ensures Now() == Step(old(Now()))
      ensures old(Inside(Now())) ==> Inside(Now())
      ensures value == arrayData[arrayPos]
    {
      arrayPos := Wrap(arrayPos + 1);
      if arrayPos == endPos {
        arrayPos := startPos;
      }
      value := arrayData[arrayPos];
    }

    method SetLimits(modBits: nat, newStart: uint32, newEnd: uint32, newPos: uint32)
      modifies this`startPos, this`endPos, this`arrayPos
      ensures Now() == Limit(old(Now()), modBits, newStart, newEnd, newPos)
      // setEndFuncArrayPos: the position asked for, or the start when that is outside
      ensures modBits == 4 ==>
                && startPos == old(startPos) && endPos == old(endPos)
                && arrayPos == if startPos <= newPos <= endPos then newPos else startPos
      // setEndFuncArrayLimits: the limits asked for, and the old position if it is inside
      ensures modBits == 3 ==>
                && startPos == newStart && endPos == newEnd
                && arrayPos == if newStart <= old(arrayPos) <= newEnd then old(arrayPos) else newStart
    {
      if modBits % 2 == 1 {
        startPos := newStart;
      }
      if modBits / 2 % 2 == 1 {
        endPos := newEnd;
      }
      if modBits / 4 % 2 == 1 {
        arrayPos := newPos;
      }
      if arrayPos < startPos || arrayPos > endPos {
        arrayPos := startPos;
      }
    }
  }
}
