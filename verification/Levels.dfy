/** What the logs mean for the wire: how long it is high and low, and in which order the
    callbacks come. */
module Levels {

  import opened Words
  import opened Logs

  /** The level after a log: that of its last edge, low at first. */
  predicate IsHigh(log: seq<Event>)
  {
    log != [] &&
    match log[|log| - 1]
    case Hi => true
    case Lo => false
    case _ => IsHigh(log[..|log| - 1])
  }

  /** The time waited at one level. */
  function TimeAt(log: seq<Event>, high: bool): nat
  {
    if log == [] then 0
    else
      var init, e := log[..|log| - 1], log[|log| - 1];
      TimeAt(init, high) + if e.Wait? && IsHigh(init) == high then e.micros else 0
  }

  lemma SnocLevel(log: seq<Event>, e: Event)
    ensures IsHigh(log + [e]) <==> e.Hi? || (!e.Lo? && IsHigh(log))
    ensures forall high :: TimeAt(log + [e], high) ==
                           TimeAt(log, high) + if e.Wait? && IsHigh(log) == high then e.micros else 0
  {
    assert (log + [e])[..|log|] == log;
  }

  /** Half a cycle: an edge and a wait. */
  lemma HalfLevel(log: seq<Event>, e: Event, m: nat)
    requires e.Hi? || e.Lo?
    ensures var more := log + [e, Wait(m)];
            && (IsHigh(more) <==> e.Hi?)
            && forall high :: TimeAt(more, high) == TimeAt(log, high) + if e.Hi? == high then m else 0
  {
    SnocLevel(log, e);
    SnocLevel(log + [e], Wait(m));
    assert log + [e, Wait(m)] == log + [e] + [Wait(m)];
  }

  lemma OptionalHalf(log: seq<Event>, e: Event, m: nat)
    requires e.Hi? || e.Lo?
    ensures var more := log + if m > 0 then [e, Wait(m)] else [];
            forall high :: TimeAt(more, high) == TimeAt(log, high) + if e.Hi? == high then m else 0
  {
    if m > 0 {
      HalfLevel(log, e, m);
    } else {
      assert log + [] == log;
    }
  }

  // ------------------------------------------------------------------ a single pulse

  /** A single pulse is low for the delay, then high for the duration, then low. */
  lemma PulseLevels(delay: nat, dur: nat)
    ensures var log := PulseLog(delay, dur);
            && TimeAt(log, true) == dur && TimeAt(log, false) == delay && !IsHigh(log)
            && Callbacks(log) == [Hi, Lo] && log[|log| - 1] == Lo
  {
    var before := if delay > 0 then [Wait(delay)] else [];
    SnocLevel([], Wait(delay));
    SnocParts([], Wait(delay));
    assert [] + [Wait(delay)] == [Wait(delay)];
    HalfLevel(before, Hi, dur);
    SnocParts(before, Hi);
    SnocParts(before + [Hi], Wait(dur));
    var high := before + [Hi, Wait(dur)];
    assert high == before + [Hi] + [Wait(dur)];
    SnocLevel(high, Lo);
    SnocParts(high, Lo);
    assert PulseLog(delay, dur) == high + [Lo];
  }

  // ------------------------------------------------------------------ trains

  /** A train of n pulses is high n times the duration and low n times the delay. */
  lemma {:induction false} TrainLevels(delay: nat, dur: nat, n: nat)
    ensures TimeAt(TrainLog(delay, dur, n), true) == n * dur
    ensures TimeAt(TrainLog(delay, dur, n), false) == n * delay
  {
    if n > 0 {
      TrainLevels(delay, dur, n - 1);
      CycleLevels(TrainLog(delay, dur, n - 1), delay, dur);
      Distribute(n - 1, dur);
      Distribute(n - 1, delay);
    }
  }

  lemma CycleLevels(log: seq<Event>, delay: nat, dur: nat)
    ensures TimeAt(log + CycleLog(delay, dur), true) == TimeAt(log, true) + dur
    ensures TimeAt(log + CycleLog(delay, dur), false) == TimeAt(log, false) + delay
  {
    var high := if dur > 0 then HighLog(dur) else [];
    OptionalHalf(log, Hi, dur);
    OptionalHalf(log + high, Lo, delay);
    Associate(log, high, LowLog(delay));
  }

  function HighTime(beats: seq<Beat>): nat
  {
    if beats == [] then 0 else HighTime(beats[..|beats| - 1]) + beats[|beats| - 1].dur
  }

  function LowTime(beats: seq<Beat>): nat
  {
    if beats == [] then 0 else LowTime(beats[..|beats| - 1]) + beats[|beats| - 1].delay
  }

  /** An infinite train is high for the durations of its beats and low for their delays. */
  lemma {:induction false} LoopLevels(beats: seq<Beat>, hasEnd: bool)
    ensures TimeAt(LoopLog(beats, hasEnd), true) == HighTime(beats)
    ensures TimeAt(LoopLog(beats, hasEnd), false) == LowTime(beats)
  {
    if beats != [] {
      var init, b := beats[..|beats| - 1], beats[|beats| - 1];
      LoopLevels(init, hasEnd);
      BeatLevels(LoopLog(init, hasEnd), b, hasEnd);
    }
  }

  lemma BeatLevels(log: seq<Event>, b: Beat, hasEnd: bool)
    ensures TimeAt(log + BeatLog(b, hasEnd), true) == TimeAt(log, true) + b.dur
    ensures TimeAt(log + BeatLog(b, hasEnd), false) == TimeAt(log, false) + b.delay
  {
    var custom, high, low, end := Ran(b.custom), HighLog(b.dur), LowLog(b.delay), EndLog(hasEnd);
    Silent(log, b.custom, Custom);
    HalfLevel(log + custom, Hi, b.dur);
    OptionalHalf(log + custom + high, Lo, b.delay);
    Silent(log + custom + high + low, hasEnd, End);
    Regroup(log, custom, high, low, end);
  }

  lemma Silent(log: seq<Event>, present: bool, e: Event)
    requires e.Custom? || e.End?
    ensures var more := log + if present then [e] else [];
            forall high :: TimeAt(more, high) == TimeAt(log, high)
  {
    if present {
      SnocLevel(log, e);
    } else {
      assert log + [] == log;
    }
  }

  // ------------------------------------------------------------------ order

  /** The callbacks of one pulse of an infinite train: the custom one first if it was asked for,
      then high, then low if there is a delay, and the end function last. */
  lemma BeatOrder(b: Beat, hasEnd: bool)
    ensures Callbacks(BeatLog(b, hasEnd)) ==
            (if b.custom then [Custom] else []) + [Hi] + (if b.delay > 0 then [Lo] else [])
            + if hasEnd then [End] else []
    ensures b.custom ==> BeatLog(b, hasEnd)[0] == Custom
    ensures hasEnd ==> BeatLog(b, hasEnd)[|BeatLog(b, hasEnd)| - 1] == End
  {
    var custom, high, low, end := Ran(b.custom), HighLog(b.dur), LowLog(b.delay), EndLog(hasEnd);
    CallbacksConcat(custom + high + low, end);
    CallbacksConcat(custom + high, low);
    CallbacksConcat(custom, high);
    One(Custom);
    One(End);
    Two(Hi, b.dur);
    Two(Lo, b.delay);
  }

  lemma One(e: Event)
    requires !e.Wait?
    ensures Callbacks([e]) == [e]
  {
    SnocParts([], e);
    assert [] + [e] == [e];
  }

  lemma Two(e: Event, m: nat)
    requires !e.Wait?
    ensures Callbacks([e, Wait(m)]) == [e]
  {
    One(e);
    SnocParts([e], Wait(m));
    assert [e] + [Wait(m)] == [e, Wait(m)];
  }

  /** A task calls its end function once, and last. */
  lemma TaskEndsOnce(delay: nat, dur: nat, n: nat)
    ensures var log := TaskLog(delay, dur, n, true);
            && log[|log| - 1] == End && Ends(log) == 1 && Ends(TaskLog(delay, dur, n, false)) == 0
  {
    var body := BodyLog(delay, dur, n);
    NoEnds(delay, dur, n);
    Single(End);
    EndsConcat(body, [End]);
    assert body + [] == body;
  }

  lemma {:induction false} NoEnds(delay: nat, dur: nat, n: nat)
    ensures Ends(TrainLog(delay, dur, n)) == 0 && Ends(PulseLog(delay, dur)) == 0
  {
    var before := if delay > 0 then [Wait(delay)] else [];
    EndsConcat(before, [Hi, Wait(dur), Lo]);
    Single(Wait(delay));
    assert [Hi, Wait(dur), Lo][1..] == [Wait(dur), Lo] && [Wait(dur), Lo][1..] == [Lo];
    Single(Lo);
    if n > 0 {
      NoEnds(delay, dur, n - 1);
      EndsConcat(TrainLog(delay, dur, n - 1), CycleLog(delay, dur));
      EndsConcat(if dur > 0 then HighLog(dur) else [], LowLog(delay));
      HalfEdges(Hi, dur);
      HalfEdges(Lo, delay);
    }
  }
}
