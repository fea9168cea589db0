/** What others do to an infinite train between two of its tests, and what becomes of it. */
module Scripts {

  import opened Words
  import opened Logs

  datatype Change = Same | To(us: uint32)

  /** A controller stops the train, or retimes it and raises the signals, and asks for a custom
      callback. */
  datatype Move = Move(stop: bool, delay: Change, dur: Change, custom: bool)

  /** The word and the timing fields. */
  datatype Shared = Shared(word: uint32, delay: uint32, dur: uint32)

  function Retimed(s: Shared, m: Move): Shared
  {
    var a := if m.delay.To? then s.(delay := m.delay.us, word := RaiseDelay(s.word)) else s;
    if m.dur.To? then a.(dur := m.dur.us, word := RaiseDur(a.word)) else a
  }

  function Moved(s: Shared, m: Move): Shared
  {
    if m.stop then s.(word := 0)
    else
      var r := Retimed(s, m);
      if m.custom then r.(word := RaiseCustom(r.word)) else r
  }

  /** One pulse consumes the signals; its end function may raise new ones. */
  function Pulsed(s: Shared, raises: bool): Shared
  {
    s.(word := if raises then RaiseBoth(Count(s.word)) else Count(s.word))
  }

  /** Before the i-th test of the loop, when the train passed all those before; the i-th move of
      the script comes after the i-th pulse. */
  function Before(s: Shared, raises: bool, script: seq<Move>, i: nat): Shared
    requires i <= |script|
  {
    if i == 0 then s else Moved(Pulsed(Before(s, raises, script, i - 1), raises), script[i - 1])
  }

  function BeatOf(s: Shared): Beat { Beat(HasCustom(s.word), s.delay, s.dur) }

  /** The train passed its first n tests, and made these beats. */
  ghost predicate Playing(s: Shared, raises: bool, script: seq<Move>, n: nat, beats: seq<Beat>)
  {
    && n == |beats| <= |script|
    && (forall j: nat :: j < n ==>
          Odd(Before(s, raises, script, j).word) && beats[j] == BeatOf(Before(s, raises, script, j)))
  }

  /** And no other of the tests that the script covers. */
  ghost predicate Played(s: Shared, raises: bool, script: seq<Move>, n: nat, beats: seq<Beat>)
  {
    Playing(s, raises, script, n, beats) && (n < |script| ==> !Odd(Before(s, raises, script, n).word))
  }

  lemma PlayedMore(s: Shared, raises: bool, script: seq<Move>, n: nat, beats: seq<Beat>)
    requires Playing(s, raises, script, n, beats) && n < |script| && Odd(Before(s, raises, script, n).word)
    ensures Playing(s, raises, script, n + 1, beats + [BeatOf(Before(s, raises, script, n))])
  {
  }

  // ------------------------------------------------------------------ the word

  lemma PulsedKeeps(s: Shared, raises: bool)
    ensures var t := Pulsed(s, raises); Odd(t.word) == Odd(s.word) && !HasCustom(t.word)
  {
    Split(s.word);
    SetOddRefines(s.word);
    var w := Count(s.word);
    SetOddRefines(w);
    SignalsOf(w);
    RaiseBothRefines(w);
    SetOddRefines(RaiseBoth(w));
  }

  lemma MovedKeeps(s: Shared, m: Move)
    ensures var t := Moved(s, m);
            && (Odd(t.word) <==> Odd(s.word) && !m.stop)
            && (HasCustom(t.word) <==> !m.stop && (HasCustom(s.word) || m.custom))
  {
    if !m.stop {
      RaiseRefines(s.word);
      SetOddRefines(s.word);
      var a := if m.delay.To? then RaiseDelay(s.word) else s.word;
      RaiseRefines(a);
      SetOddRefines(a);
      var b := Retimed(s, m).word;
      RaiseRefines(b);
      SetOddRefines(b);
      SetOddRefines(Moved(s, m).word);
    }
  }

  /** The train is started before the i-th test exactly when it was at first and nobody has
      stopped it since: it does not stop by itself. */
  lemma {:induction false} StartedExactly(s: Shared, raises: bool, script: seq<Move>, i: nat)
    requires i <= |script|
    ensures Odd(Before(s, raises, script, i).word) <==>
            Odd(s.word) && forall j: nat :: j < i ==> !script[j].stop
  {
    if i > 0 {
      StartedExactly(s, raises, script, i - 1);
      PulsedKeeps(Before(s, raises, script, i - 1), raises);
      MovedKeeps(Pulsed(Before(s, raises, script, i - 1), raises), script[i - 1]);
    }
  }

  /** The i-th pulse, after the first, is preceded by the custom callback exactly when it was
      asked for since the test before; and it has the last timing that was stored. */
  lemma NextBeat(s: Shared, raises: bool, script: seq<Move>, i: nat)
    requires 0 < i <= |script| && Odd(Before(s, raises, script, i).word)
    ensures var beat, last := BeatOf(Before(s, raises, script, i)), BeatOf(Before(s, raises, script, i - 1));
            var m := script[i - 1];
            && (beat.custom <==> m.custom)
            && beat.delay == (if m.delay.To? then m.delay.us else last.delay)
            && beat.dur == (if m.dur.To? then m.dur.us else last.dur)
  {
    PulsedKeeps(Before(s, raises, script, i - 1), raises);
    MovedKeeps(Pulsed(Before(s, raises, script, i - 1), raises), script[i - 1]);
  }

  // ------------------------------------------------------------------ the train

  /** How many of the pulses that the script covers are made: all, as long as nobody stops the train; otherwise
      the last one is that after which it was stopped. */
  lemma PlayedLength(s: Shared, raises: bool, script: seq<Move>, n: nat, beats: seq<Beat>)
    requires Played(s, raises, script, n, beats) && Odd(s.word) && script != []
    ensures n > 0
    ensures n == |script| <==> forall j: nat :: j < |script| - 1 ==> !script[j].stop
    ensures n < |script| ==> script[n - 1].stop && forall j: nat :: j < n - 1 ==> !script[j].stop
  {
    StartedExactly(s, raises, script, n);
    StartedExactly(s, raises, script, 0);
    if n > 0 {
      StartedExactly(s, raises, script, n - 1);
      assert Odd(Before(s, raises, script, n - 1).word);
    }
  }

  /** The pulses made, one after the other. */
  lemma PlayedBeats(s: Shared, raises: bool, script: seq<Move>, n: nat, beats: seq<Beat>, j: nat)
    requires Played(s, raises, script, n, beats) && j < n
    ensures j == 0 ==> beats[j] == BeatOf(s)
    ensures j > 0 ==>
              && (beats[j].custom <==> script[j - 1].custom)
              && beats[j].delay == (if script[j - 1].delay.To? then script[j - 1].delay.us else beats[j - 1].delay)
              && beats[j].dur == (if script[j - 1].dur.To? then script[j - 1].dur.us else beats[j - 1].dur)
  {
    assert beats[j] == BeatOf(Before(s, raises, script, j));
    if j > 0 {
      assert beats[j - 1] == BeatOf(Before(s, raises, script, j - 1));
      NextBeat(s, raises, script, j);
    }
  }

  /** Left in peace, a started train makes every pulse, all alike and without a custom callback. */
  lemma {:induction false} LeftInPeace(s: Shared, raises: bool, script: seq<Move>,
                                       n: nat, beats: seq<Beat>, j: nat)
    requires Played(s, raises, script, n, beats) && Odd(s.word) && !HasCustom(s.word) && j < |script|
    requires forall i :: 0 <= i < |script| ==> script[i] == Move(false, Same, Same, false)
    ensures n == |script| && beats[j] == Beat(false, s.delay, s.dur)
  {
    PlayedLength(s, raises, script, n, beats);
    PlayedBeats(s, raises, script, n, beats, j);
    if j > 0 {
      LeftInPeace(s, raises, script, n, beats, j - 1);
    }
  }
}
