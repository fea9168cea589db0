/** The controller object, one call at a time: its fields, its task methods and its timing
    methods.  What a call does to the word is the write of the step system; what it does to the
    timing is the change of the two descriptions. */
module Controller {

  import opened Words
  import opened Timing
  import opened Clocks
  import opened ArrayWalk
  import M = Machine

  /** From w, a call writes `after`: what the step system writes, for any state that holds w. */
  ghost predicate WritesAs(w: uint32, n: uint32, op: M.Op, after: uint32)
  {
    forall s: M.State :: s.word == w && s.nPulses == n ==> after == M.Apply(s, op).word
  }

  /** The same for a method with an unlocked test before the write. */
  ghost predicate CallsAs(w: uint32, n: uint32, op: M.Op, after: uint32)
  {
    forall s: M.State :: s.word == w && s.nPulses == n ==>
      after == if M.Guard(s, op) then M.Apply(s, op).word else w
  }

  /** A state of the step system with the fields of a task. */
  predicate Holds(s: M.State, t: Task)
  {
    s.word == t.word && s.delay == t.delay && s.dur == t.dur && s.nPulses == t.n
  }

  /** Whether the step system lets a call store, for any idle controller. */
  ghost predicate DelayAccepted(t: Task, us: uint32, ok: bool)
  {
    forall s: M.State, i: nat :: Holds(s, t) && M.At(s, i, M.Idle) ==> (M.Enabled(s, M.StoreDelay(i, us)) <==> ok)
  }

  ghost predicate DurAccepted(t: Task, us: uint32, ok: bool)
  {
    forall s: M.State, i: nat :: Holds(s, t) && M.At(s, i, M.Idle) ==> (M.Enabled(s, M.StoreDur(i, us)) <==> ok)
  }

  ghost predicate LengthAccepted(t: Task, n: uint32, ok: bool)
  {
    forall s: M.State, i: nat :: Holds(s, t) && M.At(s, i, M.Idle) ==> (M.Enabled(s, M.TestLength(i, n)) <==> ok)
  }

  /** The three float fields describe pulses of that period, of that share high, n of them. */
  ghost predicate Describes(freq: real, duty: real, trainDur: real, delay: uint32, dur: uint32, n: uint32)
  {
    var sum := Wrap(delay + dur) as real;
    freq * sum == MICRO && duty * sum == dur as real && trainDur * MICRO == n as real * sum
  }

  /** What setting bit 0 does. */
  lemma Started(w: uint32)
    ensures Odd(SetOdd(w)) && Flags(SetOdd(w)) == Flags(w)
    ensures Count(SetOdd(w)) == Count(w) + if Odd(w) then 0 else 1
  {
    SetOddRefines(w);
    SignalsOf(w);
    SignalsOf(SetOdd(w));
  }

  /** Since `before` there were n naps of 200 microseconds and no other. */
  ghost predicate Paused(before: seq<Nap>, naps: seq<Nap>, n: int)
  {
    && |naps| == |before| + n && before <= naps
    && forall j :: |before| <= j < |naps| ==> naps[j].micros == SLEEPTURNAROUND
  }

  lemma PausedMore(before: seq<Nap>, naps: seq<Nap>, n: int, from: nat)
    requires Paused(before, naps, n)
    ensures Paused(before, naps + [Nap(from, SLEEPTURNAROUND)], n + 1)
  {
  }

  class PulsedThread {
    var doTask: uint32
    var pulseDelayUsecs: uint32
    var pulseDurUsecs: uint32
    var nPulses: uint32
    var trainDuration: real
    var trainFrequency: real
    var trainDutyCycle: real
    var errCode: int          // what the constructor reports

    ghost function Now(): Task
      reads this
    {
      Task(doTask, pulseDelayUsecs, pulseDurUsecs, nPulses, trainDuration, trainFrequency, trainDutyCycle)
    }

    /** From ticks.  The conversion looks at nPulses and doTask before they are set; what they
        happen to hold is passed in, and can make it refuse a finite task. */
    constructor FromTicks(delay: uint32, dur: uint32, n: uint32, junkPulses: uint32, junkWord: uint32)
      requires dur == 0 || TicksDefined(delay, dur)
      ensures errCode != 0 <==> dur == 0 || (junkPulses == 0 && n != 0 && Odd(junkWord))
      ensures errCode == 0 ==> pulseDelayUsecs == delay && pulseDurUsecs == dur && nPulses == n && doTask == 0
      ensures errCode == 0 ==> Describes(trainFrequency, trainDutyCycle, trainDuration, delay, dur, n)
      ensures errCode == 0 && delay + dur < WORD ==> Agree(Now())
    {
      errCode := 0;
      nPulses, doTask := junkPulses, junkWord;
      pulseDelayUsecs, pulseDurUsecs := 0, 0;
      trainDuration, trainFrequency, trainDutyCycle := 0.0, 0.0, 0.0;
      new;
      ghost var junk := Now();
      errCode := Ticks2Times(delay, dur, n);
      if errCode == 0 {
        nPulses, pulseDelayUsecs, pulseDurUsecs := n, delay, dur;
        doTask := 0;
        if delay + dur < WORD { TickConstructorAgrees(junk, delay, dur, n); }
        assert Now() == WithTimes(junk, delay, dur, n).(delay := delay, dur := dur, n := n, word := 0);
      }
    }

    /** From times. */
    constructor FromTimes(freq: real, duty: real, trainDur: real)
      requires TimesRefused(freq, duty, trainDur) || TimesDefined(freq, duty, trainDur)
      ensures errCode != 0 <==> TimesRefused(freq, duty, trainDur)
      ensures errCode == 0 ==> Agree(Now()) && doTask == 0
      ensures errCode == 0 ==> trainFrequency == freq && trainDutyCycle == duty && trainDuration == trainDur
    {
      errCode := 0;
      nPulses, doTask, pulseDelayUsecs, pulseDurUsecs := 0, 0, 0, 0;
      trainDuration, trainFrequency, trainDutyCycle := 0.0, 0.0, 0.0;
      new;
      errCode := Times2Ticks(freq, duty, trainDur);
      if errCode == 0 {
        trainFrequency, trainDuration, trainDutyCycle := freq, trainDur, duty;
        doTask := 0;
      }
    }

    // ---------------------------------------------------------------- the two conversions

    method Ticks2Times(delay: uint32, dur: uint32, n: uint32) returns (err: int)
      requires TicksRefused(Now(), dur, n) || TicksDefined(delay, dur)
      modifies this`trainFrequency, this`trainDuration, this`trainDutyCycle
      ensures err == if TicksRefused(old(Now()), dur, n) then 1 else 0
      ensures Now() == if TicksRefused(old(Now()), dur, n) then old(Now()) else WithTimes(old(Now()), delay, dur, n)
      ensures err != 0 <==> dur == 0 || (nPulses == 0 && n != 0 && Odd(doTask))
      ensures err == 0 ==> Describes(trainFrequency, trainDutyCycle, trainDuration, delay, dur, n)
    {
      if TicksDefined(delay, dur) { TimesMean(Now(), delay, dur, n); }
      if dur == 0 {
        return 1;
      }
      if nPulses == 0 && n != 0 && Odd(doTask) {
        return 1;
      }
      var pulseTime := Wrap(delay + dur) as real / MICRO;
      trainFrequency := 1.0 / pulseTime;
      trainDuration := pulseTime * n as real;
      trainDutyCycle := dur as real / Wrap(delay + dur) as real;
      return 0;
    }

    method Times2Ticks(freq: real, duty: real, trainDur: real) returns (err: int)
      requires TimesRefused(freq, duty, trainDur) || TimesDefined(freq, duty, trainDur)
      modifies this`pulseDelayUsecs, this`pulseDurUsecs, this`nPulses
      ensures err == if TimesRefused(freq, duty, trainDur) then 1 else 0
      ensures Now() == if TimesRefused(freq, duty, trainDur) then old(Now())
                       else WithTicks(old(Now()), freq, duty, trainDur)
      ensures err != 0 <==> trainDur < 0.0 || duty <= 0.0 || duty > 1.0 || freq < 0.0
      ensures err == 0 ==> TicksOfTimes(freq, duty, trainDur)
    {
      if trainDur < 0.0 || duty <= 0.0 || duty > 1.0 || freq < 0.0 {
        return 1;
      }
      var newDelay, newDur, newPulses := RoundedTicks(freq, duty, trainDur);
      pulseDelayUsecs := newDelay;
      pulseDurUsecs := newDur;
      nPulses := newPulses;
      TicksAreRounded(freq, duty, trainDur);
      return 0;
    }

    static method RoundedTicks(freq: real, duty: real, trainDur: real)
      returns (newDelay: uint32, newDur: uint32, newPulses: uint32)
      requires TimesDefined(freq, duty, trainDur)
      ensures newDelay == DelayOf(freq, duty) && newDur == DurOf(freq, duty) && newPulses == PulsesOf(freq, trainDur)
    {
      var pulseMicrosecs := MICRO / freq;
      newDelay := Round(pulseMicrosecs * (1.0 - duty));
      newDur := Round(pulseMicrosecs * duty);
      newPulses := Round((trainDur * MICRO) / pulseMicrosecs);
    }

    /** The ticks are those of the given times: delay, duration and number of pulses rounded to
        the nearest. */
    ghost predicate TicksOfTimes(freq: real, duty: real, trainDur: real)
      reads this`pulseDelayUsecs, this`pulseDurUsecs, this`nPulses
    {
      && freq > 0.0
      && -0.5 <= pulseDelayUsecs as real - MICRO / freq * (1.0 - duty) <= 0.5
      && -0.5 <= pulseDurUsecs as real - MICRO / freq * duty <= 0.5
      && -0.5 <= nPulses as real - trainDur * MICRO / (MICRO / freq) <= 0.5
    }

    // ---------------------------------------------------------------- timing methods

    method ModDelay(us: uint32) returns (err: int)
      requires Defined(Now(), Delay(us))
      modifies this
      ensures Now() == After(old(Now()), Delay(us))
      ensures old(Agree(Now())) && old(KeepsAgreement(Now(), Delay(us))) ==> Agree(Now())
      ensures err == 0 ==> pulseDelayUsecs == us && HasDelay(doTask) && Count(doTask) == Count(old(doTask))
      ensures err == (if old(pulseDurUsecs) == 0 then 1 else 0) && (err != 0 ==> Now() == old(Now()))
      ensures DelayAccepted(old(Now()), us, err == 0)
      ensures pulseDurUsecs == old(pulseDurUsecs) && nPulses == old(nPulses)
      ensures err == 0 ==>
                Describes(trainFrequency, trainDutyCycle, trainDuration, us, pulseDurUsecs, nPulses)
      ensures err == 0 ==> WritesAs(old(doTask), nPulses, M.SignalDelay, doTask)
    {
      ghost var was := Now();
      if Agree(was) { ChangeAgreesExactly(was, Delay(us)); }
      RaiseRefines(doTask);
      err := Ticks2Times(us, pulseDurUsecs, nPulses);
      if err != 0 {
        return;
      }
      pulseDelayUsecs := us;
      doTask := RaiseDelay(doTask);
    }

    method ModDur(us: uint32) returns (err: int)
      requires Defined(Now(), Dur(us))
      modifies this
      ensures Now() == After(old(Now()), Dur(us))
      ensures old(Agree(Now())) && old(KeepsAgreement(Now(), Dur(us))) ==> Agree(Now())
      ensures err == 0 ==> pulseDurUsecs == us && HasDur(doTask) && Count(doTask) == Count(old(doTask))
      ensures err == (if us == 0 then 1 else 0) && (err != 0 ==> Now() == old(Now()))
      ensures DurAccepted(old(Now()), us, err == 0)
      ensures pulseDelayUsecs == old(pulseDelayUsecs) && nPulses == old(nPulses)
      ensures err == 0 ==>
                Describes(trainFrequency, trainDutyCycle, trainDuration, pulseDelayUsecs, us, nPulses)
      ensures err == 0 ==> WritesAs(old(doTask), nPulses, M.SignalDur, doTask)
    {
      ghost var was := Now();
      if Agree(was) { ChangeAgreesExactly(was, Dur(us)); }
      RaiseRefines(doTask);
      err := Ticks2Times(pulseDelayUsecs, us, nPulses);
      if err != 0 {
        return;
      }
      pulseDurUsecs := us;
      doTask := RaiseDur(doTask);
    }

    method ModTrainLength(pulses: uint32) returns (err: int)
      requires Defined(Now(), Length(pulses))
      modifies this
      ensures Now() == After(old(Now()), Length(pulses)) && doTask == old(doTask)
      ensures old(Agree(Now())) && old(KeepsAgreement(Now(), Length(pulses))) ==> Agree(Now())
      ensures err == 0 ==> nPulses == pulses
      ensures err == if old(pulseDurUsecs) == 0 || (old(nPulses) == 0 && pulses != 0 && Odd(doTask)) then 1 else 0
      ensures LengthAccepted(old(Now()), pulses, err == 0) && (err != 0 ==> Now() == old(Now()))
      ensures pulseDelayUsecs == old(pulseDelayUsecs) && pulseDurUsecs == old(pulseDurUsecs)
      ensures err == 0 ==>
                Describes(trainFrequency, trainDutyCycle, trainDuration, pulseDelayUsecs, pulseDurUsecs, pulses)
    {
      ghost var was := Now();
      if Agree(was) { ChangeAgreesExactly(was, Length(pulses)); }
      err := Ticks2Times(pulseDelayUsecs, pulseDurUsecs, pulses);
      if err != 0 {
        return;
      }
      nPulses := pulses;
    }

    method ModFreq(hz: real) returns (err: int)
      requires Defined(Now(), Freq(hz))
      modifies this
      ensures Now() == After(old(Now()), Freq(hz))
      ensures old(Agree(Now())) ==> Agree(Now())
      ensures err == 0 ==> HasDelay(doTask) && HasDur(doTask) && Count(doTask) == Count(old(doTask))
      ensures err == (if TimesRefused(hz, old(trainDutyCycle), old(trainDuration)) then 1 else 0)
      ensures err != 0 ==> Now() == old(Now())
      ensures err == 0 ==> trainFrequency == hz
      ensures trainDutyCycle == old(trainDutyCycle) && trainDuration == old(trainDuration)
      ensures err == 0 ==> TicksOfTimes(hz, trainDutyCycle, trainDuration)
      ensures err == 0 ==> WritesAs(old(doTask), nPulses, M.SignalBoth, doTask)
    {
      ghost var was := Now();
      if Agree(was) { ChangeAgreesExactly(was, Freq(hz)); }
      RaiseBothRefines(doTask);
      err := Times2Ticks(hz, trainDutyCycle, trainDuration);
      if err != 0 {
        return;
      }
      trainFrequency := hz;
      doTask := RaiseBoth(doTask);
    }

    /** Raises no signal; from an agreeing state it has no need to. */
    method ModTrainDur(sec: real) returns (err: int)
      requires Defined(Now(), TrainDur(sec))
      modifies this
      ensures Now() == After(old(Now()), TrainDur(sec)) && doTask == old(doTask)
      ensures err == (if TimesRefused(old(trainFrequency), old(trainDutyCycle), sec) then 1 else 0)
      ensures err != 0 ==> Now() == old(Now())
      ensures err == 0 ==> trainDuration == sec
      ensures trainFrequency == old(trainFrequency) && trainDutyCycle == old(trainDutyCycle)
      ensures err == 0 ==> TicksOfTimes(trainFrequency, trainDutyCycle, sec)
      ensures old(Agree(Now())) ==>
                Agree(Now()) && pulseDelayUsecs == old(pulseDelayUsecs) && pulseDurUsecs == old(pulseDurUsecs)
    {
      ghost var was := Now();
      if Agree(was) {
        ChangeAgreesExactly(was, TrainDur(sec));
        TrainDurKeepsTicks(was, sec);
      }
      err := Times2Ticks(trainFrequency, trainDutyCycle, sec);
      if err != 0 {
        return;
      }
      trainDuration := sec;
    }

    method ModDutyCycle(fraction: real) returns (err: int)
      requires Defined(Now(), Duty(fraction))
      modifies this
      ensures Now() == After(old(Now()), Duty(fraction))
      ensures old(Agree(Now())) ==> Agree(Now())
      ensures err == 0 ==> HasDelay(doTask) && HasDur(doTask) && Count(doTask) == Count(old(doTask))
      ensures err == (if TimesRefused(old(trainFrequency), fraction, old(trainDuration)) then 1 else 0)
      ensures err != 0 ==> Now() == old(Now())
      ensures err == 0 ==> trainDutyCycle == fraction
      ensures trainFrequency == old(trainFrequency) && trainDuration == old(trainDuration)
      ensures err == 0 ==> TicksOfTimes(trainFrequency, fraction, trainDuration)
      ensures err == 0 ==> WritesAs(old(doTask), nPulses, M.SignalBoth, doTask)
    {
      ghost var was := Now();
      if Agree(was) { ChangeAgreesExactly(was, Duty(fraction)); }
      RaiseBothRefines(doTask);
      err := Times2Ticks(trainFrequency, fraction, trainDuration);
      if err != 0 {
        return;
      }
      trainDutyCycle := fraction;
      doTask := RaiseBoth(doTask);
    }

    // ---------------------------------------------------------------- array end functions

    method FreqFromArray(cursor: ArrayCursor)
      requires Step(cursor.Now()).arrayPos < cursor.arrayData.Length
      requires Defined(Now(), ArrayFreq(cursor.arrayData[Step(cursor.Now()).arrayPos]))
      modifies this, cursor`arrayPos
      ensures cursor.Now() == Step(old(cursor.Now()))
      ensures Now() == After(old(Now()), ArrayFreq(cursor.arrayData[cursor.arrayPos]))
      ensures trainFrequency == cursor.arrayData[cursor.arrayPos]
      ensures trainDutyCycle == old(trainDutyCycle) && trainDuration == old(trainDuration)
      ensures !TimesRefused(trainFrequency, trainDutyCycle, trainDuration) ==>
                TicksOfTimes(trainFrequency, trainDutyCycle, trainDuration)
      ensures WritesAs(old(doTask), nPulses, M.SignalBoth, doTask)
      ensures old(Agree(Now())) && cursor.arrayData[cursor.arrayPos] >= 0.0 ==> Agree(Now())
    {
      ghost var was := Now();
      var hz := cursor.Next();
      if Agree(was) { ChangeAgreesExactly(was, ArrayFreq(hz)); }
      var _ := Times2Ticks(hz, trainDutyCycle, trainDuration);
      trainFrequency := hz;
      doTask := RaiseBoth(doTask);
    }

    method DutyCycleFromArray(cursor: ArrayCursor)
      requires Step(cursor.Now()).arrayPos < cursor.arrayData.Length
      requires Defined(Now(), ArrayDuty(cursor.arrayData[Step(cursor.Now()).arrayPos]))
      modifies this, cursor`arrayPos
      ensures cursor.Now() == Step(old(cursor.Now()))
      ensures Now() == After(old(Now()), ArrayDuty(cursor.arrayData[cursor.arrayPos]))
      ensures trainDutyCycle == cursor.arrayData[cursor.arrayPos]
      ensures trainFrequency == old(trainFrequency) && trainDuration == old(trainDuration)
      ensures !TimesRefused(trainFrequency, trainDutyCycle, trainDuration) ==>
                TicksOfTimes(trainFrequency, trainDutyCycle, trainDuration)
      ensures WritesAs(old(doTask), nPulses, M.SignalBoth, doTask)
      ensures old(Agree(Now())) && 0.0 < cursor.arrayData[cursor.arrayPos] <= 1.0 ==> Agree(Now())
    {
      ghost var was := Now();
      var fraction := cursor.Next();
      if Agree(was) { ChangeAgreesExactly(was, ArrayDuty(fraction)); }
      var _ := Times2Ticks(trainFrequency, fraction, trainDuration);
      trainDutyCycle := fraction;
      doTask := RaiseBoth(doTask);
    }

    // ---------------------------------------------------------------- task methods

    method DoTask()
      modifies this`doTask
      ensures WritesAs(old(doTask), nPulses, M.AddOne, doTask)
      ensures nPulses != 0 ==>
                Abs(doTask) == Abs(old(doTask)).(count := if Count(old(doTask)) < KMODDELAY - 2
                                                          then Count(old(doTask)) + 1 else Count(old(doTask)))
      ensures nPulses == 0 ==> Odd(doTask) && Flags(doTask) == Flags(old(doTask))
    {
      AddTaskRefines(doTask);
      Started(doTask);
      if nPulses == 0 {
        doTask := SetOdd(doTask);
      } else if Count(doTask) < KMODDELAY - 2 {
        doTask := Wrap(doTask + 1);
      }
    }

    /** For n of 2^29 and more the bound wraps; what happens then is in AddTasksExact. */
    method DoTasks(n: uint32)
      modifies this`doTask
      ensures WritesAs(old(doTask), nPulses, M.AddMany(n), doTask)
      ensures nPulses != 0 && n < KMODDELAY ==>
                && TakesAllOrNone(old(doTask), n, doTask)
                && (doTask != old(doTask) ==> Count(old(doTask)) + n < KMODDELAY - 1)
                && (Count(old(doTask)) + n < KMODDELAY - 1 ==> Count(doTask) == Count(old(doTask)) + n)
      ensures nPulses == 0 ==> Odd(doTask) && Flags(doTask) == Flags(old(doTask))
    {
      if n < KMODDELAY { AddTasksRefines(doTask, n); }
      Started(doTask);
      if nPulses == 0 {
        doTask := SetOdd(doTask);
      } else if Count(doTask) < Wrap(KMODDELAY - Wrap(n + 1)) {
        doTask := Wrap(doTask + n);
      }
    }

    /** At most one task is left and no signal.  Something is discarded exactly when more than
        one task was counted or a signal was pending, and a task is left exactly when the word
        was not empty: a pending signal alone becomes a task. */
    method UnDoTasks()
      modifies this`doTask
      ensures CallsAs(old(doTask), nPulses, M.Undo, doTask)
      ensures Count(doTask) <= 1 && !HasAny(doTask)
      ensures doTask != old(doTask) <==> Count(old(doTask)) > 1 || HasAny(old(doTask))
      ensures Count(doTask) == 1 <==> Count(old(doTask)) > 0 || HasAny(old(doTask))
    {
      Split(doTask);
      SignalsOf(doTask);
      if doTask > 1 {
        doTask := 1;
      }
    }

    method DoOrUndoTasks(n: int32)
      modifies this`doTask
      ensures CallsAs(old(doTask), nPulses, M.Adjust(n), doTask)
      ensures nPulses == 0 ==> doTask == old(doTask)
      ensures nPulses != 0 && 0 <= Count(old(doTask)) + n < KMODDELAY ==>
                Abs(doTask) == Abs(old(doTask)).(count := Count(old(doTask)) + n)
      ensures nPulses != 0 && KMODDELAY <= Count(old(doTask)) + n < KMODCUSTOM ==> doTask == KMODDELAY - 1
      ensures nPulses != 0 && !(0 <= Count(old(doTask)) + n < KMODCUSTOM) ==> doTask == Count(old(doTask)) % 2
    {
      if nPulses != 0 {
        AdjustRefines(doTask, n);
        SetOddRefines(doTask);
        var currentTasks := Count(doTask);
        if Signed(Wrap(currentTasks + n)) < 0 {
          doTask := doTask % 2;
        } else if Wrap(currentTasks + n) >= KMODDELAY {
          doTask := KMODDELAY - 1;
        } else {
          doTask := Wrap(doTask + n);
        }
      }
    }

    method StartInfiniteTrain()
      modifies this`doTask
      ensures CallsAs(old(doTask), nPulses, M.Start, doTask)
      ensures nPulses == 0 ==> Odd(doTask) && Flags(doTask) == Flags(old(doTask))
      ensures nPulses == 0 ==> Count(doTask) == Count(old(doTask)) + if Odd(old(doTask)) then 0 else 1
      ensures nPulses != 0 ==> doTask == old(doTask)
    {
      Started(doTask);
      if nPulses == 0 && !Odd(doTask) {
        doTask := SetOdd(doTask);
      }
    }

    /** An infinite train is not started afterwards, and no finite task is touched.  A started
        one loses its count and with it every signal; one that was not started loses nothing. */
    method StopInfiniteTrain()
      modifies this`doTask
      ensures CallsAs(old(doTask), nPulses, M.Stop, doTask)
      ensures nPulses == 0 ==> !Odd(doTask)
      ensures doTask != old(doTask) <==> nPulses == 0 && Odd(old(doTask))
      ensures doTask != old(doTask) ==> Abs(doTask) == Job(0, false, false, false)
    {
      if nPulses == 0 && Odd(doTask) {
        doTask := 0;
      }
    }

    // ---------------------------------------------------------------- waiting for the worker

    /** What the worker and other controllers have left in the word when a poll looks at it. */
    method Others(w: uint32)
      modifies this`doTask
      ensures doTask == w
    {
      doTask := w;
    }

    /** Sleep, and see whether there is time left. */
    method Pause(sleeper: Timespec, currentTime: Timeval, endTime: Timeval, clock: Clock) returns (timeLeft: bool)
      requires clock.gap > 0 && endTime.Normal() && currentTime != endTime
      requires sleeper.Normal() && sleeper.tvSec >= 0 && sleeper.Nanos() == 1000 * SLEEPTURNAROUND
      modifies clock, currentTime
      ensures clock.naps == old(clock.naps) + [Nap(old(clock.now), SLEEPTURNAROUND)]
      ensures clock.now >= old(clock.now) + SLEEPTURNAROUND && clock.jolts >= old(clock.jolts)
      ensures clock.jolts == old(clock.jolts) ==>
                clock.now <= old(clock.now) + SLEEPTURNAROUND + clock.over + clock.gap
      ensures timeLeft <==> clock.now < endTime.Micros()
    {
      clock.NanoSleep(sleeper);
      clock.GetTimeOfDay(currentTime);
      timeLeft := TimerLess(currentTime, endTime);
    }

    /** waitOnBusy: it polls under the lock, and sleeps 200 microseconds between polls.  The k-th
        poll sees words(k). */
    method WaitOnBusy(waitMicros: uint32, words: nat -> uint32, clock: Clock) returns (taskNum: int32, polls: nat)
      requires clock.gap > 0
      modifies this`doTask, clock
      // the result is the word last seen, and 0 is returned at the first poll that sees 0
      ensures polls >= 1 && doTask == words(polls - 1) && taskNum == Signed(doTask)
      ensures forall k: nat :: k < polls - 1 ==> words(k) != 0
      ensures taskNum == 0 <==> words(polls - 1) == 0
      // otherwise the time is up
      ensures taskNum != 0 ==> clock.now >= old(clock.now) + waitMicros
      // and there were no more polls than fit into it, each but a last one of 0 followed by a nap
      ensures polls == 1 || 200 * (polls - 1) < waitMicros
      ensures Paused(old(clock.naps), clock.naps, if taskNum == 0 then polls - 1 else polls)
      // without a jolt, it is not much later than that
      ensures clock.jolts >= old(clock.jolts)
      ensures clock.jolts == old(clock.jolts) ==>
                clock.now <= old(clock.now) + waitMicros + SLEEPTURNAROUND + clock.over + 2 * clock.gap
    {
      var waitTime := new Timeval(0, 0);
      var endTime := new Timeval(0, 0);
      var sleeper := new Timespec(0, 0);
      ConfigureTimer(waitMicros, waitTime);
      clock.GetTimeOfDay(endTime);
      TimerAdd(endTime, waitTime, endTime);
      ConfigureSleeper(SLEEPTURNAROUND, sleeper);
      taskNum, polls := PollUntil(endTime, waitMicros, sleeper, words, clock);
    }

    /** The loop of waitOnBusy, from the moment when so many microseconds were left. */
    method PollUntil(endTime: Timeval, waitMicros: uint32, sleeper: Timespec, words: nat -> uint32, clock: Clock)
      returns (taskNum: int32, polls: nat)
      requires clock.gap > 0 && endTime.Normal() && endTime.Micros() == clock.now + waitMicros
      requires sleeper.Normal() && sleeper.tvSec >= 0 && sleeper.Nanos() == 1000 * SLEEPTURNAROUND
      modifies this`doTask, clock
      ensures polls >= 1 && doTask == words(polls - 1) && taskNum == Signed(doTask)
      ensures forall k: nat :: k < polls - 1 ==> words(k) != 0
      ensures taskNum != 0 ==> clock.now >= old(clock.now) + waitMicros
      ensures polls == 1 || SLEEPTURNAROUND * (polls - 1) < waitMicros
      ensures Paused(old(clock.naps), clock.naps, if taskNum == 0 then polls - 1 else polls)
      ensures clock.jolts >= old(clock.jolts)
      ensures clock.jolts == old(clock.jolts) ==>
                clock.now <= old(clock.now) + waitMicros + SLEEPTURNAROUND + clock.over + clock.gap
    {
      var currentTime := new Timeval(0, 0);
      var waiting := true;
      taskNum, polls := 0, 0;
      while waiting
        invariant endTime.Normal() && endTime.Micros() == old(clock.now) + waitMicros
        invariant sleeper.Normal() && sleeper.tvSec >= 0 && sleeper.Nanos() == 1000 * SLEEPTURNAROUND
        invariant clock.now >= old(clock.now) + SLEEPTURNAROUND * polls
        invariant forall k: nat :: k < polls ==> words(k) != 0
        invariant polls > 0 ==> doTask == words(polls - 1) && taskNum == Signed(doTask)
        invariant polls == 0 ==> waiting
        invariant waiting ==> polls == 0 || SLEEPTURNAROUND * polls < waitMicros
        invariant !waiting ==> clock.now >= old(clock.now) + waitMicros
        invariant polls <= 1 || SLEEPTURNAROUND * (polls - 1) < waitMicros
        invariant Paused(old(clock.naps), clock.naps, polls)
        invariant clock.jolts >= old(clock.jolts)
        invariant clock.jolts == old(clock.jolts) ==>
                    && (waiting ==> clock.now <= old(clock.now) + waitMicros)
                    && clock.now <= old(clock.now) + waitMicros + SLEEPTURNAROUND + clock.over + clock.gap
        decreases waiting, waitMicros - SLEEPTURNAROUND * polls
      {
        Others(words(polls));
        taskNum := Signed(doTask);
        polls := polls + 1;
        if taskNum == 0 {
          break;
        }
        PausedMore(old(clock.naps), clock.naps, polls - 1, clock.now);
        waiting := Pause(sleeper, currentTime, endTime, clock);
      }
    }
  }
}
