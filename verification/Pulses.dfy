/** The worker's loops, which emit the logs of their tasks at all three accuracy levels. */
module Pulses {

  import opened Words
  import opened Clocks
  import opened Deadlines
  import opened Logs
  import opened Scripts

  class Worker {
    const accLevel: int
    var doTask: uint32
    var pulseDelayUsecs: uint32
    var pulseDurUsecs: uint32
    var nPulses: uint32
    var endFunc: bool          // an end function is installed
    var endRaises: bool        // it raises both timing signals, as the array end functions do

    const clock: Clock
    const delayTimer: Timeval
    const durTimer: Timeval
    const spinEndTime: Timeval
    const turnaroundTime: Timeval
    const delaySleeper: Timespec
    const durSleeper: Timespec
    var delaySleeps: bool
    var durSleeps: bool

    ghost var start: nat        // the clock when the task began
    ghost var laps: seq<Lap>    // the waits of the task so far, at accuracy level 2
    ghost var joltsBefore: nat  // the jolts of the clock when the task began,
    ghost var joltsSeen: nat    // and when its last wait ended
    ghost var spareBefore: int  // the waits without a sleep when the task began

    constructor (accLevel: int, delay: uint32, dur: uint32, n: uint32, clock: Clock)
      requires accLevel in {0, 1, 2} && clock.gap > 0
      ensures Distinct() && this.clock == clock && this.accLevel == accLevel
      ensures doTask == 0 && pulseDelayUsecs == delay && pulseDurUsecs == dur && nPulses == n
      ensures !endFunc
    {
      this.accLevel, this.clock := accLevel, clock;
      doTask, pulseDelayUsecs, pulseDurUsecs, nPulses := 0, delay, dur, n;
      endFunc, endRaises, delaySleeps, durSleeps := false, false, false, false;
      delayTimer := new Timeval(0, 0);
      durTimer := new Timeval(0, 0);
      spinEndTime := new Timeval(0, 0);
      turnaroundTime := new Timeval(0, 0);
      delaySleeper := new Timespec(0, 0);
      durSleeper := new Timespec(0, 0);
      start, laps, joltsBefore, joltsSeen, spareBefore := 0, [], 0, 0, 0;
    }

    /** Everything the worker did, by the record of its clock. */
    ghost function All(): seq<Event>
      reads clock
    {
      clock.past + clock.log
    }

    ghost predicate Distinct()
    {
      && accLevel in {0, 1, 2} && clock.gap > 0
      && delayTimer != durTimer && delayTimer != spinEndTime && delayTimer != turnaroundTime
      && durTimer != spinEndTime && durTimer != turnaroundTime && spinEndTime != turnaroundTime
      && delaySleeper != durSleeper
    }

    ghost predicate Valid()
      reads turnaroundTime
    {
      && Distinct()
      && (accLevel == 2 ==> turnaroundTime.Normal() && turnaroundTime.Micros() == SLEEPTURNAROUND)
    }

    /** What the thread function does before its loop. */
    method Setup()
      requires Distinct()
      modifies this`delaySleeps, this`durSleeps, turnaroundTime
      modifies delayTimer, delaySleeper, durTimer, durSleeper
      ensures Valid() && DelaySet() && DurSet()
    {
      if accLevel == 2 {
        ConfigureTimer(SLEEPTURNAROUND, turnaroundTime);
      }
      ConfigureDelay();
      ConfigureDur();
    }

    /** The private timers of the delay hold the delay field. */
    ghost predicate DelaySet()
      reads this`pulseDelayUsecs, this`delaySleeps, delayTimer, delaySleeper
    {
      && (accLevel != 2 && (accLevel == 1 ==> delaySleeps) ==>
            && delaySleeper.Normal() && delaySleeper.tvSec >= 0
            && delaySleeper.Nanos() == 1000 * pulseDelayUsecs)
      && (accLevel != 0 ==>
            && delayTimer.Normal() && delayTimer.Micros() == pulseDelayUsecs
            && (delaySleeps <==> pulseDelayUsecs >= SLEEPTURNAROUND))
    }

    ghost predicate DurSet()
      reads this`pulseDurUsecs, this`durSleeps, durTimer, durSleeper
    {
      && (accLevel != 2 && (accLevel == 1 ==> durSleeps) ==>
            && durSleeper.Normal() && durSleeper.tvSec >= 0
            && durSleeper.Nanos() == 1000 * pulseDurUsecs)
      && (accLevel != 0 ==>
            && durTimer.Normal() && durTimer.Micros() == pulseDurUsecs
            && (durSleeps <==> pulseDurUsecs >= SLEEPTURNAROUND))
    }

    method ConfigureDelay()
      requires Valid()
      modifies this`delaySleeps, delayTimer, delaySleeper
      ensures Valid() && DelaySet()
    {
      if accLevel == 0 {
        ConfigureSleeper(pulseDelayUsecs, delaySleeper);
      } else if accLevel == 1 {
        delaySleeps := ConfigureTurnaroundSleeper(pulseDelayUsecs, delaySleeper);
        ConfigureTimer(pulseDelayUsecs, delayTimer);
      } else {
        ConfigureTimer(pulseDelayUsecs, delayTimer);
        delaySleeps := ConfigureTurnaround(pulseDelayUsecs);
      }
    }

    method ConfigureDur()
      requires Valid()
      modifies this`durSleeps, durTimer, durSleeper
      ensures Valid() && DurSet()
    {
      if accLevel == 0 {
        ConfigureSleeper(pulseDurUsecs, durSleeper);
      } else if accLevel == 1 {
        durSleeps := ConfigureTurnaroundSleeper(pulseDurUsecs, durSleeper);
        ConfigureTimer(pulseDurUsecs, durTimer);
      } else {
        ConfigureTimer(pulseDurUsecs, durTimer);
        durSleeps := ConfigureTurnaround(pulseDurUsecs);
      }
    }

    /** The clock when the last wait ended, or when the task began. */
    ghost function Rest(): nat
      reads this`laps, this`start
    {
      if laps == [] then start else laps[|laps| - 1].ended
    }

    ghost function SlackNow(): nat
    {
      Slack(clock, SLEEPTURNAROUND)
    }

    /** Waits that went by without a sleep.  As it never falls, no sleep is without its wait. */
    ghost function Spare(): int
      reads clock
    {
      clock.waits - |clock.naps|
    }

    /** What a wait without deadline may take beyond its period. */
    ghost function WaitOver(): nat
    {
      clock.over + 2 * clock.gap
    }

    /** At accuracy levels 0 and 1 the task so far has taken its waits and, without a jolt, no more
        than the usual bounds for each wait and callback besides. */
    ghost predicate Paced(jolts: nat)
      reads this`start, clock
    {
      && start + AskedTime(clock.log) <= clock.now && jolts <= clock.jolts
      && (clock.jolts == jolts ==>
            clock.now <= start + AllowedTime(clock.log, WaitOver(), clock.work))
    }

    /** At accuracy level 2 the end time is the last deadline, the waits so far kept to the rules
        of a chain, since the last of them the callbacks took no more than their share or the
        clock jolted, and at most one wait is rough for every jolt before. */
    ghost predicate OnSchedule()
      reads this`laps, this`start, this`joltsBefore, this`joltsSeen, this`spareBefore, clock, spinEndTime
    {
      spareBefore <= Spare() &&
      if accLevel == 2 then
        && spinEndTime.Normal() && spinEndTime.Micros() == Due(start, laps, |laps|)
        && Kept(start, laps, clock.work, SlackNow())
        && LegsOf(laps) == Legs(clock.log)
        && Rest() <= clock.now && joltsSeen <= clock.jolts
        && (clock.jolts == joltsSeen ==> clock.now <= Rest() + Times(Trailing(clock.log), clock.work))
        && joltsBefore + Rough(laps) <= joltsSeen
      else Paced(joltsBefore)
    }

    /** What a finished task leaves behind at accuracy level 2: a chain whose legs are those of
        the log, with at most one rough lap for every jolt since. */
    ghost predicate Timed(jolts: nat)
      reads this`laps, this`start, clock
    {
      if accLevel == 2 then
        && Kept(start, laps, clock.work, SlackNow())
        && LegsOf(laps) == Legs(clock.log)
        && jolts + Rough(laps) <= clock.jolts
      else Paced(jolts)
    }

    /** One wait, at any accuracy level: one sleep of the period at level 0, at most one at the
        others, and without a jolt no longer than the usual bounds. */
    method Wait(period: uint32, timer: Timeval, sleeper: Timespec, sleeps: bool) returns (ghost from: nat)
      requires Valid() && OnSchedule()
      requires timer != spinEndTime && timer != turnaroundTime
      requires accLevel != 2 && (accLevel == 1 ==> sleeps) ==>
                 sleeper.Normal() && sleeper.tvSec >= 0 && sleeper.Nanos() == 1000 * period
      requires accLevel != 0 ==> timer.Normal() && timer.Micros() == period
      requires accLevel != 0 ==> (sleeps <==> period >= SLEEPTURNAROUND)
      modifies clock, spinEndTime, this`laps, this`joltsSeen
      ensures Valid() && OnSchedule() && clock.past == old(clock.past)
      ensures clock.log == old(clock.log) + [Event.Wait(period)]
      ensures clock.jolts >= old(clock.jolts)
      ensures clock.now >= old(clock.now) + (if accLevel == 2 then 0 else period)
      ensures accLevel == 0 ==> from == old(clock.now) && clock.naps == old(clock.naps) + [Nap(from, period)]
      ensures accLevel == 0 && clock.jolts == old(clock.jolts) ==>
                clock.now <= old(clock.now) + period + clock.over
      ensures accLevel == 1 ==>
                from >= old(clock.now) && clock.naps == old(clock.naps) + if sleeps then [Nap(from, period)] else []
      ensures accLevel == 1 && clock.jolts == old(clock.jolts) ==>
                clock.now <= old(clock.now) + period + (if sleeps then clock.over else 0) + 2 * clock.gap
      ensures Spare() >= old(Spare())
    {
      from := clock.now;
      if accLevel == 0 {
        SnocTime(clock.log, Event.Wait(period), WaitOver(), clock.work);
        clock.NanoSleep(sleeper);
        WholeMicros(period);
        clock.NoteWait(period);
      } else if accLevel == 1 {
        from := WaitFromNow(period, timer, sleeper, sleeps);
        SnocTime(old(clock.log), Event.Wait(period), WaitOver(), clock.work);
        clock.NoteWait(period);
      } else {
        WaitForDeadline(period, timer, sleeps);
      }
    }

    lemma WholeMicros(period: uint32)
      ensures (1000 * period + 999) / 1000 == period
    {
    }

    /** The wait of accuracy level 1: for the period from now on.  It never spins after it has
        slept: it reads the clock once before the sleep and once after it. */
    method WaitFromNow(period: uint32, timer: Timeval, sleeper: Timespec, sleeps: bool) returns (ghost from: nat)
      requires Valid()
      requires timer != spinEndTime && timer.Normal() && timer.Micros() == period
      requires sleeps ==> sleeper.Normal() && sleeper.tvSec >= 0 && sleeper.Nanos() == 1000 * period
      modifies clock, spinEndTime
      ensures clock.Record() == old(clock.Record())
      ensures clock.jolts >= old(clock.jolts) && clock.now >= old(clock.now) + period
      ensures from >= old(clock.now) && clock.naps == old(clock.naps) + if sleeps then [Nap(from, period)] else []
      ensures clock.jolts == old(clock.jolts) ==>
                clock.now <= old(clock.now) + period + (if sleeps then clock.over else 0) + 2 * clock.gap
      ensures sleeps ==> clock.readings == old(clock.readings) + 2
    {
      clock.GetTimeOfDay(spinEndTime);
      from := clock.now;
      TimerAdd(spinEndTime, timer, spinEndTime);
      WholeMicros(period);
      var early := WaitInline1(sleeps, sleeper, spinEndTime, clock);
      assert sleeps ==> early == 0;
    }

    /** The wait of accuracy level 2: the chain of deadlines gets one more. */
    method WaitForDeadline(period: uint32, timer: Timeval, sleeps: bool)
      requires Valid() && OnSchedule() && accLevel == 2
      requires timer != spinEndTime && timer != turnaroundTime && timer.Normal() && timer.Micros() == period
      modifies clock, spinEndTime, this`laps, this`joltsSeen
      ensures Valid() && OnSchedule() && clock.now >= old(clock.now) && clock.jolts >= old(clock.jolts)
      ensures clock.past == old(clock.past) && Spare() >= old(Spare())
      ensures clock.log == old(clock.log) + [Event.Wait(period)]
    {
      ghost var begun := clock.now;
      TimerAdd(spinEndTime, timer, spinEndTime);
      WaitInline2(sleeps, turnaroundTime, spinEndTime, clock);
      AddLap(period, begun);
    }

    /** The wait that is over joins the chain and the record. */
    ghost method AddLap(period: uint32, begun: nat)
      requires Kept(start, laps, clock.work, SlackNow()) && LegsOf(laps) == Legs(clock.log)
      requires Rest() <= begun <= clock.now && joltsSeen <= clock.jolts && joltsBefore + Rough(laps) <= joltsSeen
      requires Due(start, laps, |laps|) + period <= clock.now
      requires clock.jolts == joltsSeen ==>
                 && begun <= Rest() + Times(Trailing(clock.log), clock.work)
                 && clock.now <= Max(begun, Due(start, laps, |laps|) + period) + SlackNow()
      modifies clock`log, clock`waits, this`laps, this`joltsSeen
      ensures Kept(start, laps, clock.work, SlackNow()) && LegsOf(laps) == Legs(clock.log)
      ensures clock.log == old(clock.log) + [Event.Wait(period)] && Trailing(clock.log) == 0
      ensures Due(start, laps, |laps|) == Due(start, old(laps), |old(laps)|) + period
      ensures clock.waits == old(clock.waits) + 1
      ensures Rest() == clock.now && joltsSeen == clock.jolts && joltsBefore + Rough(laps) <= joltsSeen
    {
      LegsSnoc(clock.log, Event.Wait(period));
      var lap := Lap(Leg(Trailing(clock.log), period), clock.jolts == joltsSeen, begun, clock.now);
      KeptExtend(start, laps, lap, clock.work, SlackNow());
      laps, joltsSeen := laps + [lap], clock.jolts;
      clock.NoteWait(period);
    }

    /** A callback; between tasks there is no schedule to keep. */
    method Call(e: Event)
      requires Valid() && !e.Wait?
      modifies clock
      ensures Valid() && (old(OnSchedule()) ==> OnSchedule())
      ensures clock.log == old(clock.log) + [e] && clock.now >= old(clock.now) && clock.jolts >= old(clock.jolts)
      ensures clock.past == old(clock.past) && clock.naps == old(clock.naps) && clock.waits == old(clock.waits)
    {
      SnocTime(clock.log, e, WaitOver(), clock.work);
      LegsSnoc(clock.log, e);
      clock.RunCallback(e);
    }

    /** One finite task, pulse or train: it emits exactly its specification, at every accuracy
        level; at level 2 each wait keeps its deadline. */
    method RunTask()
      requires Valid() && DelaySet() && DurSet() && nPulses != 0
      modifies clock, spinEndTime
      modifies this`laps, this`start, this`joltsBefore, this`joltsSeen, this`spareBefore
      ensures Valid() && DelaySet() && DurSet()
      ensures clock.past == old(clock.past) + old(clock.log)
      ensures clock.log == TaskLog(pulseDelayUsecs, pulseDurUsecs, nPulses, endFunc)
      ensures Timed(old(clock.jolts)) && Prompt(old(clock.now), old(clock.jolts)) && Spare() >= old(Spare())
    {
      BeginTask();
      if nPulses == 1 {
        RunPulse();
      } else {
        RunTrain();
      }
      if endFunc {
        Call(End);
      }
    }

    /** A task begins when it is asked to; at accuracy level 2 it reads the clock first. */
    ghost predicate Prompt(now: nat, jolts: nat)
      reads this`start, this`joltsBefore
    {
      if accLevel == 2 then start >= now && (joltsBefore == jolts ==> start <= now + clock.gap)
      else start == now && joltsBefore == jolts
    }

    method BeginTask()
      requires Valid() && DelaySet() && DurSet()
      modifies clock, spinEndTime
      modifies this`laps, this`start, this`joltsBefore, this`joltsSeen, this`spareBefore
      ensures Valid() && DelaySet() && DurSet() && OnSchedule()
      ensures clock.past == old(clock.past) + old(clock.log) && clock.log == []
      ensures Prompt(old(clock.now), old(clock.jolts)) && joltsBefore >= old(clock.jolts)
      ensures spareBefore == old(Spare())
    {
      clock.TurnPage();
      laps := [];
      if accLevel == 2 {
        clock.GetTimeOfDay(spinEndTime);
      }
      start, joltsBefore, joltsSeen, spareBefore := clock.now, clock.jolts, clock.jolts, Spare();
    }

    method RunPulse()
      requires Valid() && DelaySet() && DurSet() && OnSchedule() && clock.log == []
      modifies clock, spinEndTime, this`laps, this`joltsSeen
      ensures Valid() && DelaySet() && DurSet() && OnSchedule()
      ensures clock.log == PulseLog(pulseDelayUsecs, pulseDurUsecs) && clock.past == old(clock.past)
    {
      WaitFirst();
      High();
      Call(Lo);
    }

    /** The delay of a single pulse comes before it. */
    method WaitFirst()
      requires Valid() && DelaySet() && DurSet() && OnSchedule() && clock.log == []
      modifies clock, spinEndTime, this`laps, this`joltsSeen
      ensures Valid() && DelaySet() && DurSet() && OnSchedule()
      ensures clock.log == (if pulseDelayUsecs > 0 then [Event.Wait(pulseDelayUsecs)] else [])
      ensures clock.past == old(clock.past)
    {
      if pulseDelayUsecs > 0 {
        var _ := Wait(pulseDelayUsecs, delayTimer, delaySleeper, delaySleeps);
      }
    }

    /** High for the duration. */
    method High()
      requires Valid() && DelaySet() && DurSet() && OnSchedule()
      modifies clock, spinEndTime, this`laps, this`joltsSeen
      ensures Valid() && DelaySet() && DurSet() && OnSchedule()
      ensures clock.log == old(clock.log) + HighLog(pulseDurUsecs) && clock.past == old(clock.past)
    {
      Call(Hi);
      var _ := Wait(pulseDurUsecs, durTimer, durSleeper, durSleeps);
    }

    /** Low for the delay, if there is one. */
    method Low()
      requires Valid() && DelaySet() && DurSet() && OnSchedule()
      modifies clock, spinEndTime, this`laps, this`joltsSeen
      ensures Valid() && DelaySet() && DurSet() && OnSchedule()
      ensures clock.log == old(clock.log) + LowLog(pulseDelayUsecs) && clock.past == old(clock.past)
    {
      if pulseDelayUsecs > 0 {
        Call(Lo);
        var _ := Wait(pulseDelayUsecs, delayTimer, delaySleeper, delaySleeps);
      }
    }

    method RunTrain()
      requires Valid() && DelaySet() && DurSet() && OnSchedule() && clock.log == []
      modifies clock, spinEndTime, this`laps, this`joltsSeen
      ensures Valid() && DelaySet() && DurSet() && OnSchedule()
      ensures clock.log == TrainLog(pulseDelayUsecs, pulseDurUsecs, nPulses) && clock.past == old(clock.past)
    {
      var iTick := 0;
      while iTick < nPulses
        invariant 0 <= iTick <= nPulses
        invariant Valid() && DelaySet() && DurSet() && OnSchedule()
        invariant clock.log == TrainLog(pulseDelayUsecs, pulseDurUsecs, iTick) && clock.past == old(clock.past)
      {
        RunCycle();
        iTick := iTick + 1;
      }
    }

    method RunCycle()
      requires Valid() && DelaySet() && DurSet() && OnSchedule()
      modifies clock, spinEndTime, this`laps, this`joltsSeen
      ensures Valid() && DelaySet() && DurSet() && OnSchedule()
      ensures clock.log == old(clock.log) + CycleLog(pulseDelayUsecs, pulseDurUsecs) && clock.past == old(clock.past)
    {
      ghost var before := clock.log;
      if pulseDurUsecs > 0 {
        High();
      }
      Low();
      Associate(before, if pulseDurUsecs > 0 then HighLog(pulseDurUsecs) else [], LowLog(pulseDelayUsecs));
    }

    /** The timers hold the fields, or the signal that they do not is up. */
    ghost predicate Fresh()
      reads this`doTask, this`pulseDelayUsecs, this`pulseDurUsecs, this`delaySleeps, this`durSleeps
      reads delayTimer, delaySleeper, durTimer, durSleeper
    {
      (HasDelay(doTask) || DelaySet()) && (HasDur(doTask) || DurSet())
    }

    /** Act on the signals, as at the top of the thread's loop and inside an infinite train; the
        custom callback comes last. */
    method ConsumeSignals()
      requires Valid() && Fresh()
      modifies this`doTask, this`delaySleeps, this`durSleeps, clock
      modifies delayTimer, delaySleeper, durTimer, durSleeper
      ensures Valid() && DelaySet() && DurSet() && (old(OnSchedule()) ==> OnSchedule())
      ensures doTask == Count(old(doTask)) && clock.jolts >= old(clock.jolts) && Spare() == old(Spare())
      ensures clock.log == old(clock.log) + Ran(HasCustom(old(doTask))) && clock.past == old(clock.past)
      ensures All() == old(All()) + Ran(HasCustom(old(doTask)))
    {
      Associate(clock.past, clock.log, Ran(HasCustom(doTask)));
      ConsumeTiming();
      if HasCustom(doTask) {
        Call(Custom);
        ClearRefines(doTask);
        doTask := ClearCustom(doTask);
      }
      Split(doTask);
      SignalsOf(doTask);
    }

    method ConsumeTiming()
      requires Valid() && Fresh()
      modifies this`doTask, this`delaySleeps, this`durSleeps
      modifies delayTimer, delaySleeper, durTimer, durSleeper
      ensures Valid() && DelaySet() && DurSet()
      ensures Abs(doTask) == Abs(old(doTask)).(delay := false, dur := false)
    {
      ClearRefines(doTask);
      if HasDelay(doTask) {
        ConfigureDelay();
        doTask := ClearDelay(doTask);
      }
      ClearRefines(doTask);
      if HasDur(doTask) {
        ConfigureDur();
        doTask := ClearDur(doTask);
      }
    }

    /** One task counted off, with its end function. */
    method RunCounted()
      requires Valid() && DelaySet() && DurSet() && nPulses != 0 && 0 < doTask < KMODDELAY
      modifies this`doTask, clock, spinEndTime
      modifies this`laps, this`start, this`joltsBefore, this`joltsSeen, this`spareBefore
      ensures Valid() && DelaySet() && DurSet()
      ensures Abs(doTask) == Job(old(doTask) - 1, endFunc && endRaises, endFunc && endRaises, false)
      ensures All() == old(All()) + clock.log
      ensures clock.log == TaskLog(pulseDelayUsecs, pulseDurUsecs, nPulses, endFunc)
      ensures Timed(old(clock.jolts)) && Spare() >= old(Spare())
    {
      RunTask();
      Split(doTask);
      SignalsOf(doTask);
      if endFunc && endRaises {
        RaiseBothRefines(doTask);
        doTask := RaiseBoth(doTask);
      }
      DecrementRefines(doTask);
      doTask := Decrement(doTask);
    }

    /** Once around the thread's loop with something in the word: the signals, a pending custom
        callback, and one task if any is counted. */
    method RunRound()
      requires Valid() && Fresh() && nPulses != 0 && doTask != 0
      modifies this`doTask, this`delaySleeps, this`durSleeps, clock, spinEndTime
      modifies this`laps, this`start, this`joltsBefore, this`joltsSeen, this`spareBefore
      modifies delayTimer, delaySleeper, durTimer, durSleeper
      ensures Valid() && Fresh() && !HasCustom(doTask)
      ensures old(Count(doTask)) > 0 ==>
                Abs(doTask) == Job(old(Count(doTask)) - 1, endFunc && endRaises, endFunc && endRaises, false)
      ensures old(Count(doTask)) == 0 ==> doTask == 0
      ensures Spare() >= old(Spare())
      ensures old(Count(doTask)) == 0 ==> All() == old(All()) + Ran(old(HasCustom(doTask)))
      ensures old(Count(doTask)) > 0 ==>
                All() == old(All()) + Ran(old(HasCustom(doTask)))
                         + TaskLog(pulseDelayUsecs, pulseDurUsecs, nPulses, endFunc)
    {
      ConsumeSignals();
      if doTask != 0 {
        RunCounted();
      }
      SignalsOf(doTask);
    }

    /** The same, with all that is recorded so far as a number of tasks. */
    method RunNext(ghost before: seq<Event>, ghost one: seq<Event>, ghost k: nat)
      requires Valid() && Fresh() && nPulses != 0 && doTask != 0
      requires one == TaskLog(pulseDelayUsecs, pulseDurUsecs, nPulses, endFunc)
      requires All() + Ran(HasCustom(doTask)) == before + Repeat(one, k)
      modifies this`doTask, this`delaySleeps, this`durSleeps, clock, spinEndTime
      modifies this`laps, this`start, this`joltsBefore, this`joltsSeen, this`spareBefore
      modifies delayTimer, delaySleeper, durTimer, durSleeper
      ensures Valid() && Fresh() && Spare() >= old(Spare())
      ensures if old(Count(doTask)) > 0 then Count(doTask) == old(Count(doTask)) - 1 else doTask == 0
      ensures All() + Ran(HasCustom(doTask)) == before + Repeat(one, if old(Count(doTask)) > 0 then k + 1 else k)
    {
      ghost var left, was, ran := Count(doTask), All(), Ran(HasCustom(doTask));
      RunRound();
      Empty(All());
      if left > 0 {
        RepeatMore(was, ran, before, one, k);
      } else {
        SignalsOf(doTask);
      }
    }

    /** The thread's loop until the word is empty, with no controller interfering: it runs a
        pending custom callback, and the task as often as it was counted, also when the end
        function raises signals each time. */
    method RunQueue()
      requires Valid() && Fresh() && nPulses != 0
      modifies this`doTask, this`delaySleeps, this`durSleeps, clock, spinEndTime
      modifies this`laps, this`start, this`joltsBefore, this`joltsSeen, this`spareBefore
      modifies delayTimer, delaySleeper, durTimer, durSleeper
      ensures Valid() && Fresh() && doTask == 0 && Spare() >= old(Spare())
      ensures All() == old(All()) + Ran(HasCustom(old(doTask)))
                       + Repeat(TaskLog(pulseDelayUsecs, pulseDurUsecs, nPulses, endFunc), Count(old(doTask)))
    {
      ghost var total := Count(doTask);
      ghost var one := TaskLog(pulseDelayUsecs, pulseDurUsecs, nPulses, endFunc);
      ghost var before := All() + Ran(HasCustom(doTask));
      while doTask != 0
        invariant Valid() && Fresh() && Count(doTask) <= total && Spare() >= old(Spare())
        invariant All() + Ran(HasCustom(doTask)) == before + Repeat(one, total - Count(doTask))
        decreases Count(doTask), doTask
      {
        RunNext(before, one, total - Count(doTask));
      }
      Empty(All());
    }

    lemma Empty(log: seq<Event>)
      ensures log + Ran(false) == log
    {
    }

    // -------------------------------------------------------------- infinite trains

    /** The word and the timing fields. */
    ghost function Now(): Shared
      reads this`doTask, this`pulseDelayUsecs, this`pulseDurUsecs
    {
      Shared(doTask, pulseDelayUsecs, pulseDurUsecs)
    }

    /** What others do between two tests of the loop. */
    method Others(m: Move)
      requires Valid() && Fresh()
      modifies this`doTask, this`pulseDelayUsecs, this`pulseDurUsecs
      ensures Valid() && Now() == Moved(old(Now()), m) && (!m.stop ==> Fresh())
    {
      if m.stop {
        doTask := 0;
      } else {
        Retime(m);
        if m.custom {
          RaiseRefines(doTask);
          doTask := RaiseCustom(doTask);
        }
      }
    }

    method Retime(m: Move)
      requires Valid() && Fresh()
      modifies this`doTask, this`pulseDelayUsecs, this`pulseDurUsecs
      ensures Valid() && Now() == Retimed(old(Now()), m) && Fresh()
    {
      if m.delay.To? {
        RaiseRefines(doTask);
        pulseDelayUsecs, doTask := m.delay.us, RaiseDelay(doTask);
      }
      if m.dur.To? {
        RaiseRefines(doTask);
        pulseDurUsecs, doTask := m.dur.us, RaiseDur(doTask);
      }
    }

    /** The end function of one pulse. */
    method EndPulse()
      requires Valid() && DelaySet() && DurSet() && OnSchedule()
      modifies clock, this`doTask
      ensures Valid() && Fresh() && OnSchedule()
      ensures doTask == if endFunc && endRaises then RaiseBoth(old(doTask)) else old(doTask)
      ensures clock.log == old(clock.log) + EndLog(endFunc) && clock.past == old(clock.past)
    {
      if endFunc {
        Call(End);
        if endRaises {
          RaiseBothRefines(doTask);
          doTask := RaiseBoth(doTask);
        }
      }
    }

    /** Look for signals before a pulse. */
    method Attend()
      requires Valid() && Fresh() && OnSchedule()
      modifies this`doTask, this`delaySleeps, this`durSleeps, clock
      modifies delayTimer, delaySleeper, durTimer, durSleeper
      ensures Valid() && DelaySet() && DurSet() && OnSchedule()
      ensures doTask == Count(old(doTask)) && clock.past == old(clock.past)
      ensures clock.log == old(clock.log) + Ran(HasCustom(old(doTask)))
    {
      Split(doTask);
      SignalsOf(doTask);
      if HasAny(doTask) {
        clock.Lock();
        ConsumeSignals();
      }
    }

    /** Once around the loop of an infinite train. */
    method RunBeat()
      requires Valid() && Fresh() && OnSchedule()
      modifies this`doTask, this`delaySleeps, this`durSleeps
      modifies clock, spinEndTime, this`laps, this`joltsSeen
      modifies delayTimer, delaySleeper, durTimer, durSleeper
      ensures Valid() && OnSchedule() && Fresh()
      ensures clock.log == old(clock.log) + BeatLog(BeatOf(old(Now())), endFunc) && clock.past == old(clock.past)
      ensures Now() == Pulsed(old(Now()), endFunc && endRaises)
    {
      ghost var before, beat := clock.log, BeatOf(Now());
      Attend();
      High();
      Low();
      EndPulse();
      Regroup(before, Ran(beat.custom), HighLog(beat.dur), LowLog(beat.delay), EndLog(endFunc));
    }

    /** Once around, and what others do before the next test. */
    method RunTurn(m: Move)
      requires Valid() && Fresh() && OnSchedule()
      modifies this`doTask, this`delaySleeps, this`durSleeps, this`pulseDelayUsecs, this`pulseDurUsecs
      modifies clock, spinEndTime, this`laps, this`joltsSeen
      modifies delayTimer, delaySleeper, durTimer, durSleeper
      ensures Valid() && OnSchedule() && (Odd(doTask) ==> Fresh())
      ensures clock.log == old(clock.log) + BeatLog(BeatOf(old(Now())), endFunc) && clock.past == old(clock.past)
      ensures Now() == Moved(Pulsed(old(Now()), endFunc && endRaises), m)
    {
      RunBeat();
      MovedKeeps(Now(), m);
      Others(m);
    }

    /** The pulses of an infinite train that a script covers, or fewer when it is stopped before.  It makes
        exactly the pulses that the script of the others' moves calls for, and keeps its pace, or
        the chain of deadlines at accuracy level 2. */
    method RunLoop(script: seq<Move>) returns (n: nat, ghost beats: seq<Beat>)
      requires Valid() && Fresh() && OnSchedule() && clock.log == []
      modifies this`doTask, this`delaySleeps, this`durSleeps, this`pulseDelayUsecs, this`pulseDurUsecs
      modifies clock, spinEndTime, this`laps, this`joltsSeen
      modifies delayTimer, delaySleeper, durTimer, durSleeper
      ensures Valid() && OnSchedule()
      ensures Played(old(Now()), endFunc && endRaises, script, n, beats)
      ensures n <= |script| && Now() == Before(old(Now()), endFunc && endRaises, script, n)
      ensures clock.log == LoopLog(beats, endFunc) && clock.past == old(clock.past)
    {
      ghost var was, raises := Now(), endFunc && endRaises;
      n, beats := 0, [];
      while n < |script| && Odd(doTask)
        invariant Playing(was, raises, script, n, beats) && Now() == Before(was, raises, script, n)
        invariant Valid() && OnSchedule() && (Odd(doTask) ==> Fresh())
        invariant clock.log == LoopLog(beats, endFunc) && clock.past == old(clock.past)
      {
        ghost var beat := BeatOf(Now());
        RunTurn(script[n]);
        PlayedMore(was, raises, script, n, beats);
        LoopSnoc(beats, beat, endFunc);
        n, beats := n + 1, beats + [beat];
      }
    }

    /** An infinite train from the choice of task. */
    method RunInfinite(script: seq<Move>) returns (n: nat, ghost beats: seq<Beat>)
      requires Valid() && DelaySet() && DurSet() && nPulses == 0
      modifies this`doTask, this`delaySleeps, this`durSleeps, this`pulseDelayUsecs, this`pulseDurUsecs
      modifies clock, spinEndTime
      modifies this`laps, this`start, this`joltsBefore, this`joltsSeen, this`spareBefore
      modifies delayTimer, delaySleeper, durTimer, durSleeper
      ensures Valid() && clock.past == old(clock.past) + old(clock.log)
      ensures Played(old(Now()), endFunc && endRaises, script, n, beats)
      ensures n <= |script| && Now() == Before(old(Now()), endFunc && endRaises, script, n)
      ensures clock.log == LoopLog(beats, endFunc)
      ensures Timed(old(clock.jolts)) && Prompt(old(clock.now), old(clock.jolts)) && Spare() >= old(Spare())
    {
      BeginTask();
      n, beats := RunLoop(script);
    }
  }
}
