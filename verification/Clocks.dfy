/** Time as the worker sees it: the C structures it stores into, the clock it reads, and the
    three ways it waits. */
module Clocks {

  import opened Words
  import L = Logs

  const SLEEPTURNAROUND: uint32 := 200

  // ------------------------------------------------------------------ struct timeval, timespec

  class Timeval {
    var tvSec: int
    var tvUsec: int

    constructor (sec: int, usec: int)
      ensures tvSec == sec && tvUsec == usec
    {
      tvSec, tvUsec := sec, usec;
    }

    /** Microseconds in the second field stay below one second. */
    ghost predicate Normal() reads this { 0 <= tvUsec < 1_000_000 }

    ghost function Micros(): int reads this { tvSec * 1_000_000 + tvUsec }

    /** gettimeofday, timeradd and the others store into a structure they are given. */
    method Set(sec: int, usec: int)
      modifies this
      ensures tvSec == sec && tvUsec == usec
    {
      tvSec, tvUsec := sec, usec;
    }
  }

  class Timespec {
    var tvSec: int
    var tvNsec: int

    constructor (sec: int, nsec: int)
      ensures tvSec == sec && tvNsec == nsec
    {
      tvSec, tvNsec := sec, nsec;
    }

    ghost predicate Normal() reads this { 0 <= tvNsec < 1_000_000_000 }

    ghost function Nanos(): int reads this { tvSec * 1_000_000_000 + tvNsec }
  }

  /** timeradd; the result may be one of the operands. */
  method TimerAdd(a: Timeval, b: Timeval, result: Timeval)
    requires a.Normal() && b.Normal()
    modifies result
    ensures result.Normal() && result.Micros() == old(a.Micros()) + old(b.Micros())
  {
    result.tvSec, result.tvUsec := a.tvSec + b.tvSec, a.tvUsec + b.tvUsec;
    if result.tvUsec >= 1_000_000 {
      result.tvSec, result.tvUsec := result.tvSec + 1, result.tvUsec - 1_000_000;
    }
  }

  /** timersub; the result may be one of the operands. */
  method TimerSub(a: Timeval, b: Timeval, result: Timeval)
    requires a.Normal() && b.Normal()
    modifies result
    ensures result.Normal() && result.Micros() == old(a.Micros()) - old(b.Micros())
  {
    result.tvSec, result.tvUsec := a.tvSec - b.tvSec, a.tvUsec - b.tvUsec;
    if result.tvUsec < 0 {
      result.tvSec, result.tvUsec := result.tvSec - 1, result.tvUsec + 1_000_000;
    }
  }

  /** timercmp (a, b, <): seconds first, then microseconds. */
  method TimerLess(a: Timeval, b: Timeval) returns (less: bool)
    requires a.Normal() && b.Normal()
    ensures less <==> a.Micros() < b.Micros()
  {
    less := if a.tvSec == b.tvSec then a.tvUsec < b.tvUsec else a.tvSec < b.tvSec;
  }

  method ConfigureTimer(microSeconds: uint32, timer: Timeval)
    modifies timer
    ensures timer.Normal() && timer.Micros() == microSeconds && timer.tvSec >= 0
  {
    timer.tvSec := microSeconds / 1_000_000;
    timer.tvUsec := microSeconds - timer.tvSec * 1_000_000;
  }

  method ConfigureSleeper(microSeconds: uint32, sleeper: Timespec)
    modifies sleeper
    ensures sleeper.Normal() && sleeper.Nanos() == 1000 * microSeconds && sleeper.tvSec >= 0
  {
    sleeper.tvSec := microSeconds / 1_000_000;
    sleeper.tvNsec := (microSeconds - sleeper.tvSec * 1_000_000) * 1000;
  }

  /** The sleeper of accuracy level 1 holds the whole period, although its comment says that
      the turnaround is taken off; below the turnaround it is left as it was. */
  method ConfigureTurnaroundSleeper(microSeconds: uint32, sleeper: Timespec) returns (sleeps: bool)
    modifies sleeper
    ensures sleeps <==> microSeconds >= SLEEPTURNAROUND
    ensures sleeps ==> sleeper.Normal() && sleeper.Nanos() == 1000 * microSeconds && sleeper.tvSec >= 0
    ensures !sleeps ==> sleeper.tvSec == old(sleeper.tvSec) && sleeper.tvNsec == old(sleeper.tvNsec)
  {
    if microSeconds < SLEEPTURNAROUND {
      return false;
    }
    ConfigureSleeper(microSeconds, sleeper);
    return true;
  }

  predicate ConfigureTurnaround(microSeconds: uint32) { microSeconds >= SLEEPTURNAROUND }

  /** The program divides by 1e06 in double arithmetic and truncates.  For every unsigned
      microsecond count, any quotient within a relative error of 2^-53 that is exact on whole
      seconds truncates to the integer quotient. */
  lemma DoubleQuotientTruncates(m: uint32, q: real)
    requires m as real / 1000000.0 - q <= m as real / 1000000.0 / 9007199254740992.0
    requires q - m as real / 1000000.0 <= m as real / 1000000.0 / 9007199254740992.0
    requires m % 1_000_000 == 0 ==> q == m as real / 1000000.0
    ensures q.Floor == m / 1_000_000
  {
    var sec := m / 1_000_000;
    var rest := m % 1_000_000;
    var x := m as real / 1000000.0;
    assert x == sec as real + rest as real / 1000000.0;
    assert x / 9007199254740992.0 < 0.000001;
    if rest != 0 {
      assert 0.000001 <= rest as real / 1000000.0 <= 0.999999;
      assert sec as real < q < sec as real + 1.0;
    }
  }

  // ------------------------------------------------------------------ the clock

  /** One sleep: the clock when it was asked for, and the microseconds asked for. */
  datatype Nap = Nap(from: nat, micros: nat)

  /** What was asked of the sleeps, in order. */
  function Asked(naps: seq<Nap>): seq<nat>
  {
    seq(|naps|, k requires 0 <= k < |naps| => naps[k].micros)
  }

  /** A monotone microsecond clock, and the record of what happened on it.  Reading it, sleeping, locking and running a callback take
      an unknown time; it can show the same microsecond again only finitely often.  There are
      bounds that the operations usually keep, and every time one is exceeded counts as a jolt. */
  class Clock {
    var now: nat
    var repeats: nat
    const gap: nat      // a reading usually takes at most this long
    const over: nat     // a sleep usually ends at most this long after it was due
    const work: nat     // a callback usually takes at most this long
    ghost var naps: seq<Nap>
    ghost var readings: nat
    ghost var past: seq<L.Event>   // the record of callbacks and waits, up to the current task
    ghost var log: seq<L.Event>    // and its current page
    ghost var waits: nat           // the waits recorded on all pages
    ghost var jolts: nat

    constructor (now: nat, repeats: nat, gap: nat, over: nat, work: nat)
      requires gap > 0
      ensures this.now == now && this.gap == gap && this.over == over && this.work == work
      ensures naps == [] && readings == 0 && past == [] && log == [] && waits == 0 && jolts == 0
    {
      this.now, this.repeats, this.gap, this.over, this.work := now, repeats, gap, over, work;
      naps, readings, past, log, waits, jolts := [], 0, [], [], 0, 0;
    }

    ghost function Record(): (seq<L.Event>, seq<L.Event>, nat)
      reads this
    {
      (past, log, waits)
    }

    method GetTimeOfDay(t: Timeval)
      requires gap > 0
      modifies this, t
      ensures t.Normal() && t.Micros() == now && t.tvSec >= 0
      ensures old(now) <= now && naps == old(naps) && old(jolts) <= jolts
      ensures Record() == old(Record()) && readings == old(readings) + 1
      ensures jolts == old(jolts) ==> now <= old(now) + gap
      ensures now > old(now) || repeats < old(repeats)
    {
      var d: nat :| d >= 0;
      if d == 0 && repeats == 0 {
        d := 1;
      }
      if d == 0 {
        repeats := repeats - 1;
      } else {
        var k: nat := *;
        repeats := k;
      }
      Pass(d, gap);
      readings := readings + 1;
      t.Set(now / 1_000_000, now % 1_000_000);
    }

    /** Time passes, usually no more than the bound. */
    method Pass(d: nat, bound: nat)
      modifies this`now, this`jolts
      ensures now == old(now) + d
      ensures jolts == old(jolts) + if d > bound then 1 else 0
    {
      now := now + d;
      if d > bound {
        jolts := jolts + 1;
      }
    }

    method NanoSleep(sleeper: Timespec)
      requires sleeper.Normal() && sleeper.tvSec >= 0
      modifies this
      ensures old(now) * 1000 + sleeper.Nanos() <= now * 1000 && old(jolts) <= jolts
      ensures jolts == old(jolts) ==> now <= old(now) + (sleeper.Nanos() + 999) / 1000 + over
      ensures naps == old(naps) + [Nap(old(now), (sleeper.Nanos() + 999) / 1000)]
      ensures Record() == old(Record()) && readings == old(readings)
    {
      var micros := (sleeper.tvSec * 1_000_000_000 + sleeper.tvNsec + 999) / 1000;
      naps := naps + [Nap(now, micros)];
      now := now + micros;
      var late: nat :| late >= 0;
      Pass(late, over);
    }

    /** hiFunc, loFunc, endFunc or a custom callback. */
    method RunCallback(e: L.Event)
      requires !e.Wait?
      modifies this
      ensures old(now) <= now && naps == old(naps) && repeats == old(repeats) && old(jolts) <= jolts
      ensures past == old(past) && log == old(log) + [e] && waits == old(waits) && readings == old(readings)
      ensures jolts == old(jolts) ==> now <= old(now) + work
    {
      var d: nat :| d >= 0;
      Pass(d, work);
      log := log + [e];
    }

    /** A wait is over. */
    ghost method NoteWait(micros: nat)
      modifies this`log, this`waits
      ensures log == old(log) + [L.Event.Wait(micros)] && waits == old(waits) + 1
    {
      log, waits := log + [L.Event.Wait(micros)], waits + 1;
    }

    /** A new page of the record. */
    ghost method TurnPage()
      modifies this`past, this`log
      ensures past == old(past) + old(log) && log == []
    {
      past, log := past + log, [];
    }

    /** Locking takes no time, unless a controller holds the mutex. */
    method Lock()
      modifies this
      ensures Record() == old(Record()) && readings == old(readings)
      ensures old(now) <= now && naps == old(naps) && repeats == old(repeats) && old(jolts) <= jolts
      ensures jolts == old(jolts) ==> now == old(now)
    {
      var d: nat :| d >= 0;
      Pass(d, 0);
    }
  }

  // ------------------------------------------------------------------ waiting

  /** Read the clock until it reaches the end time; count the readings that came too early. */
  method Spin(clock: Clock, spinEnd: Timeval) returns (early: nat)
    requires clock.gap > 0 && spinEnd.Normal()
    modifies clock
    ensures clock.now >= spinEnd.Micros() && clock.naps == old(clock.naps) && clock.Record() == old(clock.Record())
    ensures clock.readings == old(clock.readings) + early + 1
    ensures clock.now >= old(clock.now) && clock.jolts >= old(clock.jolts)
    ensures clock.jolts == old(clock.jolts) ==>
              clock.now <= old(clock.now) + clock.gap || clock.now < spinEnd.Micros() + clock.gap
    ensures early > 0 ==> old(clock.now) < spinEnd.Micros()
  {
    var current := new Timeval(0, 0);
    early := 0;
    clock.GetTimeOfDay(current);
    var less := TimerLess(current, spinEnd);
    while less
      invariant current.Normal() && current.Micros() == clock.now
      invariant less <==> clock.now < spinEnd.Micros()
      invariant clock.now >= old(clock.now) && clock.naps == old(clock.naps)
      invariant clock.Record() == old(clock.Record()) && clock.readings == old(clock.readings) + early + 1
      invariant clock.jolts >= old(clock.jolts)
      invariant clock.jolts == old(clock.jolts) ==>
                  clock.now <= old(clock.now) + clock.gap || clock.now < spinEnd.Micros() + clock.gap
      invariant early > 0 ==> old(clock.now) < spinEnd.Micros()
      invariant spinEnd.Normal() && spinEnd.Micros() == old(spinEnd.Micros())
      decreases spinEnd.Micros() - clock.now, clock.repeats
    {
      early := early + 1;
      clock.GetTimeOfDay(current);
      less := TimerLess(current, spinEnd);
    }
  }

  /** Accuracy level 1.  It sleeps exactly once if it sleeps, and returns no earlier than the end
      time.  When it sleeps at least to the
      end time, which is what its callers ask, no reading comes too early: it never spins. */
  method WaitInline1(itSleeps: bool, sleeper: Timespec, spinEnd: Timeval, clock: Clock)
    returns (early: nat)
    requires clock.gap > 0 && spinEnd.Normal()
    requires itSleeps ==> sleeper.Normal() && sleeper.tvSec >= 0
    modifies clock
    ensures clock.now >= spinEnd.Micros() && clock.now >= old(clock.now) && clock.jolts >= old(clock.jolts)
    ensures clock.Record() == old(clock.Record()) && clock.readings == old(clock.readings) + early + 1
    ensures clock.naps == old(clock.naps)
                          + if itSleeps then [Nap(old(clock.now), (sleeper.Nanos() + 999) / 1000)] else []
    ensures itSleeps && old(clock.now) * 1000 + sleeper.Nanos() >= spinEnd.Micros() * 1000 ==> early == 0
    ensures clock.jolts == old(clock.jolts) ==>
              || clock.now <= old(clock.now) + clock.gap
                              + (if itSleeps then (sleeper.Nanos() + 999) / 1000 + clock.over else 0)
              || clock.now < spinEnd.Micros() + clock.gap
  {
    if itSleeps {
      clock.NanoSleep(sleeper);
    }
    early := Spin(clock, spinEnd);
  }

  /** The slack of a wait at accuracy level 2: two readings, and what a sleep overruns beyond
      the turnaround. */
  function Slack(clock: Clock, turnaround: nat): nat
  {
    2 * clock.gap + if clock.over > turnaround then clock.over - turnaround else 0
  }

  /** Accuracy level 2.  It returns no earlier than the end time and, without a jolt, at most the
      slack after the later of the end time and its own start.  It sleeps at most once, never past
      the end time less the turnaround, and never when that moment has passed; and it does sleep
      when that moment is further away than a reading of the clock takes. */
  method WaitInline2(itSleeps: bool, turnaround: Timeval, spinEnd: Timeval, clock: Clock)
    requires clock.gap > 0 && spinEnd.Normal() && turnaround.Normal() && turnaround.Micros() >= 0
    requires turnaround != spinEnd
    modifies clock
    ensures spinEnd.Micros() <= clock.now && old(clock.now) <= clock.now && old(clock.jolts) <= clock.jolts
    ensures clock.jolts == old(clock.jolts) ==>
              || clock.now <= old(clock.now) + Slack(clock, turnaround.Micros())
              || clock.now <= spinEnd.Micros() + Slack(clock, turnaround.Micros())
    ensures clock.naps == old(clock.naps)
         || (exists nap: Nap ::
               && clock.naps == old(clock.naps) + [nap]
               && itSleeps && nap.micros > 0 && nap.from >= old(clock.now)
               && nap.from + nap.micros == spinEnd.Micros() - turnaround.Micros())
    ensures itSleeps && clock.jolts == old(clock.jolts)
            && old(clock.now) + clock.gap < spinEnd.Micros() - turnaround.Micros() ==>
              |clock.naps| == |old(clock.naps)| + 1
    ensures clock.Record() == old(clock.Record())
  {
    if itSleeps {
      var sleepEnd := new Timeval(0, 0);
      var current := new Timeval(0, 0);
      TimerSub(spinEnd, turnaround, sleepEnd);
      clock.GetTimeOfDay(current);
      var less := TimerLess(current, sleepEnd);
      if less {
        TimerSub(sleepEnd, current, sleepEnd);
        var sleeper := new Timespec(sleepEnd.tvSec, sleepEnd.tvUsec * 1000);
        assert sleeper.Nanos() == 1000 * sleepEnd.Micros();
        clock.NanoSleep(sleeper);
      }
    }
    var _ := Spin(clock, spinEnd);
  }
}
