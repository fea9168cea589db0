/** The two descriptions of a task's timing, over the reals: microsecond ticks (delay, duration,
    number of pulses) and times (frequency, duty cycle, train duration). */
module Timing {

  import opened Words

  const MICRO: real := 1000000.0

  /** C's round, for values that are not negative. */
  function Round(x: real): int { (x + 0.5).Floor }

  /** The timing part of taskParams, and the word whose signals announce its changes. */
  datatype Task = Task(
    word: uint32,
    delay: uint32, dur: uint32, n: uint32,
    trainDur: real, freq: real, duty: real)

  /** Microseconds of one pulse. */
  function Period(freq: real): real
    requires freq > 0.0
  {
    MICRO / freq
  }

  function DelayOf(freq: real, duty: real): int
    requires freq > 0.0
  {
    Round(Period(freq) * (1.0 - duty))
  }

  function DurOf(freq: real, duty: real): int
    requires freq > 0.0
  {
    Round(Period(freq) * duty)
  }

  function PulsesOf(freq: real, trainDur: real): int
    requires freq > 0.0
  {
    Round(trainDur * MICRO / Period(freq))
  }

  /** Both descriptions describe the same task. */
  predicate Agree(t: Task)
  {
    && t.freq > 0.0 && 0.0 < t.duty <= 1.0 && t.trainDur >= 0.0
    && t.delay == DelayOf(t.freq, t.duty)
    && t.dur == DurOf(t.freq, t.duty)
    && t.n == PulsesOf(t.freq, t.trainDur)
  }

  // ------------------------------------------------------------------ the two conversions

  /** ticks2Times refuses a duration of 0, and leaving an infinite train that is running. */
  predicate TicksRefused(t: Task, dur: uint32, n: uint32)
  {
    dur == 0 || (t.n == 0 && n != 0 && Odd(t.word))
  }

  /** The sum of delay and duration is an unsigned sum; at 0 the division is not defined. */
  predicate TicksDefined(delay: uint32, dur: uint32)
  {
    Wrap(delay + dur) != 0
  }

  function WithTimes(t: Task, delay: uint32, dur: uint32, n: uint32): Task
    requires TicksDefined(delay, dur)
  {
    var sum := Wrap(delay + dur) as real;
    var pulseTime := sum / MICRO;
    t.(freq := 1.0 / pulseTime, trainDur := pulseTime * n as real, duty := dur as real / sum)
  }

  /** times2Ticks refuses a negative duration or frequency and a duty cycle outside (0, 1]. */
  predicate TimesRefused(freq: real, duty: real, trainDur: real)
  {
    trainDur < 0.0 || duty <= 0.0 || duty > 1.0 || freq < 0.0
  }

  /** It accepts frequency 0, and rounded values that no unsigned holds; neither is defined. */
  predicate TimesDefined(freq: real, duty: real, trainDur: real)
  {
    && freq > 0.0
    && 0 <= DelayOf(freq, duty) < WORD
    && 0 <= DurOf(freq, duty) < WORD
    && 0 <= PulsesOf(freq, trainDur) < WORD
  }

  function WithTicks(t: Task, freq: real, duty: real, trainDur: real): Task
    requires TimesDefined(freq, duty, trainDur)
  {
    t.(delay := DelayOf(freq, duty), dur := DurOf(freq, duty), n := PulsesOf(freq, trainDur))
  }

  /** What ticks2Times stores: pulses of that period, of that share high, for that long. */
  lemma TimesMean(t: Task, delay: uint32, dur: uint32, n: uint32)
    requires TicksDefined(delay, dur)
    ensures var u, sum := WithTimes(t, delay, dur, n), Wrap(delay + dur) as real;
            u.freq * sum == MICRO && u.trainDur * MICRO == n as real * sum && u.duty * sum == dur as real
  {
    var sum := Wrap(delay + dur) as real;
    MulDiv(dur as real, sum);
    var pulseTime := sum / MICRO;
    MulDiv(1.0, pulseTime);
    assert pulseTime * MICRO == sum;
    TimesMicro(pulseTime, n as real);
    FrequencyMeans(1.0 / pulseTime, pulseTime, sum);
  }

  lemma TimesMicro(pulseTime: real, n: real)
    ensures (pulseTime * n) * MICRO == n * (pulseTime * MICRO)
  {
  }

  lemma FrequencyMeans(freq: real, pulseTime: real, sum: real)
    requires freq * pulseTime == 1.0 && sum == pulseTime * MICRO
    ensures freq * sum == MICRO
  {
    assert freq * (pulseTime * MICRO) == (freq * pulseTime) * MICRO;
  }

  /** What times2Ticks stores: the nearest integers. */
  lemma TicksAreRounded(freq: real, duty: real, trainDur: real)
    requires freq > 0.0
    ensures -0.5 <= DelayOf(freq, duty) as real - MICRO / freq * (1.0 - duty) <= 0.5
    ensures -0.5 <= DurOf(freq, duty) as real - MICRO / freq * duty <= 0.5
    ensures -0.5 <= PulsesOf(freq, trainDur) as real - trainDur * MICRO / (MICRO / freq) <= 0.5
  {
    Nearest(MICRO / freq * (1.0 - duty));
    Nearest(MICRO / freq * duty);
    Nearest(trainDur * MICRO / (MICRO / freq));
  }

  lemma Nearest(x: real)
    ensures -0.5 <= Round(x) as real - x <= 0.5
  {
  }

  // ------------------------------------------------------------------ calls that change timing

  datatype Change =
    | Delay(us: uint32) | Dur(us: uint32) | Length(pulses: uint32)
    | Freq(hz: real) | TrainDur(sec: real) | Duty(fraction: real)
    | ArrayFreq(hz: real) | ArrayDuty(fraction: real)

  /** The program's arithmetic is defined for this call in this state. */
  predicate Defined(t: Task, c: Change)
  {
    match c
    case Delay(us) => TicksRefused(t, t.dur, t.n) || TicksDefined(us, t.dur)
    case Dur(us) => TicksRefused(t, us, t.n) || TicksDefined(t.delay, us)
    case Length(p) => TicksRefused(t, t.dur, p) || TicksDefined(t.delay, t.dur)
    case Freq(f) => TimesRefused(f, t.duty, t.trainDur) || TimesDefined(f, t.duty, t.trainDur)
    case TrainDur(s) => TimesRefused(t.freq, t.duty, s) || TimesDefined(t.freq, t.duty, s)
    case Duty(d) => TimesRefused(t.freq, d, t.trainDur) || TimesDefined(t.freq, d, t.trainDur)
    case ArrayFreq(f) => TimesRefused(f, t.duty, t.trainDur) || TimesDefined(f, t.duty, t.trainDur)
    case ArrayDuty(d) => TimesRefused(t.freq, d, t.trainDur) || TimesDefined(t.freq, d, t.trainDur)
  }

  /** The task after a method or an array end function, which ignores a refusal. */
  function After(t: Task, c: Change): Task
    requires Defined(t, c)
  {
    match c
    case Delay(us) =>
      if TicksRefused(t, t.dur, t.n) then t
      else WithTimes(t, us, t.dur, t.n).(delay := us, word := RaiseDelay(t.word))
    case Dur(us) =>
      if TicksRefused(t, us, t.n) then t
      else WithTimes(t, t.delay, us, t.n).(dur := us, word := RaiseDur(t.word))
    case Length(p) =>
      if TicksRefused(t, t.dur, p) then t
      else WithTimes(t, t.delay, t.dur, p).(n := p)
    case Freq(f) =>
      if TimesRefused(f, t.duty, t.trainDur) then t
      else WithTicks(t, f, t.duty, t.trainDur).(freq := f, word := RaiseBoth(t.word))
    case TrainDur(s) =>
      if TimesRefused(t.freq, t.duty, s) then t
      else WithTicks(t, t.freq, t.duty, s).(trainDur := s)
    case Duty(d) =>
      if TimesRefused(t.freq, d, t.trainDur) then t
      else WithTicks(t, t.freq, d, t.trainDur).(duty := d, word := RaiseBoth(t.word))
    case ArrayFreq(f) =>
      (if TimesRefused(f, t.duty, t.trainDur) then t else WithTicks(t, f, t.duty, t.trainDur))
        .(freq := f, word := RaiseBoth(t.word))
    case ArrayDuty(d) =>
      (if TimesRefused(t.freq, d, t.trainDur) then t else WithTicks(t, t.freq, d, t.trainDur))
        .(duty := d, word := RaiseBoth(t.word))
  }

  // ------------------------------------------------------------------ round trip over the reals

  lemma RoundNat(x: int)
    ensures Round(x as real) == x
  {
  }

  /** The period computed back from ticks is the number of ticks. */
  lemma PeriodOfTicks(sum: real)
    requires sum > 0.0
    ensures 1.0 / (sum / MICRO) > 0.0
    ensures Period(1.0 / (sum / MICRO)) == sum
  {
    var pulseTime := sum / MICRO;
    var freq := 1.0 / pulseTime;
    assert pulseTime > 0.0;
    assert freq * pulseTime == 1.0;
    assert MICRO == freq * sum by { assert sum == pulseTime * MICRO; }
  }

  lemma MulDiv(a: real, b: real)
    requires b != 0.0
    ensures b * (a / b) == a && (a * b) / b == a
  {
  }

  /** ticks2Times makes the two descriptions agree if and only if the sum of delay and duration
      fits an unsigned word. */
  lemma TicksAgreeExactly(t: Task, delay: uint32, dur: uint32, n: uint32)
    requires dur != 0 && TicksDefined(delay, dur)
    ensures Agree(WithTimes(t, delay, dur, n).(delay := delay, dur := dur, n := n)) <==> delay + dur < WORD
  {
    if delay + dur < WORD {
      TicksAgree(t, delay, dur, n);
    } else {
      assert Wrap(delay + dur) == delay + dur - WORD;
      Fraction(dur as real, Wrap(delay + dur) as real);
    }
  }

  lemma TicksAgree(t: Task, delay: uint32, dur: uint32, n: uint32)
    requires dur != 0 && TicksDefined(delay, dur) && delay + dur < WORD
    ensures Agree(WithTimes(t, delay, dur, n).(delay := delay, dur := dur, n := n))
  {
    var u := WithTimes(t, delay, dur, n);
    var sum := (delay + dur) as real;
    assert Wrap(delay + dur) == delay + dur;
    PeriodOfTicks(sum);
    BackToTicks(delay as real, dur as real, n as real, sum);
    Fraction(dur as real, sum);
    TicksOf(u.freq, u.duty, u.trainDur, sum, delay, dur, n);
  }

  lemma TicksOf(freq: real, duty: real, trainDur: real, sum: real, delay: int, dur: int, n: int)
    requires freq > 0.0 && sum > 0.0 && Period(freq) == sum
    requires sum * (1.0 - duty) == delay as real && sum * duty == dur as real
    requires trainDur * MICRO / sum == n as real
    ensures DelayOf(freq, duty) == delay && DurOf(freq, duty) == dur && PulsesOf(freq, trainDur) == n
  {
    RoundNat(delay);
    RoundNat(dur);
    RoundNat(n);
  }

  /** Undoing the divisions of ticks2Times. */
  lemma BackToTicks(delay: real, dur: real, n: real, sum: real)
    requires sum == delay + dur && sum > 0.0
    ensures sum * (dur / sum) == dur
    ensures sum * (1.0 - dur / sum) == delay
    ensures (sum / MICRO * n) * MICRO / sum == n
  {
    var q := dur / sum;
    MulDiv(dur, sum);
    assert sum * (1.0 - q) == sum - sum * q;
    Rescale(sum, n);
  }

  lemma Rescale(sum: real, n: real)
    requires sum > 0.0
    ensures (sum / MICRO * n) * MICRO / sum == n
  {
    var x := sum / MICRO;
    assert x * MICRO == sum;
    assert (x * n) * MICRO == n * (x * MICRO);
    assert n * sum / sum == n by { MulDiv(n, sum); }
  }

  /** A quotient of a smaller by a larger amount is at most 1, and the other way round. */
  lemma Fraction(a: real, b: real)
    requires b > 0.0 && a > 0.0
    ensures 0.0 < a / b && (a / b <= 1.0 <==> a <= b)
  {
    var q := a / b;
    assert q * b == a;
    if q > 1.0 { MulMono(b, 1.0, q); assert b * q == q * b; MulStrict(b, 1.0, q); }
    if q <= 1.0 { MulMono(b, q, 1.0); }
    if q <= 0.0 { MulMono(b, q, 0.0); }
  }

  lemma MulMono(a: real, x: real, y: real)
    requires a >= 0.0 && x <= y
    ensures a * x <= a * y
  {
    assert a * (y - x) >= 0.0;
  }

  /** A product with a small factor, named so that it can be added to others. */
  lemma MulIn(a: real, x: real, m: real) returns (ax: real)
    requires a >= 0.0 && -m <= x <= m
    ensures ax == a * x && -(a * m) <= ax <= a * m
  {
    MulMono(a, x, m);
    MulMono(a, -m, x);
    ax := a * x;
    assert a * (-m) == -(a * m);
  }

  lemma MulStrict(a: real, x: real, y: real)
    requires a > 0.0 && x < y
    ensures a * x < a * y
  {
    assert a * (y - x) > 0.0;
  }

  // ------------------------------------------------------------------ agreement, call by call

  /** What a caller can check before the call. */
  predicate KeepsAgreement(t: Task, c: Change)
  {
    match c
    case Delay(us) => TicksRefused(t, t.dur, t.n) || us + t.dur < WORD
    case Dur(us) => TicksRefused(t, us, t.n) || t.delay + us < WORD
    case Length(p) => TicksRefused(t, t.dur, p) || t.delay + t.dur < WORD
    case Freq(_) | TrainDur(_) | Duty(_) => true
    case ArrayFreq(f) => f >= 0.0
    case ArrayDuty(d) => 0.0 < d <= 1.0
  }

  /** From an agreeing state a call leaves an agreeing state if and only if it passes the check:
      no unsigned overflow, and no refused value from the array. */
  lemma ChangeAgreesExactly(t: Task, c: Change)
    requires Agree(t) && Defined(t, c)
    ensures Agree(After(t, c)) <==> KeepsAgreement(t, c)
  {
    match c
    case Delay(us) =>
      if !TicksRefused(t, t.dur, t.n) {
        TicksAgreeExactly(t, us, t.dur, t.n);
        AgreeIgnoresWord(WithTimes(t, us, t.dur, t.n).(delay := us, dur := t.dur, n := t.n), After(t, c));
      }
    case Dur(us) =>
      if !TicksRefused(t, us, t.n) {
        TicksAgreeExactly(t, t.delay, us, t.n);
        AgreeIgnoresWord(WithTimes(t, t.delay, us, t.n).(delay := t.delay, dur := us, n := t.n), After(t, c));
      }
    case Length(p) =>
      if !TicksRefused(t, t.dur, p) {
        TicksAgreeExactly(t, t.delay, t.dur, p);
        AgreeIgnoresWord(WithTimes(t, t.delay, t.dur, p).(delay := t.delay, dur := t.dur, n := p), After(t, c));
      }
    case _ =>
  }

  lemma AgreeIgnoresWord(t: Task, u: Task)
    requires u == t.(word := u.word)
    ensures Agree(u) == Agree(t)
  {
  }

  /** A sequence of calls, each defined and each passing its check. */
  ghost predicate Calls(t: Task, cs: seq<Change>, u: Task)
    decreases |cs|
  {
    if cs == [] then t == u
    else Defined(t, cs[0]) && KeepsAgreement(t, cs[0]) && Calls(After(t, cs[0]), cs[1..], u)
  }

  lemma {:induction false} AgreeAlways(t: Task, cs: seq<Change>, u: Task)
    requires Agree(t) && Calls(t, cs, u)
    ensures Agree(u)
    decreases |cs|
  {
    if cs != [] {
      ChangeAgreesExactly(t, cs[0]);
      AgreeAlways(After(t, cs[0]), cs[1..], u);
    }
  }

  /** The tick constructor, whose ticks2Times reads nPulses and doTask before they are set:
      whatever they hold, the object is refused or agrees. */
  lemma TickConstructorAgrees(junk: Task, delay: uint32, dur: uint32, n: uint32)
    requires delay + dur < WORD
    ensures TicksRefused(junk, dur, n)
         || Agree(WithTimes(junk, delay, dur, n).(delay := delay, dur := dur, n := n, word := 0))
  {
    if !TicksRefused(junk, dur, n) {
      TicksAgreeExactly(junk, delay, dur, n);
      AgreeIgnoresWord(WithTimes(junk, delay, dur, n).(delay := delay, dur := dur, n := n),
                       WithTimes(junk, delay, dur, n).(delay := delay, dur := dur, n := n, word := 0));
    }
  }

  /** modTrainDur rewrites delay and duration without raising a signal; between calls that is
      sound, because it writes the values they have. */
  lemma TrainDurKeepsTicks(t: Task, sec: real)
    requires Agree(t) && Defined(t, TrainDur(sec))
    ensures After(t, TrainDur(sec)).delay == t.delay && After(t, TrainDur(sec)).dur == t.dur
    ensures After(t, TrainDur(sec)).word == t.word
  {
  }

  /** Nothing in times2Ticks guards the kind of task: a new frequency turns a finite task into an
      infinite train exactly when less than half a pulse fits into the train duration. */
  lemma FreqMakesInfiniteExactly(t: Task, hz: real)
    requires Agree(t) && hz > 0.0 && Defined(t, Freq(hz))
    ensures After(t, Freq(hz)).n == 0 <==> t.trainDur * hz < 0.5
  {
    PulsesAreCycles(hz, t.trainDur);
  }

  /** The same for a new train duration. */
  lemma TrainDurMakesInfiniteExactly(t: Task, sec: real)
    requires Agree(t) && sec >= 0.0 && Defined(t, TrainDur(sec))
    ensures After(t, TrainDur(sec)).n == 0 <==> sec * t.freq < 0.5
  {
    PulsesAreCycles(t.freq, sec);
  }

  lemma PulsesAreCycles(freq: real, sec: real)
    requires freq > 0.0 && sec >= 0.0
    ensures PulsesOf(freq, sec) == Round(sec * freq)
    ensures sec * freq >= 0.0
  {
    var p := MICRO / freq;
    MulDiv(MICRO, freq);
    assert (sec * freq) * p == sec * MICRO by { assert freq * p == MICRO; }
    MulDiv(sec * freq, p);
    MulMono(sec, 0.0, freq);
  }

  // ------------------------------------------------------------------ quantisation

  function Dist(a: real, b: real): real { if a < b then b - a else a - b }

  lemma RoundNear(x: real)
    ensures Dist(Round(x) as real, x) <= 0.5
  {
  }

  /** Rounding to whole microseconds changes the period by at most one microsecond. */
  lemma PeriodWithin(t: Task)
    requires Agree(t)
    ensures Dist(t.delay as real + t.dur as real, Period(t.freq)) <= 1.0
  {
    var p := Period(t.freq);
    RoundNear(p * t.duty);
    RoundNear(p * (1.0 - t.duty));
    Parts(p, t.duty);
  }

  /** The duty cycle of the ticks is within half a microsecond's share of the one asked for. */
  lemma DutyWithin(t: Task)
    requires Agree(t) && t.delay + t.dur > 0
    ensures var sum := t.delay as real + t.dur as real;
            Dist(t.dur as real / sum, t.duty) <= 0.5 / sum
  {
    var p, e1, e2 := TickErrors(t);
    DutyBound(p, t.duty, e1, e2, t.dur as real, t.delay as real + t.dur as real);
  }

  lemma TickErrors(t: Task) returns (p: real, e1: real, e2: real)
    requires Agree(t)
    ensures -0.5 <= e1 <= 0.5 && -0.5 <= e2 <= 0.5
    ensures t.dur as real == p * t.duty + e1 && t.delay as real + t.dur as real == p + e1 + e2
  {
    p := Period(t.freq);
    e1 := RoundError(t.dur, p * t.duty);
    e2 := RoundError(t.delay, p * (1.0 - t.duty));
    Parts(p, t.duty);
  }

  /** How long the train lasts as its ticks are played, in microseconds. */
  function Lasts(t: Task): real
  {
    t.n as real * (t.delay as real + t.dur as real)
  }

  /** The realised train lasts as long as asked for, up to half a period and one microsecond
      for every pulse. */
  lemma TrainWithin(t: Task)
    requires Agree(t)
    ensures Dist(Lasts(t), MICRO * t.trainDur) <= Period(t.freq) / 2.0 + t.n as real
  {
    var p, n, sum, lasts := TrainErrors(t);
    TrainBound(p, t.trainDur, n, sum, lasts);
  }

  lemma TrainErrors(t: Task) returns (p: real, n: real, sum: real, lasts: real)
    requires Agree(t)
    ensures p == Period(t.freq) && n == t.n as real && lasts == Lasts(t) && lasts == n * sum
    ensures p > 0.0 && n >= 0.0 && Dist(sum, p) <= 1.0
    ensures Dist(n, t.trainDur * MICRO / p) <= 0.5
  {
    PeriodWithin(t);
    p, n, sum := Period(t.freq), t.n as real, t.delay as real + t.dur as real;
    lasts := n * sum;
    var e := RoundError(t.n, t.trainDur * MICRO / p);
  }

  lemma RoundError(i: int, x: real) returns (e: real)
    requires i == Round(x)
    ensures -0.5 <= e <= 0.5 && i as real == x + e
  {
    e := i as real - x;
  }

  lemma Parts(p: real, duty: real)
    ensures p * duty + p * (1.0 - duty) == p
  {
  }

  lemma DutyBound(p: real, duty: real, e1: real, e2: real, dur: real, sum: real)
    requires 0.0 < duty <= 1.0 && -0.5 <= e1 <= 0.5 && -0.5 <= e2 <= 0.5
    requires dur == p * duty + e1 && sum == p + e1 + e2 && sum > 0.0
    ensures Dist(dur / sum, duty) <= 0.5 / sum
  {
    MulDiv(dur, sum);
    var u := MulIn(1.0 - duty, e1, 0.5);
    var v := MulIn(duty, -e2, 0.5);
    Expand(p, duty, e1, e2);
    ScaleDown(dur / sum, duty, sum, u + v);
  }

  lemma Expand(p: real, duty: real, e1: real, e2: real)
    ensures (p * duty + e1) - duty * (p + e1 + e2) == (1.0 - duty) * e1 + duty * (-e2)
  {
  }

  lemma ScaleDown(q: real, duty: real, sum: real, gap: real)
    requires sum > 0.0 && sum * q - duty * sum == gap && -0.5 <= gap <= 0.5
    ensures Dist(q, duty) <= 0.5 / sum
  {
    MulDiv(q - duty, sum);
    assert (q - duty) * sum == gap;
    DivMono(gap, 0.5, sum);
    DivMono(-0.5, gap, sum);
    assert -0.5 / sum == -(0.5 / sum);
  }

  lemma DivMono(a: real, b: real, c: real)
    requires c > 0.0 && a <= b
    ensures a / c <= b / c
  {
    assert (b - a) / c >= 0.0;
  }

  lemma TrainBound(p: real, trainDur: real, n: real, sum: real, lasts: real)
    requires p > 0.0 && n >= 0.0 && Dist(sum, p) <= 1.0 && lasts == n * sum
    requires Dist(n, trainDur * MICRO / p) <= 0.5
    ensures Dist(lasts, MICRO * trainDur) <= p / 2.0 + n
  {
    var exact := trainDur * MICRO / p;
    MulDiv(trainDur * MICRO, p);
    var u := MulIn(p, n - exact, 0.5);
    var v := MulIn(n, sum - p, 1.0);
    SplitProduct(n, exact, p, sum - p);
    Regroup(n, p, sum);
    TrainSum(lasts, MICRO * trainDur, u, v, p, n);
  }

  lemma Regroup(n: real, p: real, sum: real)
    ensures n * (p + (sum - p)) == n * sum
  {
  }

  lemma TrainSum(got: real, want: real, u: real, v: real, p: real, n: real)
    requires got - want == u + v && -(p * 0.5) <= u <= p * 0.5 && -(n * 1.0) <= v <= n * 1.0
    ensures Dist(got, want) <= p / 2.0 + n
  {
  }

  lemma SplitProduct(n: real, exact: real, p: real, e: real)
    ensures n * (p + e) - p * exact == p * (n - exact) + n * e
  {
  }
}
