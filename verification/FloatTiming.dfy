/** The same two conversions in floating point.  Each operation of the program is the exact one
    followed by a rounding; of the roundings nothing is assumed but the bounds of binary32 and
    binary64 (section 4.3.1 of IEEE 754-2008) on 0 and on a range that lies well within the
    normal numbers of both, and that binary32 holds small integers exactly. */
module FloatTiming {

  import opened Words
  import opened Timing

  function Abs(x: real): real { if x < 0.0 then -x else x }

  /** 0, or between 10^-10 and 10^14: normal numbers in both formats, whose smallest normal
      numbers are 2^-126 and 2^-1022 and whose largest are near 2^128 and 2^1024. */
  predicate Normal(x: real) { x == 0.0 || 0.0000000001 <= Abs(x) <= 100000000000000.0 }

  /** So far from the ends of that range that a rounding stays inside. */
  predicate WellWithin(x: real) { x == 0.0 || 0.000000001 <= x <= 10000000000000.0 }

  /** Rounding to nearest in binary32. */
  ghost predicate IsFloat(fl: real -> real)
  {
    && (forall x: real :: Normal(x) ==> Abs(fl(x) - x) * 16777216.0 <= Abs(x))
    && (forall x: real :: 0.0 <= x <= 16777216.0 && x.Floor as real == x ==> fl(x) == x)
  }

  /** Rounding to nearest in binary64. */
  ghost predicate IsDouble(db: real -> real)
  {
    forall x: real :: Normal(x) ==> Abs(db(x) - x) * 9007199254740992.0 <= Abs(x)
  }

  /** The exact product, before it is rounded; named, because its rounding depends on it. */
  function Mul(x: real, y: real): real { x * y }

  /** The float fields of taskParams. */
  datatype Times = Times(freq: real, duty: real, trainDur: real)

  datatype Ticks = Ticks(delay: int, dur: int, n: int)

  function Ticks2Times(fl: real -> real, db: real -> real, t: Ticks): Times
    requires 0 < t.delay + t.dur
    requires fl(db(fl((t.delay + t.dur) as real) / MICRO)) != 0.0 && fl((t.delay + t.dur) as real) != 0.0
  {
    var sum := fl((t.delay + t.dur) as real);
    var pulseTime := fl(db(sum / MICRO));
    Times(fl(1.0 / pulseTime), fl(fl(t.dur as real) / sum), fl(Mul(pulseTime, fl(t.n as real))))
  }

  function Times2Ticks(fl: real -> real, db: real -> real, s: Times): Ticks
    requires s.freq != 0.0 && fl(db(MICRO / s.freq)) != 0.0
  {
    var pulseMicrosecs := fl(db(MICRO / s.freq));
    Ticks(Round(fl(Mul(pulseMicrosecs, fl(1.0 - s.duty)))),
          Round(fl(Mul(pulseMicrosecs, s.duty))),
          Round(db(db(Mul(s.trainDur, MICRO)) / pulseMicrosecs)))
  }

  // ------------------------------------------------------------------ relative errors

  /** x is y up to a relative error of e. */
  predicate Near(x: real, y: real, e: real)
  {
    y >= 0.0 && y * (1.0 - e) <= x <= y * (1.0 + e)
  }

  /** The error of one rounding, also of a double rounded again to a float. */
  const U: real := 0.00000006

  lemma FloatNear(fl: real -> real, x: real)
    requires IsFloat(fl) && x >= 0.0 && Normal(x)
    ensures Near(fl(x), x, U)
  {
    assert Abs(fl(x) - x) * 16777216.0 <= Abs(x);
  }

  lemma StoredNear(fl: real -> real, db: real -> real, x: real)
    requires IsFloat(fl) && IsDouble(db) && WellWithin(x)
    ensures Near(fl(db(x)), x, U) && Near(db(x), x, 0.000000000000001)
  {
    var d := db(x);
    assert Abs(d - x) * 9007199254740992.0 <= Abs(x);
    assert Abs(fl(d) - d) * 16777216.0 <= Abs(d);
  }

  lemma NearTrans(x: real, y: real, z: real, a: real, b: real, c: real)
    requires Near(x, y, a) && Near(y, z, b)
    requires 0.0 <= a <= 0.001 && 0.0 <= b <= 0.001 && a + b + a * b <= c
    ensures Near(x, z, c)
  {
    GrowUp(x, y, z, a, b, c);
    GrowDown(x, y, z, a, b, c);
  }

  lemma GrowUp(x: real, y: real, z: real, a: real, b: real, c: real)
    requires x <= y * (1.0 + a) && y <= z * (1.0 + b)
    requires z >= 0.0 && 0.0 <= a && 0.0 <= b && a + b + a * b <= c
    ensures x <= z * (1.0 + c)
  {
    var top := z * (1.0 + b);
    MulMono(1.0 + a, y, top);
    var ab := a * b;
    assert (1.0 + a) * top == z * (1.0 + a + b + ab);
    MulMono(z, 1.0 + a + b + ab, 1.0 + c);
  }

  lemma GrowDown(x: real, y: real, z: real, a: real, b: real, c: real)
    requires y * (1.0 - a) <= x && z * (1.0 - b) <= y
    requires z >= 0.0 && 0.0 <= a <= 1.0 && 0.0 <= b && a + b + a * b <= c
    ensures z * (1.0 - c) <= x
  {
    var bottom := z * (1.0 - b);
    MulMono(1.0 - a, bottom, y);
    var ab := a * b;
    assert ab >= 0.0 by { MulMono(a, 0.0, b); }
    assert (1.0 - a) * bottom == z * (1.0 - a - b + ab);
    MulMono(z, 1.0 - c, 1.0 - a - b + ab);
  }

  lemma NearMul(p: real, x: real, a: real, q: real, y: real, b: real, c: real)
    requires Near(p, x, a) && Near(q, y, b)
    requires 0.0 <= a <= 0.001 && 0.0 <= b <= 0.001 && a + b + a * b <= c
    ensures Near(p * q, x * y, c)
  {
    NearScale(p, x, a, y);
    NearNonneg(p, x, a);
    NearScale(q, y, b, p);
    NearTrans(p * q, p * y, x * y, b, a, c);
  }

  lemma NearNonneg(p: real, x: real, a: real)
    requires Near(p, x, a) && a <= 0.001
    ensures p >= 0.0
  {
    MulMono(x, 0.0, 1.0 - a);
  }

  lemma NearScale(p: real, x: real, a: real, k: real)
    requires Near(p, x, a) && k >= 0.0
    ensures Near(p * k, x * k, a) && Near(k * p, k * x, a)
  {
    MulMono(k, p, x * (1.0 + a));
    MulMono(k, x * (1.0 - a), p);
    assert k * (x * (1.0 + a)) == (x * k) * (1.0 + a);
    assert k * (x * (1.0 - a)) == (x * k) * (1.0 - a);
    assert k * x >= 0.0;
  }

  lemma NearRecip(q: real, y: real, b: real, c: real)
    requires Near(q, y, b) && y > 0.0 && 0.0 <= b <= 0.001 && b + 0.002 * b <= c <= 0.01
    ensures q > 0.0 && Near(1.0 / q, 1.0 / y, c)
  {
    MulStrict(y, 0.0, 1.0 - b);
    RecipCover(q, y, b, c);
    var r, s := 1.0 / q, 1.0 / y;
    Recip(q);
    Recip(y);
    FlipUp(q, y, r, s, c);
    FlipDown(q, y, r, s, c);
  }

  lemma Recip(q: real)
    requires q > 0.0
    ensures q * (1.0 / q) == 1.0 && 1.0 / q > 0.0
  {
  }

  lemma RecipCover(q: real, y: real, b: real, c: real)
    requires Near(q, y, b) && y > 0.0 && 0.0 <= b <= 0.001 && b + 0.002 * b <= c <= 0.01
    ensures y <= (1.0 + c) * q && (1.0 - c) * q <= y
  {
    RecipRoom(b, c);
    CoverUp(q, y, b, c);
    CoverDown(q, y, b, c);
  }

  lemma CoverUp(q: real, y: real, b: real, c: real)
    requires y * (1.0 - b) <= q && y > 0.0 && c >= 0.0 && 1.0 <= (1.0 - b) * (1.0 + c)
    ensures y <= (1.0 + c) * q
  {
    MulMono(1.0 + c, y * (1.0 - b), q);
    MulMono(y, 1.0, (1.0 - b) * (1.0 + c));
    assert (1.0 + c) * (y * (1.0 - b)) == y * ((1.0 - b) * (1.0 + c));
  }

  lemma CoverDown(q: real, y: real, b: real, c: real)
    requires q <= y * (1.0 + b) && y > 0.0 && c <= 1.0 && (1.0 + b) * (1.0 - c) <= 1.0
    ensures (1.0 - c) * q <= y
  {
    MulMono(1.0 - c, q, y * (1.0 + b));
    MulMono(y, (1.0 + b) * (1.0 - c), 1.0);
    assert (1.0 - c) * (y * (1.0 + b)) == y * ((1.0 + b) * (1.0 - c));
  }

  lemma RecipRoom(b: real, c: real)
    requires 0.0 <= b <= 0.001 && b + 0.002 * b <= c <= 0.01
    ensures 1.0 <= (1.0 - b) * (1.0 + c) && (1.0 + b) * (1.0 - c) <= 1.0
  {
    var bc := b * c;
    MulMono(b, c, 0.01);
    MulMono(c, b, 0.001);
    assert c * b == bc;
    assert (1.0 - b) * (1.0 + c) == 1.0 - b + c - bc;
    assert (1.0 + b) * (1.0 - c) == 1.0 + b - c - bc;
    assert bc <= 0.001 * c;
    assert bc >= 0.0 by { MulMono(b, 0.0, c); }
  }

  lemma FlipUp(q: real, y: real, r: real, s: real, c: real)
    requires q * r == 1.0 && y * s == 1.0 && r > 0.0 && s > 0.0
    requires y <= (1.0 + c) * q
    ensures r <= s * (1.0 + c)
  {
    MulMono(r * s, y, (1.0 + c) * q);
    assert (r * s) * y == r * (y * s);
    assert (r * s) * ((1.0 + c) * q) == (s * (1.0 + c)) * (q * r);
  }

  lemma FlipDown(q: real, y: real, r: real, s: real, c: real)
    requires q * r == 1.0 && y * s == 1.0 && r > 0.0 && s > 0.0
    requires (1.0 - c) * q <= y
    ensures s * (1.0 - c) <= r
  {
    MulMono(r * s, (1.0 - c) * q, y);
    assert (r * s) * y == r * (y * s);
    assert (r * s) * ((1.0 - c) * q) == (s * (1.0 - c)) * (q * r);
  }

  lemma NearRounds(x: real, i: int, e: real)
    requires Near(x, i as real, e) && 0 <= i <= 1048576 && 0.0 <= e <= 0.00000045
    ensures Round(x) == i
  {
    var y := i as real;
    var ye := MulIn(y, e, 0.00000045);
    assert y * (1.0 + e) == y + ye && y * (1.0 - e) == y - ye;
    RoundWithin(x, i);
  }

  lemma RoundWithin(x: real, i: int)
    requires i as real - 0.5 < x < i as real + 0.5
    ensures Round(x) == i
  {
  }

  // ------------------------------------------------------------------ the round trip

  predicate InReach(t: Ticks)
  {
    t.dur >= 1 && t.delay >= 0 && t.delay + t.dur <= 1048576 && 0 <= t.n <= 1048576
  }

  lemma NearPositive(x: real, y: real, e: real)
    requires Near(x, y, e) && y > 0.0 && e <= 0.001
    ensures x > 0.0
  {
    MulStrict(y, 0.0, 1.0 - e);
  }

  lemma DoubleNear(db: real -> real, x: real)
    requires IsDouble(db) && WellWithin(x)
    ensures Near(db(x), x, 0.000000000000001)
  {
    assert Abs(db(x) - x) * 9007199254740992.0 <= Abs(x);
  }

  lemma NearNormal(w: real, z: real, c: real)
    requires Near(w, z, c) && 0.0 <= c <= 0.001 && WellWithin(z)
    ensures Normal(w) && w >= 0.0
  {
    var zc := MulIn(z, c, 0.001);
    Distribute(z, c);
    assert z - zc <= w <= z + zc;
    var part := z * 0.001;
    assert -part <= zc <= part && 0.0 <= part <= 0.001 * 10000000000000.0;
    assert part == z / 1000.0;
  }

  lemma Distribute(z: real, c: real)
    ensures z * (1.0 + c) == z + z * c && z * (1.0 - c) == z - z * c
  {
  }

  /** A stored product of two stored values. */
  lemma ProductStored(fl: real -> real, p: real, x: real, a: real, q: real, y: real, b: real, c: real, d: real, z: real)
    requires IsFloat(fl) && Near(p, x, a) && Near(q, y, b) && z == x * y && WellWithin(z)
    requires 0.0 <= a <= 0.0001 && 0.0 <= b <= 0.0001 && 0.0 <= c <= 0.001
    requires a + b + a * b <= c && U + c + U * c <= d
    ensures Near(fl(Mul(p, q)), z, d)
  {
    NearMul(p, x, a, q, y, b, c);
    var w := Mul(p, q);
    NearNormal(w, z, c);
    FloatNear(fl, w);
    NearTrans(fl(w), w, z, U, c, d);
  }

  // pulseTime, trainFrequency and pulseMicrosecs, one after the other

  lemma PulseTimeStored(fl: real -> real, db: real -> real, sum: real) returns (pt: real)
    requires IsFloat(fl) && IsDouble(db) && 1.0 <= sum <= 1048576.0
    ensures 0.0000009 <= pt <= 1.1
    ensures pt == fl(db(sum / MICRO)) && pt > 0.0 && Near(MICRO * pt, sum, U) && MICRO * pt > 0.0
  {
    var exact := sum / MICRO;
    pt := fl(db(exact));
    StoredNear(fl, db, exact);
    NearPositive(pt, exact, U);
    NearScale(pt, exact, U, MICRO);
  }

  lemma FrequencyStored(fl: real -> real, pt: real) returns (f: real)
    requires IsFloat(fl) && 0.0000009 <= pt <= 1.1
    ensures f == fl(1.0 / pt) && f > 0.0 && Near(1.0 / f, pt, 0.0000000602)
  {
    Recip(pt);
    var inverse := 1.0 / pt;
    f := fl(inverse);
    InverseNormal(pt, inverse);
    FloatNear(fl, inverse);
    NearRecip(f, inverse, U, 0.0000000602);
    RecipTwice(pt);
  }

  lemma InverseNormal(pt: real, inverse: real)
    requires 0.0000009 <= pt <= 1.1 && pt * inverse == 1.0 && inverse > 0.0
    ensures Normal(inverse)
  {
    MulMono(inverse, 0.0000009, pt);
    MulMono(inverse, pt, 1.1);
    assert inverse * pt == pt * inverse;
  }

  lemma RecipTwice(x: real)
    requires x > 0.0
    ensures 1.0 / x > 0.0 && 1.0 / (1.0 / x) == x
  {
  }

  lemma PeriodStored(fl: real -> real, db: real -> real, f: real, pt: real) returns (pm: real)
    requires IsFloat(fl) && IsDouble(db) && f > 0.0 && Near(1.0 / f, pt, 0.0000000602) && 0.0000009 <= pt <= 1.1
    ensures pm == fl(db(MICRO / f)) && pm > 0.0 && Near(pm, MICRO * pt, 0.0000001203)
  {
    NearScale(1.0 / f, pt, 0.0000000602, MICRO);
    Quotient(MICRO, f);
    var x, base := MICRO / f, MICRO * pt;
    NearNonneg(x, base, 0.0000000602);
    pm := fl(db(x));
    StoredNear(fl, db, x);
    NearTrans(pm, x, base, U, 0.0000000602, 0.0000001203);
    NearPositive(pm, base, 0.0000001203);
  }

  lemma Quotient(a: real, b: real)
    requires b > 0.0
    ensures a / b == a * (1.0 / b)
  {
  }

  /** The duration comes back. */
  lemma DurBack(fl: real -> real, pm: real, sum: real, dur: int, share: real)
    requires IsFloat(fl) && Near(pm, sum, 0.0000001804) && sum > 0.0 && 1 <= dur <= 1048576
    requires 0.0000009 <= share <= 1.0 && sum * share == dur as real
    ensures Round(fl(Mul(pm, fl(share)))) == dur
  {
    FloatNear(fl, share);
    ProductStored(fl, pm, sum, 0.0000001804, fl(share), share, U, 0.0000002405, 0.00000031, dur as real);
    NearRounds(fl(Mul(pm, fl(share))), dur, 0.00000031);
  }

  /** The number of pulses comes back. */
  lemma PulsesBack(fl: real -> real, db: real -> real, pt: real, pm: real, n: int)
    requires IsFloat(fl) && IsDouble(db) && 0.0000009 <= pt <= 1.1 && pm > 0.0 && MICRO * pt > 0.0
    requires Near(pm, MICRO * pt, 0.0000001203) && 0 <= n <= 1048576
    ensures Round(db(db(Mul(fl(Mul(pt, n as real)), MICRO)) / pm)) == n
  {
    var m := n as real;
    var a := TrainStored(fl, db, pt, m);
    TrainOverPeriod(a, pm, MICRO * pt, m);
    QuotientRounds(db, a / pm, n);
  }

  /** The stored train duration over the stored period is the number of pulses, nearly. */
  lemma TrainOverPeriod(a: real, pm: real, base: real, m: real)
    requires base > 0.0 && pm > 0.0 && Near(pm, base, 0.0000001203) && Near(a, base * m, 0.0000000601)
    ensures Near(a / pm, m, 0.0000001808)
  {
    NearRecip(pm, base, 0.0000001203, 0.0000001206);
    NearMul(a, base * m, 0.0000000601, 1.0 / pm, 1.0 / base, 0.0000001206, 0.0000001808);
    Cancel(base, m);
    Quotient(a, pm);
  }

  lemma TrainStored(fl: real -> real, db: real -> real, pt: real, m: real) returns (a: real)
    requires IsFloat(fl) && IsDouble(db) && 0.0000009 <= pt <= 1.1 && (m == 0.0 || 1.0 <= m <= 1048576.0)
    ensures a == db(Mul(fl(Mul(pt, m)), MICRO)) && Near(a, (MICRO * pt) * m, 0.0000000601)
  {
    var product := Mul(pt, m);
    MulMono(pt, 0.0, m);
    TrainNormal(pt, m);
    FloatNear(fl, product);
    Reorder(pt, m);
    a := ScaledStored(db, fl(product), product, (MICRO * pt) * m);
  }

  lemma TrainNormal(pt: real, m: real)
    requires 0.0000009 <= pt <= 1.1 && (m == 0.0 || 1.0 <= m <= 1048576.0)
    ensures pt * m == 0.0 || 0.0000009 <= pt * m <= 1153434.0
  {
    if m == 0.0 {
      assert pt * 0.0 == 0.0;
    } else {
      var low, high := 0.0000009, 1.1;
      MulMono(m, low, pt);
      MulMono(m, pt, high);
      assert low <= m * low && m * high <= 1153434.0;
      assert m * pt == pt * m;
    }
  }

  lemma Reorder(pt: real, m: real)
    ensures (pt * m) * MICRO == (MICRO * pt) * m
  {
  }

  lemma ScaledStored(db: real -> real, train: real, product: real, target: real) returns (a: real)
    requires IsDouble(db) && Near(train, product, U) && target == product * MICRO
    requires product == 0.0 || 0.0000009 <= product <= 1153434.0
    ensures a == db(Mul(train, MICRO)) && Near(a, target, 0.0000000601)
  {
    NearScale(train, product, U, MICRO);
    var scaled := Mul(train, MICRO);
    NearNonneg(scaled, target, U);
    a := db(scaled);
    DoubleNear(db, scaled);
    NearTrans(a, scaled, target, 0.000000000000001, U, 0.0000000601);
  }

  lemma QuotientRounds(db: real -> real, q: real, n: int)
    requires IsDouble(db) && 0 <= n <= 1048576 && Near(q, n as real, 0.0000001808)
    ensures Round(db(q)) == n
  {
    NearNonneg(q, n as real, 0.0000001808);
    DoubleNear(db, q);
    NearTrans(db(q), q, n as real, 0.000000000000001, 0.0000001808, 0.000000181);
    NearRounds(db(q), n, 0.000000181);
  }

  lemma Cancel(base: real, m: real)
    requires base > 0.0
    ensures (base * m) * (1.0 / base) == m
  {
    Recip(base);
    assert (base * m) * (1.0 / base) == m * (base * (1.0 / base));
  }

  /** The delay comes back: its share is a difference, so its error is absolute. */
  lemma DelayBack(fl: real -> real, pm: real, sum: real, delay: int, share: real, low: real)
    requires IsFloat(fl) && 1 <= delay && 2.0 <= sum <= 1048576.0 && delay as real <= sum
    requires Near(pm, sum, 0.0000001804)
    requires 0.0000009 <= share <= 1.0 && 0.0000009 <= low <= 1.0 && share + low == 1.0
    requires sum * low == delay as real
    ensures Round(fl(Mul(pm, fl(1.0 - fl(share))))) == delay
  {
    var y := LowShare(fl, share, low);
    LowProduct(pm, sum, delay as real, low, y);
    LowRounds(fl, Mul(pm, y), delay);
  }

  lemma LowRounds(fl: real -> real, w: real, delay: int)
    requires IsFloat(fl) && 0.0 <= w && -0.28 <= w - delay as real <= 0.28 && 1 <= delay <= 1048576
    ensures Round(fl(w)) == delay
  {
    FloatNear(fl, w);
    assert w * (1.0 + U) <= w + 0.07 && w - 0.07 <= w * (1.0 - U);
    RoundWithin(fl(w), delay);
  }

  /** One minus the stored duty cycle, stored. */
  lemma LowShare(fl: real -> real, share: real, low: real) returns (y: real)
    requires IsFloat(fl) && 0.0000009 <= share <= 1.0 && 0.0000009 <= low <= 1.0 && share + low == 1.0
    ensures y == fl(1.0 - fl(share))
    ensures -0.0000000601 <= y - low <= 0.0000000601 && 0.0 <= y <= 1.1
  {
    FloatNear(fl, share);
    var z := 1.0 - fl(share);
    assert -U * share <= z - low <= U * share;
    FloatNear(fl, z);
    y := fl(z);
    assert z * (1.0 - U) <= y <= z * (1.0 + U);
  }

  lemma LowProduct(pm: real, sum: real, delay: real, low: real, y: real)
    requires Near(pm, sum, 0.0000001804) && 2.0 <= sum <= 1048576.0 && 0.0 <= delay <= sum
    requires sum * low == delay
    requires -0.0000000601 <= y - low <= 0.0000000601 && 0.0 <= y <= 1.1
    ensures -0.28 <= pm * y - delay <= 0.28 && pm * y >= 0.0
  {
    var sd := MulIn(sum, y - low, 0.0000000601);
    var m := 0.0000001804 * sum;
    var ey := MulIn(y, pm - sum, m);
    var my := MulIn(m, y, 1.1);
    assert pm * y - delay == sd + ey by { SplitError(pm, sum, low, y); }
    assert y * m == my;
    Total(sum, sd, ey, my);
    NearNonneg(pm, sum, 0.0000001804);
    MulMono(pm, 0.0, y);
  }

  lemma SplitError(pm: real, sum: real, low: real, y: real)
    ensures pm * y - sum * low == sum * (y - low) + y * (pm - sum)
  {
  }

  lemma Total(sum: real, sd: real, ey: real, my: real)
    requires 2.0 <= sum <= 1048576.0
    requires -(sum * 0.0000000601) <= sd <= sum * 0.0000000601
    requires -my <= ey <= my && my <= 0.0000001804 * sum * 1.1
    ensures -0.28 <= sd + ey <= 0.28
  {
  }

  lemma Shares(delay: int, dur: int) returns (sum: real, share: real, low: real)
    requires 0 <= delay && 1 <= dur && delay + dur <= 1048576
    ensures sum == (delay + dur) as real && sum > 0.0 && share == dur as real / sum && low == delay as real / sum
    ensures share + low == 1.0 && 0.0000009 <= share <= 1.0
    ensures sum * share == dur as real && sum * low == delay as real
    ensures delay >= 1 ==> 0.0000009 <= low <= 1.0
    ensures delay == 0 ==> share == 1.0
  {
    sum := (delay + dur) as real;
    share, low := dur as real / sum, delay as real / sum;
    MulDiv(delay as real, sum);
    MulDiv(dur as real, sum);
    MulDiv(1.0, sum);
    DivMono(0.0000009 * sum, dur as real, sum);
    MulDiv(0.0000009, sum);
    DivMono(dur as real, sum, sum);
    ShareSum(delay as real, dur as real, sum);
    if delay >= 1 {
      DivMono(delay as real, sum, sum);
      DivMono(0.0000009 * sum, delay as real, sum);
      MulDiv(0.0000009, sum);
    }
  }

  lemma ShareSum(delay: real, dur: real, sum: real)
    requires sum == delay + dur && sum > 0.0
    ensures dur / sum + delay / sum == 1.0
  {
    assert dur / sum + delay / sum == sum / sum;
  }

  /** The original integers come back from the float fields, through every rounding: for
      duration at least 1, period at most 2^20 microseconds and at most 2^20 pulses. */
  lemma FloatRoundTrip(fl: real -> real, db: real -> real, t: Ticks)
    requires IsFloat(fl) && IsDouble(db) && InReach(t)
    ensures fl((t.delay + t.dur) as real) != 0.0 && fl(db(fl((t.delay + t.dur) as real) / MICRO)) != 0.0
    ensures var s := Ticks2Times(fl, db, t);
            s.freq != 0.0 && fl(db(MICRO / s.freq)) != 0.0 && Times2Ticks(fl, db, s) == t
  {
    var sum, share, low := Shares(t.delay, t.dur);
    ExactIntegers(fl, t);
    var pt := PulseTimeStored(fl, db, sum);
    var f := FrequencyStored(fl, pt);
    var pm := PeriodStored(fl, db, f, pt);
    var s := Times(f, fl(share), fl(Mul(pt, t.n as real)));
    assert Ticks2Times(fl, db, t) == s;
    TicksBack(fl, db, t, sum, share, low, pt, pm);
    assert Times2Ticks(fl, db, s) == t;
  }

  lemma TicksBack(fl: real -> real, db: real -> real, t: Ticks, sum: real, share: real, low: real, pt: real, pm: real)
    requires IsFloat(fl) && IsDouble(db) && InReach(t)
    requires sum == (t.delay + t.dur) as real && share + low == 1.0 && 0.0000009 <= share <= 1.0
    requires sum * share == t.dur as real && sum * low == t.delay as real
    requires t.delay >= 1 ==> 0.0000009 <= low <= 1.0
    requires t.delay == 0 ==> share == 1.0
    requires 0.0000009 <= pt <= 1.1 && pm > 0.0 && MICRO * pt > 0.0 && Near(MICRO * pt, sum, U)
    requires Near(pm, MICRO * pt, 0.0000001203)
    ensures Round(fl(Mul(pm, fl(1.0 - fl(share))))) == t.delay
    ensures Round(fl(Mul(pm, fl(share)))) == t.dur
    ensures Round(db(db(Mul(fl(Mul(pt, t.n as real)), MICRO)) / pm)) == t.n
  {
    NearTrans(pm, MICRO * pt, sum, 0.0000001203, U, 0.0000001804);
    DurBack(fl, pm, sum, t.dur, share);
    PulsesBack(fl, db, pt, pm, t.n);
    if t.delay == 0 {
      NoDelayBack(fl, pm);
    } else {
      DelayBack(fl, pm, sum, t.delay, share, low);
    }
  }

  lemma ExactIntegers(fl: real -> real, t: Ticks)
    requires IsFloat(fl) && InReach(t)
    ensures fl((t.delay + t.dur) as real) == (t.delay + t.dur) as real
    ensures fl(t.dur as real) == t.dur as real && fl(t.n as real) == t.n as real
  {
  }

  /** A duty cycle of 1 leaves no delay at all. */
  lemma NoDelayBack(fl: real -> real, pm: real)
    requires IsFloat(fl)
    ensures Round(fl(Mul(pm, fl(1.0 - fl(1.0))))) == 0
  {
    assert fl(1.0) == 1.0 && fl(0.0) == 0.0;
    assert Mul(pm, 0.0) == 0.0;
  }

  // ------------------------------------------------------------------ without rounding

  /** With roundings that change nothing these are the conversions over the reals. */
  lemma WithoutRounding(t: Task, delay: uint32, dur: uint32, n: uint32, s: Times)
    requires 0 < delay + dur < WORD && s.freq > 0.0 && MICRO / s.freq != 0.0
    ensures var exact := x => x;
            var u := WithTimes(t, delay, dur, n);
            && exact(exact(exact((delay + dur) as real) / MICRO)) != 0.0 && exact((delay + dur) as real) != 0.0
            && Ticks2Times(exact, exact, Ticks(delay, dur, n)) == Times(u.freq, u.duty, u.trainDur)
            && Times2Ticks(exact, exact, s) ==
               Ticks(DelayOf(s.freq, s.duty), DurOf(s.freq, s.duty), PulsesOf(s.freq, s.trainDur))
  {
    TimesWithoutRounding(t, delay, dur, n);
    TicksWithoutRounding(s);
  }

  lemma TimesWithoutRounding(t: Task, delay: uint32, dur: uint32, n: uint32)
    requires 0 < delay + dur < WORD
    ensures var exact := x => x;
            var u := WithTimes(t, delay, dur, n);
            && exact(exact(exact((delay + dur) as real) / MICRO)) != 0.0
            && Ticks2Times(exact, exact, Ticks(delay, dur, n)) == Times(u.freq, u.duty, u.trainDur)
  {
    assert Wrap(delay + dur) == delay + dur;
  }

  lemma TicksWithoutRounding(s: Times)
    requires s.freq > 0.0 && MICRO / s.freq != 0.0
    ensures var exact := x => x;
            Times2Ticks(exact, exact, s) ==
            Ticks(DelayOf(s.freq, s.duty), DurOf(s.freq, s.duty), PulsesOf(s.freq, s.trainDur))
  {
  }
}
