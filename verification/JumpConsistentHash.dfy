/**
 The jump consistent hash of packages/common/src/ciphers/jump-consistent-hash.ts.

 The loop keeps a key state and two bucket numbers. The step of the state leaves its `+ 1` outside
 the reduction modulo 2^64, so the state may be exactly 2^64, where the published algorithm wraps to 0.
 From that state one iteration makes no progress.

 Every definition takes the division as a parameter: `EXACT` is integer division, `Rounded(fl)` is
 the floor of a floating-point quotient rounded by `fl`, which is what the source computes.
 */
module JumpConsistentHash {

  const TWO22: int := 0x40_0000
  const TWO31: int := 0x8000_0000
  const TWO33: int := 0x2_0000_0000
  const TWO53: int := 0x20_0000_0000_0000
  const TWO64: int := 0x1_0000_0000_0000_0000
  const MULTIPLIER: int := 2862933555777941757

  type Division = (int, int) -> int

  /** Integer division; both arguments are positive where the loop divides. */
  const EXACT: Division := (x: int, y: int) => if y > 0 then x / y else 0

  /** The floor of the rounded quotient. */
  function Rounded(fl: real -> real): Division
  {
    (x: int, y: int) => if y > 0 then fl(x as real / y as real).Floor else 0
  }

  /** One step of the state: reduce, then add one. */
  function NextState(state: nat): (r: nat)
    ensures 1 <= r <= TWO64
  {
    state * MULTIPLIER % TWO64 + 1
  }

  /** The next candidate bucket after bucket b, drawn from the new state. */
  function Jump(divide: Division, b: int, state: nat): int
  {
    divide((b + 1) * TWO31, state / TWO33 + 1)
  }

  // ----- What a division must satisfy for the loop to make sense -----

  predicate Covers(n: int, x: int, y: int) { n * y <= x }

  /** The division never falls below an integer (representable as a double) that the true quotient reaches. */
  ghost predicate Admissible(divide: Division)
  {
    forall x: int, y: int, n: int {:trigger Covers(n, x, y), divide(x, y)} ::
      y > 0 && 0 <= n <= TWO53 && Covers(n, x, y) ==> n <= divide(x, y)
  }

  lemma ExactIsAdmissible()
    ensures Admissible(EXACT)
  {
    forall x: int, y: int, n: int | y > 0 && 0 <= n <= TWO53 && Covers(n, x, y)
      ensures n <= EXACT(x, y)
    {
      QuotientAtLeast(x, y, n);
    }
  }

  lemma CancelFactor(a: int, b: int, y: int)
    requires y > 0 && a * y < b * y
    ensures a < b
  {
  }

  lemma QuotientAtLeast(x: int, y: int, n: int)
    requires y > 0 && n * y <= x
    ensures n <= x / y
  {
    assert x == x / y * y + x % y;
    assert n * y < (x / y + 1) * y;
    CancelFactor(n, x / y + 1, y);
  }

  lemma QuotientBelow(x: int, y: int, n: int)
    requires y > 0 && x < n * y
    ensures x / y < n
  {
    assert x == x / y * y + x % y;
    CancelFactor(x / y, n, y);
  }

  /** Every jump makes progress, except out of the unreduced state 2^64, and no jump goes back. */
  lemma JumpProgress(divide: Division, b: int, state: nat)
    requires Admissible(divide) && 0 <= b <= TWO31
    requires state <= TWO64
    ensures state < TWO64 ==> b + 1 <= Jump(divide, b, state)
    ensures b <= Jump(divide, b, state)
  {
    var y := state / TWO33 + 1;
    if state < TWO64 {
      assert y <= TWO31;
      assert (b + 1) * y <= (b + 1) * TWO31;
      assert Covers(b + 1, (b + 1) * TWO31, y);
    } else {
      assert Covers(b, (b + 1) * TWO31, y);
    }
  }

  /** The unreduced state is followed by the state 1. */
  lemma AfterUnreduced()
    ensures NextState(TWO64) == 1
  {
    assert TWO64 * MULTIPLIER == MULTIPLIER * TWO64 + 0;
    MultipleVanishes(MULTIPLIER, 0);
  }

  lemma MultipleVanishes(q: int, r: int)
    ensures (q * TWO64 + r) % TWO64 == r % TWO64
  {
    assert (q * TWO64 + r) / TWO64 == q + r / TWO64;
  }

  // ----- The loop -----

  /**
   The bucket the loop returns when its head is reached with this state and these j and b.
   The measure is lexicographic: j grows, or it stays and the state becomes 2^64.
   */
  function Run(divide: Division, state: nat, j: int, b: int, buckets: int): (r: int)
    requires Admissible(divide) && 0 <= j && buckets <= TWO31
    ensures j < buckets ==> j <= r < buckets
    ensures buckets <= j ==> r == b
    decreases buckets - j, if state == TWO64 then 0 else 1
  {
    if j >= buckets then b
    else
      var s := NextState(state);
      JumpProgress(divide, j, s);
      AfterUnreduced();
      Run(divide, s, Jump(divide, j, s), j, buckets)
  }

  function Bucket(divide: Division, key: nat, buckets: int): int
    requires Admissible(divide) && buckets <= TWO31
  {
    Run(divide, key, 0, -1, buckets)
  }

  /**
   The imperative loop, in floating point rounded by fl. It terminates, returns a bucket in range
   (or -1 when there are none), and up to 2^22 buckets returns what exact arithmetic and the
   published listing return.
   */
  method GetBucket(key: nat, buckets: int, fl: real -> real) returns (bucket: int)
    requires RoundsToNearest(fl)
    requires buckets <= TWO31
    ensures Admissible(Rounded(fl)) && bucket == Bucket(Rounded(fl), key, buckets)
    ensures if buckets >= 1 then 0 <= bucket < buckets else bucket == -1
    ensures buckets <= TWO22 ==> bucket == PaperBucket(key % TWO64, buckets)
  {
    RoundedIsAdmissible(fl);
    var keyState: nat := key;
    var b := -1;
    var j := 0;
    while j < buckets
      invariant 0 <= j
      invariant Bucket(Rounded(fl), key, buckets) == Run(Rounded(fl), keyState, j, b, buckets)
      decreases buckets - j, if keyState == TWO64 then 0 else 1
    {
      b := j;
      JumpProgress(Rounded(fl), b, NextState(keyState));
      AfterUnreduced();
      keyState := NextState(keyState);
      j := Jump(Rounded(fl), b, keyState);
    }
    bucket := b;
    RoundedSameAsPaper(fl, key, buckets);
  }

  // ----- Consistency -----

  /**
   Growing the number of buckets from n to m moves a key either nowhere or to a new bucket:
   the sequence of jumps does not depend on the number of buckets and never decreases.
   */
  lemma Consistency(divide: Division, key: nat, n: int, m: int)
    requires Admissible(divide) && 1 <= n <= m <= TWO31
    ensures Bucket(divide, key, m) == Bucket(divide, key, n) || n <= Bucket(divide, key, m)
  {
    RunConsistency(divide, key, 0, -1, n, m);
  }

  lemma {:induction false} RunConsistency(divide: Division, state: nat, j: int, b: int, n: int, m: int)
    requires Admissible(divide) && 0 <= j && n <= m <= TWO31
    ensures Run(divide, state, j, b, m) == Run(divide, state, j, b, n) || n <= Run(divide, state, j, b, m)
    decreases m - j, if state == TWO64 then 0 else 1
  {
    if j < n {
      var s := NextState(state);
      JumpProgress(divide, j, s);
      AfterUnreduced();
      RunConsistency(divide, s, Jump(divide, j, s), j, n, m);
    }
  }

  /** Adding one bucket moves a key to the added bucket or leaves it where it was. */
  lemma AddingOneBucket(divide: Division, key: nat, n: int)
    requires Admissible(divide) && 1 <= n < TWO31
    ensures Bucket(divide, key, n + 1) in {Bucket(divide, key, n), n}
  {
    Consistency(divide, key, n, n + 1);
  }

  /** The key matters only modulo 2^64. */
  lemma KeyModulo(divide: Division, key: nat, buckets: int)
    requires Admissible(divide) && buckets <= TWO31
    ensures Bucket(divide, key, buckets) == Bucket(divide, key % TWO64, buckets)
  {
    NextStateModulo(key);
  }

  lemma NextStateModulo(key: nat)
    ensures NextState(key) == NextState(key % TWO64)
  {
    var q, r := key / TWO64, key % TWO64;
    assert key * MULTIPLIER == q * MULTIPLIER * TWO64 + r * MULTIPLIER;
    MultipleVanishes(q * MULTIPLIER, r * MULTIPLIER);
  }

  // ----- The published listing -----

  /** The published step: multiply and add in 64-bit arithmetic, so the state 2^64 is 0. */
  function PaperState(state: nat): (r: nat)
    ensures r < TWO64
  {
    (state * 2862933555777941757 + 1) % 0x1_0000_0000_0000_0000
  }

  /** The published jump: (b + 1) * (2^31 / ((key >> 33) + 1)), in exact arithmetic. */
  function PaperJump(b: nat, state: nat): nat
  {
    (b + 1) * 0x8000_0000 / (state / 0x2_0000_0000 + 1)
  }

  /** The exact jump is the one whole number of times the divisor goes into the dividend. */
  lemma JumpIsQuotient(b: nat, state: nat, r: int)
    ensures var (x, y) := ((b + 1) * 0x8000_0000, state / 0x2_0000_0000 + 1);
            r == Jump(EXACT, b, state) <==> r * y <= x < (r + 1) * y
  {
    var x, y := (b + 1) * TWO31, state / TWO33 + 1;
    if r * y <= x < (r + 1) * y {
      QuotientAtLeast(x, y, r);
      QuotientBelow(x, y, r + 1);
    }
    QuotientBounds(x, y);
  }

  lemma SameJump(b: nat, state: nat)
    ensures Jump(EXACT, b, state) == PaperJump(b, state)
  {
  }

  /** The loop of the published listing, in exact arithmetic. */
  function PaperRun(state: nat, j: int, b: int, buckets: int): int
    requires 0 <= j && buckets <= TWO31
    decreases buckets - j
  {
    if j >= buckets then b
    else
      var s := PaperState(state);
      ExactIsAdmissible();
      JumpProgress(EXACT, j, s);
      SameJump(j, s);
      PaperRun(s, PaperJump(j, s), j, buckets)
  }

  function PaperBucket(key: nat, buckets: int): int
    requires buckets <= TWO31
  {
    PaperRun(key, 0, -1, buckets)
  }

  /** The two states agree modulo 2^64 after every step. */
  lemma StatesAgree(state: nat)
    ensures PaperState(state % TWO64) == if NextState(state) == TWO64 then 0 else NextState(state)
  {
    NextStateModulo(state);
    var p := state % TWO64 * MULTIPLIER;
    assert p + 1 == p / TWO64 * TWO64 + (p % TWO64 + 1);
    MultipleVanishes(p / TWO64, p % TWO64 + 1);
  }

  /** Out of the state 2^64 a jump from b stays at b exactly while b is at most 2^31; beyond, it goes back. */
  lemma StallBoundary(b: nat)
    ensures Jump(EXACT, b, TWO64) <= b
    ensures Jump(EXACT, b, TWO64) == b <==> b <= TWO31
  {
    var y := TWO31 + 1;
    assert TWO64 / TWO33 + 1 == y;
    QuotientBelow((b + 1) * TWO31, y, b + 1);
    if b <= TWO31 {
      QuotientAtLeast((b + 1) * TWO31, y, b);
    } else {
      QuotientBelow((b + 1) * TWO31, y, b);
    }
  }

  /** The state 2^64 is reached: with this key the first jump stays at bucket 0, so j alone is no measure. */
  lemma StallHappens(key: nat)
    requires key == 2313046976756913067
    ensures NextState(key) == TWO64
    ensures Jump(EXACT, 0, NextState(key)) == 0
  {
    StallBoundary(0);
  }

  /** Every key gets the bucket the published listing gives it. */
  lemma SameAsPaper(key: nat, buckets: int)
    requires buckets <= TWO31
    ensures Admissible(EXACT)
    ensures Bucket(EXACT, key, buckets) == PaperBucket(key % TWO64, buckets)
  {
    ExactIsAdmissible();
    RunsAgree(key, 0, -1, buckets);
  }

  lemma Reduced(s: nat)
    requires s < TWO64
    ensures s % TWO64 == s
  {
  }

  lemma {:induction false} RunsAgree(state: nat, j: int, b: int, buckets: int)
    requires Admissible(EXACT) && 0 <= j && buckets <= TWO31
    ensures Run(EXACT, state, j, b, buckets) == PaperRun(state % TWO64, j, b, buckets)
    decreases buckets - j
  {
    if j < buckets {
      var s := NextState(state);
      if s < TWO64 {
        StatesAgree(state);
        JumpProgress(EXACT, j, s);
        Reduced(s);
        SameJump(j, s);
        RunsAgree(s, Jump(EXACT, j, s), j, buckets);
      } else {
        StallThenLeap(j, b, state, buckets);
      }
    }
  }

  /** The stalled iteration is followed by a leap past every bucket, as in the listing's wrapped state. */
  lemma StallThenLeap(j: int, b: int, state: nat, buckets: int)
    requires Admissible(EXACT) && 0 <= j < buckets <= TWO31
    requires NextState(state) == TWO64
    ensures Run(EXACT, state, j, b, buckets) == j == PaperRun(state % TWO64, j, b, buckets)
  {
    StallBoundary(j);
    AfterUnreduced();
    StatesAgree(state);
    assert Jump(EXACT, j, 1) == (j + 1) * TWO31 == PaperJump(j, 0);
    calc {
      Run(EXACT, state, j, b, buckets);
      Run(EXACT, TWO64, j, j, buckets);
      Run(EXACT, 1, (j + 1) * TWO31, j, buckets);
      j;
    }
  }

  // ----- Floating point -----

  /**
   What the proof uses of a round-to-nearest rounding to doubles (section 4.3.1 of IEEE 754-2019):
   it is monotone, exact on integers up to 2^53, and in the normal range off by less than one part in 2^53.
   The operands of the division need no rounding: a bucket number times 2^31 and a divisor of at most
   2^31 + 1 are doubles.
   */
  ghost predicate RoundsToNearest(fl: real -> real)
  {
    && (forall x: real, y: real :: x <= y ==> fl(x) <= fl(y))
    && (forall n: int {:trigger fl(n as real)} :: 0 <= n <= TWO53 ==> fl(n as real) == n as real)
    && (forall x: real :: 1.0 / TWO53 as real <= x <= TWO64 as real ==> (fl(x) - x) * TWO53 as real < x)
  }

  lemma RoundedIsAdmissible(fl: real -> real)
    requires RoundsToNearest(fl)
    ensures Admissible(Rounded(fl))
  {
    forall x: int, y: int, n: int | y > 0 && 0 <= n <= TWO53 && Covers(n, x, y)
      ensures n <= Rounded(fl)(x, y)
    {
      RealQuotientAtLeast(x, y, n);
      RoundedAtLeast(fl, x as real / y as real, n);
    }
  }

  lemma RealQuotientAtLeast(x: int, y: int, n: int)
    requires y > 0 && n * y <= x
    ensures n as real <= x as real / y as real
  {
    var q := x as real / y as real;
    assert q * y as real == x as real;
    assert n as real * y as real == (n * y) as real;
    CancelRealFactor(n as real, q, y as real);
  }

  lemma CancelRealFactor(a: real, b: real, y: real)
    requires y > 0.0
    ensures a * y <= b * y <==> a <= b
  {
  }

  lemma AddOneFactor(a: int, y: int)
    ensures (a + 1) * y == a * y + y
  {
  }

  lemma GrowsWithFactor(a: int, y: int)
    requires 0 <= a && 0 < y
    ensures a <= a * y
  {
  }

  lemma QuotientBounds(x: int, y: int)
    requires 0 < x && 0 < y
    ensures 0 <= x / y <= x && x / y * y <= x && x + 1 <= (x / y + 1) * y
  {
    var q := x / y;
    assert x == q * y + x % y;
    AddOneFactor(q, y);
    AddOneFactor(x, y);
    GrowsWithFactor(x, y);
    CancelFactor(q, x + 1, y);
  }

  lemma RoundedAtLeast(fl: real -> real, q: real, n: int)
    requires RoundsToNearest(fl) && 0 <= n <= TWO53 && n as real <= q
    ensures n as real <= fl(q)
  {
    assert fl(n as real) <= fl(q);
  }

  /** The floored rounded quotient of integers up to 2^53 is the integer quotient. */
  lemma RoundedQuotient(fl: real -> real, x: int, y: int)
    requires RoundsToNearest(fl)
    requires 0 < x <= TWO53 && 0 < y <= TWO53
    ensures Rounded(fl)(x, y) == x / y
  {
    var n := x / y;
    QuotientBounds(x, y);
    RealQuotientAtLeast(x, y, n);
    RoundedAtLeast(fl, x as real / y as real, n);
    RoundingGap(fl, x, y, n);
  }

  /** Rounding up to the next integer would need a relative error of at least 2^-53. */
  lemma RoundingGap(fl: real -> real, x: int, y: int, n: int)
    requires RoundsToNearest(fl)
    requires 0 < x <= TWO53 && 0 < y <= TWO53
    requires x + 1 <= (n + 1) * y
    ensures fl(x as real / y as real) < (n + 1) as real
  {
    var X, Y, T, N := x as real, y as real, TWO53 as real, (n + 1) as real;
    QuotientNotTiny(X, Y, T);
    QuotientNotLarger(X, Y);
    CastProduct(n + 1, y);
    assert X / Y * Y == X;
    GapArithmetic(fl(X / Y), X / Y, X, Y, T, N);
  }

  lemma QuotientNotLarger(X: real, Y: real)
    requires 0.0 < X && 1.0 <= Y
    ensures X / Y <= X
  {
    assert X / Y * Y == X;
    CancelRealFactor(1.0, Y, X);
    CancelRealFactor(X / Y, X, Y);
  }

  lemma CastProduct(a: int, b: int)
    ensures (a * b) as real == a as real * b as real
  {
  }

  lemma QuotientNotTiny(X: real, Y: real, T: real)
    requires 1.0 <= X && 0.0 < Y <= T
    ensures 1.0 / T <= X / Y
  {
    var u := 1.0 / T;
    assert u * T == 1.0;
    CancelRealFactor(Y, T, u);
    assert X / Y * Y == X;
    CancelRealFactor(u, X / Y, Y);
  }

  lemma Regroup(a: real, b: real, c: real)
    ensures (a * b) * c == (a * c) * b
  {
  }

  lemma GapArithmetic(f: real, q: real, X: real, Y: real, T: real, N: real)
    requires 0.0 < Y && 0.0 < T && q * Y == X && X <= T
    requires (f - q) * T < q
    requires X + 1.0 <= N * Y
    ensures f < N
  {
    var d := f - q;
    CancelRealFactor(q, d * T, Y);
    Regroup(d, T, Y);
    CancelRealFactor(1.0, d * Y, T);
    assert d * Y < 1.0;
    assert f * Y == d * Y + X;
    assert f * Y < N * Y;
    CancelRealFactor(N, f, Y);
  }

  /** Up to 2^22 buckets, floating point and exact arithmetic pick the same bucket. */
  lemma {:induction false} RoundedAgreesWithExact(fl: real -> real, state: nat, j: int, b: int, buckets: int)
    requires RoundsToNearest(fl) && 0 <= j && buckets <= TWO22
    ensures Admissible(Rounded(fl)) && Admissible(EXACT)
    ensures Run(Rounded(fl), state, j, b, buckets) == Run(EXACT, state, j, b, buckets)
    decreases buckets - j, if state == TWO64 then 0 else 1
  {
    RoundedIsAdmissible(fl);
    ExactIsAdmissible();
    if j < buckets {
      var s := NextState(state);
      RoundedQuotient(fl, (j + 1) * TWO31, s / TWO33 + 1);
      assert Jump(Rounded(fl), j, s) == Jump(EXACT, j, s);
      JumpProgress(EXACT, j, s);
      AfterUnreduced();
      RoundedAgreesWithExact(fl, s, Jump(EXACT, j, s), j, buckets);
    }
  }

  lemma RoundedSameAsPaper(fl: real -> real, key: nat, buckets: int)
    requires RoundsToNearest(fl) && Admissible(Rounded(fl)) && buckets <= TWO31
    ensures buckets <= TWO22 ==> Bucket(Rounded(fl), key, buckets) == PaperBucket(key % TWO64, buckets)
  {
    if buckets <= TWO22 {
      RoundedAgreesWithExact(fl, key, 0, -1, buckets);
      SameAsPaper(key, buckets);
    }
  }
}
