/**
  The level curve (app/services/leveling.py).

  A level L is reached at floor(100 * (L-1)^1.5) xp.  The floor is modelled exactly, as an
  integer square root: 100 * n^1.5 is the square root of 10000 * n^3.
 */
module Leveling {

  function Max(a: int, b: int): int {
    if a < b then b else a
  }

  // ---------------------------------------------------------------- powers and integer square root

  // Squares and cubes are written as sums, so that only this module's lemmas need to reason
  // about products.

  function Square(n: nat): nat {
    if n == 0 then 0 else Square(n - 1) + 2 * n - 1
  }

  function Cube(n: nat): nat {
    if n == 0 then 0 else Cube(n - 1) + 3 * Square(n - 1) + 3 * (n - 1) + 1
  }

  lemma SuccessorPowers(m: nat)
    ensures (m + 1) * (m + 1) == m * m + 2 * m + 1
    ensures (m + 1) * (m + 1) * (m + 1) == m * m * m + 3 * (m * m) + 3 * m + 1
  {
  }

  lemma {:induction false} PowersAreProducts(n: nat)
    ensures Square(n) == n * n
    ensures Cube(n) == n * n * n
  {
    if n > 0 {
      PowersAreProducts(n - 1);
      SuccessorPowers(n - 1);
    }
  }

  predicate IsSqrt(n: nat, r: nat) {
    Square(r) <= n < Square(r + 1)
  }

  lemma {:induction false} SqrtExists(n: nat)
    ensures exists r: nat | r <= n :: IsSqrt(n, r)
  {
    if n == 0 {
      assert IsSqrt(0, 0);
    } else {
      SqrtExists(n - 1);
      var r: nat :| r <= n - 1 && IsSqrt(n - 1, r);
      if Square(r + 1) <= n {
        assert IsSqrt(n, r + 1);
      } else {
        assert IsSqrt(n, r);
      }
    }
  }

  lemma SqrtUnique(n: nat, r: nat, t: nat)
    requires IsSqrt(n, r) && IsSqrt(n, t)
    ensures r == t
  {
    PowersAreProducts(r);
    PowersAreProducts(r + 1);
    PowersAreProducts(t);
    PowersAreProducts(t + 1);
    if r < t {
      Multiply(r + 1, r + 1, t, t);
    } else if t < r {
      Multiply(t + 1, t + 1, r, r);
    }
  }

  /** The floor of the square root: the natural whose square and whose successor's square
      bracket n. */
  function ISqrt(n: nat): (r: nat) {
    SqrtExists(n);
    assert forall r: nat, t: nat | IsSqrt(n, r) && IsSqrt(n, t) :: r == t by {
      forall r: nat, t: nat | IsSqrt(n, r) && IsSqrt(n, t) ensures r == t {
        SqrtUnique(n, r, t);
      }
    }
    var r: nat :| r <= n && IsSqrt(n, r);
    r
  }

  lemma ISqrtBrackets(n: nat)
    ensures ISqrt(n) * ISqrt(n) <= n < (ISqrt(n) + 1) * (ISqrt(n) + 1)
  {
    PowersAreProducts(ISqrt(n));
    PowersAreProducts(ISqrt(n) + 1);
  }

  lemma SquareOrder(a: nat, b: nat)
    ensures a <= b <==> a * a <= b * b
    ensures a < b <==> a * a < b * b
  {
    if a < b {
      assert a * a <= a * b < b * b || a == 0;
    } else if b < a {
      assert b * b <= a * b < a * a || b == 0;
    }
  }

  lemma Multiply(a: nat, b: nat, c: nat, d: nat)
    requires a <= c && b <= d
    ensures a * b <= c * d
  {
    assert a * b <= c * b <= c * d;
  }

  // ---------------------------------------------------------------- thresholds

  /** Cumulative xp needed to reach a level. */
  function Threshold(level: int): nat {
    if level <= 1 then 0 else ISqrt(10000 * Cube(level - 1))
  }

  lemma ThresholdBrackets(level: int)
    requires 1 <= level
    ensures Threshold(level) * Threshold(level) <= 10000 * Cube(level - 1)
    ensures 10000 * Cube(level - 1) < (Threshold(level) + 1) * (Threshold(level) + 1)
  {
    if level > 1 {
      ISqrtBrackets(10000 * Cube(level - 1));
    }
  }

  /** A number lies at or above a threshold exactly when its successor's square passes the cube. */
  lemma ThresholdAtMost(level: int, xp: nat)
    requires 1 <= level
    ensures Threshold(level) <= xp <==> 10000 * Cube(level - 1) < (xp + 1) * (xp + 1)
  {
    var t := Threshold(level);
    ThresholdBrackets(level);
    if t <= xp {
      Multiply(t + 1, t + 1, xp + 1, xp + 1);
    } else {
      Multiply(xp + 1, xp + 1, t, t);
    }
  }

  lemma ThresholdAtLeast(level: int, xp: nat)
    requires 1 <= level
    ensures xp <= Threshold(level) <==> xp * xp <= 10000 * Cube(level - 1)
  {
    if xp > 0 {
      ThresholdAtMost(level, xp - 1);
    }
  }

  /** Threshold is the unique natural whose square brackets 10000 * (L-1)^3. */
  lemma ThresholdIsFloor(level: int, t: nat)
    requires 1 <= level
    ensures t == Threshold(level) <==> Square(t) <= 10000 * Cube(level - 1) < Square(t + 1)
  {
    PowersAreProducts(t);
    PowersAreProducts(t + 1);
    ThresholdAtMost(level, t);
    ThresholdAtLeast(level, t);
  }

  function Gap(level: int): int {
    Threshold(level + 1) - Threshold(level)
  }

  lemma SquareBelowCube(n: nat)
    ensures n * n <= Cube(n)
    ensures Cube(n) <= (n * n) * (n * n)
  {
    hide Square, Cube;
    PowersAreProducts(n);
    var q := n * n;
    if n > 0 {
      assert q * 1 <= q * n;
      assert q * n == Cube(n);
      assert n * 1 <= n * n;
      assert q * n <= q * q;
    }
  }

  lemma CubeOfSuccessor(n: nat)
    ensures Cube(n + 1) == Cube(n) + 3 * (n * n) + 3 * n + 1
  {
    PowersAreProducts(n);
  }

  /** Every level costs at least 100 xp more than the one before it. */
  lemma GapAtLeast100(level: int)
    requires 1 <= level
    ensures Gap(level) >= 100
  {
    hide Square, Cube, Threshold;
    var n: nat := level - 1;
    var t := Threshold(level);
    var q := n * n;
    SquareBelowCube(n);
    ThresholdBrackets(level);
    assert t <= 100 * q by {
      assert (100 * q) * (100 * q) == 10000 * (q * q);
      SquareOrder(t, 100 * q);
    }
    CubeOfSuccessor(n);
    assert (t + 100) * (t + 100) == t * t + 200 * t + 10000;
    ThresholdAtLeast(level + 1, t + 100);
  }

  lemma {:induction false} ThresholdStrict(low: int, high: int)
    requires 1 <= low <= high
    ensures Threshold(low) + 100 * (high - low) <= Threshold(high)
    decreases high - low
  {
    if low < high {
      ThresholdStrict(low, high - 1);
      GapAtLeast100(high - 1);
    }
  }

  lemma Regroup(a: nat, c: nat)
    ensures (a * a) * (c * c) == (a * c) * (a * c)
  {
    assert (a * a) * (c * c) == a * (a * c) * c;
  }

  lemma QuadraticSlack(q: nat)
    requires 4 <= q
    ensures (q - 1) * (q - 1) * (q - 1) >= (q - 3) * (q - 3) * q
  {
    assert (q - 1) * (q - 1) * (q - 1) - (q - 3) * (q - 3) * q == 3 * (q * q) - 6 * q - 1;
    assert q * q >= 4 * q;
  }

  /** (m^2 - 1)^3 >= (m^3 - 3m)^2 for m >= 2: the algebra behind convexity. */
  lemma ConvexityPolynomial(m: nat)
    requires 2 <= m
    ensures (m * m - 1) * (m * m - 1) * (m * m - 1) >= (Cube(m) - 3 * m) * (Cube(m) - 3 * m)
  {
    hide Square, Cube;
    var q := m * m;
    Multiply(2, 2, m, m);
    PowersAreProducts(m);
    QuadraticSlack(q);
    var d := q - 3;
    assert Cube(m) - 3 * m == d * m;
    Regroup(d, m);
  }

  lemma SquareOfSum(a: nat, c: nat)
    ensures (a + c) * (a + c) == a * a + c * c + 2 * (a * c)
  {
  }

  lemma CubesAround(n: nat)
    ensures Cube(n) + Cube(n + 2) == 2 * Cube(n + 1) + 6 * (n + 1)
  {
    CubeOfSuccessor(n);
    CubeOfSuccessor(n + 1);
    assert (n + 1) * (n + 1) == n * n + 2 * n + 1;
  }

  lemma ChordLinear(x: nat, y: nat, z: nat, p: nat, u: nat, v: nat, w: nat, m: nat)
    requires x > 10000 * u && y <= 10000 * v && z > 10000 * w
    requires p >= 10000 * (v - 3 * m)
    requires u + w == 2 * v + 6 * m
    ensures x + z + 2 * p > 4 * y
  {
  }

  /** The outer two of three consecutive cubes multiply to nearly the square of the middle one. */
  lemma OuterProductLarge(n: nat, a: nat, c: nat)
    requires a * a > 10000 * Cube(n)
    requires c * c > 10000 * Cube(n + 2)
    ensures a * c >= 10000 * (Cube(n + 1) - 3 * (n + 1))
  {
    hide Square, Cube;
    var m := n + 1;
    var k := Cube(m) - 3 * m;
    if m == 1 {
      PowersAreProducts(1);
      return;
    }
    var h := m * m - 1;
    var u, v := Cube(n), Cube(n + 2);
    assert u * v == h * h * h by { OuterCubes(n); }
    assert (a * c) * (a * c) >= 100000000 * (h * h * h) by {
      Multiply(10000 * u, 10000 * v, a * a, c * c);
      Regroup(a, c);
      assert (10000 * u) * (10000 * v) == 100000000 * (u * v);
    }
    ConvexityPolynomial(m);
    SquareTest(a * c, k, h * h * h);
  }

  lemma OuterCubes(n: nat)
    ensures Cube(n) * Cube(n + 2) == ((n + 1) * (n + 1) - 1) * ((n + 1) * (n + 1) - 1) * ((n + 1) * (n + 1) - 1)
  {
    hide Square, Cube;
    var h := (n + 1) * (n + 1) - 1;
    var r := n + 2;
    assert n * r == h;
    PowersAreProducts(n);
    PowersAreProducts(r);
    assert Cube(n) * Cube(r) == (n * n * n) * (r * r * r);
    assert (n * n * n) * (r * r * r) == (n * r) * (n * r) * (n * r);
  }

  lemma SquareTest(p: nat, k: int, w: int)
    requires p * p >= 100000000 * w
    requires w >= k * k
    ensures p >= 10000 * k
  {
    if k > 0 {
      assert (10000 * k) * (10000 * k) == 100000000 * (k * k);
      SquareOrder(10000 * k, p);
    }
  }

  /** Roots taken above the outer two of three consecutive cubes and below the middle one: the
      middle one lies below their chord. */
  lemma MiddleBelowChord(n: nat, a: nat, b: nat, c: nat)
    requires a * a > 10000 * Cube(n)
    requires b * b <= 10000 * Cube(n + 1)
    requires c * c > 10000 * Cube(n + 2)
    ensures 2 * b < a + c
  {
    hide Square, Cube;
    OuterProductLarge(n, a, c);
    CubesAround(n);
    ChordLinear(a * a, b * b, c * c, a * c, Cube(n), Cube(n + 1), Cube(n + 2), n + 1);
    SquareOfSum(a, c);
    SquareOfSum(b, b);
    SquareOrder(a + c, b + b);
  }

  /** Convex up to floor rounding: a gap is never more than 1 xp below the previous one. */
  lemma GapsAlmostGrow(level: int)
    requires 1 <= level
    ensures Gap(level + 1) >= Gap(level) - 1
  {
    hide Square, Cube, Threshold;
    var n: nat := level - 1;
    var a, b, c := Threshold(level), Threshold(level + 1), Threshold(level + 2);
    assert (a + 1) * (a + 1) > 10000 * Cube(n) by { ThresholdBrackets(level); }
    assert b * b <= 10000 * Cube(n + 1) by { ThresholdBrackets(level + 1); }
    assert (c + 1) * (c + 1) > 10000 * Cube(n + 2) by { ThresholdBrackets(level + 2); }
    MiddleBelowChord(n, a + 1, b, c + 1);
  }

  // ---------------------------------------------------------------- the level search

  /** The upward search of level_from_xp, started at a level already reached. */
  function Climb(level: int, xp: nat): int
    requires 1 <= level
    decreases xp - level
  {
    ThresholdStrict(1, level + 1);
    if Threshold(level + 1) <= xp then Climb(level + 1, xp) else level
  }

  function LevelFromXp(xp: int): int {
    if xp <= 0 then 1 else Climb(1, xp)
  }

  lemma {:induction false} ClimbIsAdjoint(start: int, xp: nat, level: int)
    requires 1 <= start && 1 <= level
    requires Threshold(start) <= xp
    ensures start <= Climb(start, xp)
    ensures level <= Climb(start, xp) <==> Threshold(level) <= xp
    decreases xp - start
  {
    ThresholdStrict(1, start + 1);
    if Threshold(start + 1) <= xp {
      ClimbIsAdjoint(start + 1, xp, level);
    } else if level <= start {
      ThresholdStrict(level, start);
    } else {
      ThresholdStrict(start + 1, level);
    }
  }

  /** level_from_xp is the exact adjoint of threshold_for. */
  lemma LevelAdjoint(xp: nat, level: int)
    requires 1 <= level
    ensures level <= LevelFromXp(xp) <==> Threshold(level) <= xp
    ensures 1 <= LevelFromXp(xp)
  {
    if xp == 0 {
      ThresholdStrict(1, level);
    } else {
      ClimbIsAdjoint(1, xp, level);
    }
  }

  lemma LevelAtLeastOne(xp: int)
    ensures 1 <= LevelFromXp(xp)
  {
    if xp > 0 { LevelAdjoint(xp, 1); }
  }

  /** The level never falls as xp grows. */
  lemma LevelMonotone(low: int, high: int)
    requires low <= high
    ensures LevelFromXp(low) <= LevelFromXp(high)
  {
    LevelAtLeastOne(high);
    if low > 0 {
      var level := LevelFromXp(low);
      LevelAtLeastOne(low);
      LevelAdjoint(low, level);
      LevelAdjoint(high, level);
    }
  }

  lemma LevelOfMax(a: int, b: int)
    ensures LevelFromXp(Max(a, b)) == Max(LevelFromXp(a), LevelFromXp(b))
  {
    if a <= b { LevelMonotone(a, b); } else { LevelMonotone(b, a); }
  }

  /** Each level owns exactly the xp band from its threshold up to the next one. */
  lemma LevelBand(xp: nat, level: int)
    requires 1 <= level
    ensures LevelFromXp(xp) == level <==> Threshold(level) <= xp < Threshold(level + 1)
  {
    LevelAdjoint(xp, level);
    LevelAdjoint(xp, level + 1);
  }

  /** A level computed from its own threshold is that level. */
  lemma LevelOfThreshold(level: int)
    requires 1 <= level
    ensures LevelFromXp(Threshold(level)) == level
  {
    GapAtLeast100(level);
    LevelBand(Threshold(level), level);
  }

  /** The level is the largest L with 10000 * (L-1)^3 < (xp+1)^2, a test without square roots. */
  lemma LevelIsLargestCube(xp: nat, level: int)
    requires 1 <= level
    ensures level <= LevelFromXp(xp) <==> 10000 * Cube(level - 1) < Square(xp + 1)
  {
    PowersAreProducts(xp + 1);
    LevelAdjoint(xp, level);
    ThresholdAtMost(level, xp);
  }

  /** The search loop as written, with the number of times its body runs. */
  method FindLevel(xp: int) returns (level: int, steps: nat)
    ensures level == LevelFromXp(xp)
    ensures steps == level - 1
    ensures 100 * steps <= Max(0, xp)
    ensures xp >= 0 ==> 10000 * Cube(steps) < Square(xp + 1)
  {
    steps := 0;
    if xp <= 0 {
      assert Square(1) == 1;
      return 1, 0;
    }
    level := 1;
    ThresholdStrict(1, 2);
    while Threshold(level + 1) <= xp
      invariant 1 <= level && steps == level - 1
      invariant Threshold(level) <= xp
      invariant Climb(level, xp) == Climb(1, xp)
      decreases xp - level
    {
      ThresholdStrict(1, level + 1);
      level := level + 1;
      steps := steps + 1;
    }
    ThresholdStrict(1, level);
    ThresholdAtMost(level, xp);
    PowersAreProducts(xp + 1);
  }

  // ---------------------------------------------------------------- progress

  datatype Progress = Progress(level: int, xpIntoLevel: int, xpForNext: int, xpTotal: int)

  function ProgressOf(xp: int): Progress {
    var total := Max(0, xp);
    var level := LevelFromXp(total);
    var base := Threshold(level);
    Progress(level, total - base, Threshold(level + 1) - base, total)
  }

  /** The split loses nothing: level and remainder add back up to the total, and the remainder
      is always short of the next level. */
  lemma ProgressSplits(xp: int)
    ensures var p := ProgressOf(xp);
            && p.xpTotal == Max(0, xp)
            && Threshold(p.level) + p.xpIntoLevel == p.xpTotal
            && 0 <= p.xpIntoLevel < p.xpForNext
            && p.xpForNext == Gap(p.level)
            && 1 <= p.level
  {
    var total: nat := Max(0, xp);
    LevelAtLeastOne(total);
    LevelBand(total, LevelFromXp(total));
  }

  /** Every (level, remainder) pair with the remainder short of the gap is hit, by exactly one xp. */
  lemma ProgressOnto(level: int, into: nat, xp: nat)
    requires 1 <= level && into < Gap(level)
    ensures (ProgressOf(xp).level == level && ProgressOf(xp).xpIntoLevel == into)
            <==> xp == Threshold(level) + into
  {
    LevelBand(xp, level);
    LevelBand(Threshold(level) + into, level);
  }

  ghost predicate LexBelow(a: Progress, b: Progress) {
    a.level < b.level || (a.level == b.level && a.xpIntoLevel < b.xpIntoLevel)
  }

  /** Progress orders players exactly as their xp does. */
  lemma ProgressKeepsOrder(x: nat, y: nat)
    ensures x < y <==> LexBelow(ProgressOf(x), ProgressOf(y))
  {
    ProgressSplits(x);
    ProgressSplits(y);
    if x < y {
      LevelMonotone(x, y);
    } else {
      LevelMonotone(y, x);
    }
  }
}
