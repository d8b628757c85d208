/** The level curve of the leaderboard: the XP loop of calculate_level_info, in 64-bit arithmetic. */
module Levels {
  newtype int64 = x: int | -0x8000_0000_0000_0000 <= x < 0x8000_0000_0000_0000

  const INT64_MAX: int := 0x7FFF_FFFF_FFFF_FFFF

  // The highest level whose threshold fits in an int64.
  const MAX_LEVEL: nat := 1768802

  datatype LevelInfo = LevelInfo(level: int64, levelXp: int64, nextLevelXp: int64)

  /** The XP a member has to exceed to be at level n, in closed form. */
  function Threshold(n: nat): nat {
    5 * n * (n + 7) * (2 * n + 13) / 6
  }

  /** n is the level of a member with that much XP. */
  ghost predicate IsLevel(xp: int, n: nat) {
    && (n == 0 || Threshold(n) < xp)
    && xp <= Threshold(n + 1)
  }

  // The cubic under the division.
  ghost function Cubic(n: nat): nat {
    5 * n * (n + 7) * (2 * n + 13)
  }

  lemma Expanded(n: nat)
    ensures Cubic(n) == 10 * n * n * n + 135 * n * n + 455 * n
  {
    assert 5 * n * (n + 7) == 5 * n * n + 35 * n;
    assert (5 * n * n + 35 * n) * (2 * n + 13) == (5 * n * n) * (2 * n + 13) + (35 * n) * (2 * n + 13);
  }

  lemma CubicStep(n: nat)
    ensures Cubic(n + 1) == Cubic(n) + 6 * (5 * n * (n + 10) + 100)
  {
    Expanded(n);
    Expanded(n + 1);
    var square, cube := n * n, n * n * n;
    assert (n + 1) * (n + 1) == square + 2 * n + 1;
    assert (n + 1) * (n + 1) * (n + 1) == cube + 3 * square + 3 * n + 1 by {
      assert (square + 2 * n + 1) * (n + 1) == square * n + 3 * square + 3 * n + 1;
    }
    hide Cubic;
    assert 5 * n * (n + 10) == 5 * square + 50 * n;
  }

  lemma AddSixes(x: int, k: int)
    requires x % 6 == 0
    ensures (x + 6 * k) % 6 == 0
  {
  }

  lemma {:induction false} CubicDivides(n: nat)
    ensures Cubic(n) % 6 == 0
  {
    if n > 0 {
      var k := n - 1;
      CubicDivides(k);
      CubicStep(k);
      AddSixes(Cubic(k), 5 * k * (k + 10) + 100);
    }
  }

  /** One turn of the loop adds exactly the difference of two closed forms. */
  lemma ThresholdStep(n: nat)
    ensures Threshold(n + 1) == Threshold(n) + 5 * n * (n + 10) + 100
  {
    CubicDivides(n);
    CubicStep(n);
    assert Threshold(n) == Cubic(n) / 6 && Threshold(n + 1) == Cubic(n + 1) / 6;
  }

  lemma {:induction false} ThresholdIncreases(m: nat, n: nat)
    requires m < n
    ensures Threshold(m) < Threshold(n)
    decreases n
  {
    ThresholdStep(n - 1);
    if m < n - 1 {
      ThresholdIncreases(m, n - 1);
    }
  }

  /** A member has exactly one level. */
  lemma LevelUnique(xp: int, m: nat, n: nat)
    requires IsLevel(xp, m) && IsLevel(xp, n)
    ensures m == n
  {
    if m < n {
      if m + 1 < n { ThresholdIncreases(m + 1, n); }
    } else if n < m {
      if n + 1 < m { ThresholdIncreases(n + 1, m); }
    }
  }

  /** More XP never means a lower level. */
  lemma LevelMonotone(xp: int, xp': int, m: nat, n: nat)
    requires xp <= xp' && IsLevel(xp, m) && IsLevel(xp', n)
    ensures m <= n
  {
    if n < m {
      if n + 1 < m { ThresholdIncreases(n + 1, m); }
    }
  }

  /** Holding exactly the threshold of level n leaves a member one level below n. */
  lemma AtThreshold(n: nat)
    requires n > 0
    ensures IsLevel(Threshold(n), n - 1) && !IsLevel(Threshold(n), n)
  {
    if n > 1 { ThresholdIncreases(n - 1, n); }
  }

  /** Every XP count has a level, and the threshold above it fits an int64 exactly up to Threshold(MAX_LEVEL). */
  lemma {:induction false} FitsExactly(xp: int, n: nat)
    requires IsLevel(xp, n)
    ensures Threshold(n + 1) <= INT64_MAX <==> xp <= Threshold(MAX_LEVEL)
  {
    assert Threshold(MAX_LEVEL) == 9223372022685502255;
    assert Threshold(MAX_LEVEL + 1) == 9223387666076518475;
    if n < MAX_LEVEL {
      if n + 1 < MAX_LEVEL { ThresholdIncreases(n + 1, MAX_LEVEL); }
    } else {
      if MAX_LEVEL < n { ThresholdIncreases(MAX_LEVEL, n); ThresholdIncreases(MAX_LEVEL + 1, n + 1); }
    }
  }

  lemma ProductMonotone(c: nat, a: nat, b: nat)
    requires a <= b
    ensures c * a <= c * b
  {
    assert c * b == c * a + c * (b - a);
  }

  lemma IncrementBound(n: nat)
    requires n <= MAX_LEVEL
    ensures 5 * n * (n + 10) + 100 <= 5 * MAX_LEVEL * (MAX_LEVEL + 10) + 100
  {
    ProductMonotone(n, n, MAX_LEVEL);
  }

  /** The loop of calculate_level_info. By FitsExactly the precondition is precisely the absence of overflow. */
  method CalculateLevelInfo(xp: int64) returns (result: LevelInfo)
    requires xp as int <= Threshold(MAX_LEVEL)
    ensures 0 <= result.level
    ensures IsLevel(xp as int, result.level as int)
    ensures result.levelXp as int == Threshold(result.level as int)
    ensures result.nextLevelXp as int == Threshold(result.level as int + 1)
  {
    result := LevelInfo(0, 0, 100);
    while result.nextLevelXp < xp
      invariant 0 <= result.level as int < MAX_LEVEL
      invariant result.level == 0 || Threshold(result.level as int) < xp as int
      invariant result.levelXp as int == Threshold(result.level as int)
      invariant result.nextLevelXp as int == Threshold(result.level as int + 1)
      decreases MAX_LEVEL - result.level as int
    {
      ghost var n := result.level as int + 1;
      ThresholdStep(n);
      IncrementBound(n);
      FitsAbove(n);
      result := result.(level := result.level + 1);
      result := result.(levelXp := result.nextLevelXp);
      result := result.(nextLevelXp := result.nextLevelXp + (5 * result.level * (result.level + 10) + 100));
    }
  }

  lemma FitsAbove(n: nat)
    requires n < MAX_LEVEL
    ensures Threshold(n + 1) <= INT64_MAX
  {
    assert Threshold(MAX_LEVEL) == 9223372022685502255;
    if n + 1 < MAX_LEVEL { ThresholdIncreases(n + 1, MAX_LEVEL); }
  }

  /** Where the curve starts: with its increments, these values are all of it. */
  lemma FirstLevels()
    ensures Threshold(0) == 0 && Threshold(1) == 100 && Threshold(2) == 255 && Threshold(3) == 475
    ensures IsLevel(0, 0) && IsLevel(100, 0) && IsLevel(101, 1) && IsLevel(255, 1) && IsLevel(256, 2)
  {
    assert Threshold(3) == 5 * 3 * 10 * 19 / 6;
  }
}
