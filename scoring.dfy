/**
 * The time-bonus score of `/answer` (backend/routes/game.js): a correct answer earns
 * half the question's points plus up to another half, shrinking linearly with the
 * time taken; a wrong answer earns nothing. The source computes in floating point;
 * here the arithmetic is exact (`real` is the rationals) and `Math.round(x)` is
 * `Floor(x + 1/2)`.
 */
module Scoring {

  /** Time limit used when a question has none, in seconds. */
  const DefaultTimeLimitS: int := 20
  /** Points used when a question has none. */
  const DefaultPoints: int := 1000

  /** JavaScript's `x || d` on a number: 0 (the model's stand-in for null) falls back to `d`. */
  function OrDefault(x: int, d: int): int {
    if x == 0 then d else x
  }

  /** `Math.round` on an exact value: the nearest integer, halves rounded up. */
  function Round(x: real): (r: int)
    ensures r as real <= x + 0.5 < r as real + 1.0
  {
    (x + 0.5).Floor
  }

  function Max(a: real, b: real): real {
    if a < b then b else a
  }

  /** `(time_limit_s || 20) * 1000`: the answer window in milliseconds, never zero. */
  function MaxTimeMs(timeLimitS: int): (m: int)
    ensures m != 0
    ensures timeLimitS >= 0 ==> m > 0
  {
    OrDefault(timeLimitS, DefaultTimeLimitS) * 1000
  }

  /** `Math.max(0, (maxTime - timeMs) / maxTime)`. */
  function TimeBonus(maxTime: int, timeMs: int): real
    requires maxTime != 0
  {
    Max(0.0, (maxTime - timeMs) as real / maxTime as real)
  }

  /** The score of one answer (game.js, lines 267-272). `timeMs` is `timeMs || 0`,
      which for a number is the number itself. */
  function Score(isCorrect: bool, timeLimitS: int, points: int, timeMs: int): (r: int)
    ensures !isCorrect ==> r == 0
    ensures isCorrect && OrDefault(points, DefaultPoints) >= 0 ==> r >= 0
  {
    if !isCorrect then 0
    else
      var maxTime := MaxTimeMs(timeLimitS);
      var p := OrDefault(points, DefaultPoints);
      Round(p as real * (0.5 + 0.5 * TimeBonus(maxTime, timeMs)))
  }

  /** Floor of an exact quotient is Euclidean integer division. */
  lemma FloorOfQuotient(n: int, d: int)
    requires d > 0
    ensures (n as real / d as real).Floor == n / d
  {
    var q, r := n / d, n % d;
    assert n as real == q as real * d as real + r as real;
    assert n as real / d as real == q as real + r as real / d as real;
    assert 0.0 <= r as real / d as real < 1.0;
  }

  /** The rearrangement behind `ScoreIntegerForm`, on exact values. */
  lemma HalfBonusAlgebra(p: real, m: real, left: real)
    requires m > 0.0
    ensures p * (0.5 + 0.5 * (left / m)) + 0.5 == (p * (m + left) + m) / (2.0 * m)
  {
    var u := left / m;
    assert left == u * m;
    var y := p * (1.0 + u) + 1.0;
    assert p * (m + left) + m == y * m;
    var z := (p * (m + left) + m) / (2.0 * m);
    assert z * (2.0 * m) == y * m;
    assert (z * 2.0 - y) * m == 0.0;
    assert z == y / 2.0;
  }

  lemma CastProduct(a: int, b: int)
    ensures (a * b) as real == a as real * b as real
  {
  }

  /** Rounding half the points plus a bonus share `left / m`, in integers. */
  lemma RoundHalfBonus(p: int, m: int, left: int)
    requires m > 0
    ensures Round(p as real * (0.5 + 0.5 * (left as real / m as real))) == (p * (m + left) + m) / (2 * m)
  {
    var pr, mr, lr := p as real, m as real, left as real;
    HalfBonusAlgebra(pr, mr, lr);
    var n := p * (m + left) + m;
    CastProduct(p, m + left);
    CastProduct(2, m);
    var num, den := n as real, (2 * m) as real;
    assert num == pr * (mr + lr) + mr;
    assert den == 2.0 * mr;
    assert pr * (0.5 + 0.5 * (lr / mr)) + 0.5 == num / den;
    FloorOfQuotient(n, 2 * m);
  }

  /** An independent, integer-only reading of the score: with window `M > 0`,
      `round(P * (M + max(0, M - t)) / 2M) = (P * (M + max(0, M - t)) + M) div 2M`. */
  lemma ScoreIntegerForm(timeLimitS: int, points: int, timeMs: int)
    requires timeLimitS >= 0
    ensures var m := MaxTimeMs(timeLimitS);
            var p := OrDefault(points, DefaultPoints);
            var left := if m - timeMs > 0 then m - timeMs else 0;
            Score(true, timeLimitS, points, timeMs) == IntScore(p, m, left)
  {
    var m := MaxTimeMs(timeLimitS);
    var p := OrDefault(points, DefaultPoints);
    var left := if m - timeMs > 0 then m - timeMs else 0;
    assert TimeBonus(m, timeMs) == left as real / m as real;
    RoundHalfBonus(p, m, left);
  }

  lemma MulAtLeast(k: int, d: int)
    requires k >= 1 && d > 0
    ensures k * d >= d
  {
    assert k * d == (k - 1) * d + d;
  }

  /** Integer division is determined by quotient and remainder. */
  lemma DivUnique(n: int, d: int, q: int, r: int)
    requires d > 0 && n == q * d + r && 0 <= r < d
    ensures n / d == q
  {
    var q', r' := n / d, n % d;
    assert (q' - q) * d == r - r' by {
      assert q' * d + r' == q * d + r;
    }
    if q' > q {
      MulAtLeast(q' - q, d);
    } else if q' < q {
      MulAtLeast(q - q', d);
    }
  }

  /** Integer division by a positive number is monotone. */
  lemma DivMonotone(a: int, b: int, d: int)
    requires d > 0 && a <= b
    ensures a / d <= b / d
  {
    if a / d > b / d {
      MulAtLeast(a / d - b / d, d);
      MulDistributes(a / d, b / d, d);
      assert false;
    }
  }

  lemma MulDistributes(x: int, y: int, d: int)
    ensures (x - y) * d == x * d - y * d
  {
  }

  /** `k * m / 2m == k / 2` for a positive `m`. */
  lemma DivCancel(k: int, m: int)
    requires m > 0
    ensures (k * m) / (2 * m) == k / 2
  {
    var q, r := k / 2, k % 2;
    assert k * m == q * (2 * m) + r * m;
    DivUnique(k * m, 2 * m, q, r * m);
  }

  /** Half the points, rounded the way `Math.round` rounds: `(P + 1) div 2`. */
  lemma RoundHalf(p: int)
    ensures Round(p as real / 2.0) == (p + 1) / 2
  {
    assert p as real / 2.0 + 0.5 == (p + 1) as real / 2 as real;
    FloorOfQuotient(p + 1, 2);
  }

  lemma MulMonotone(p: int, a: int, b: int)
    requires p >= 0 && a <= b
    ensures p * a <= p * b
  {
    assert p * b - p * a == p * (b - a);
  }

  /** `(P * (M + left) + M) div 2M`, the integer reading of a correct answer's score. */
  function IntScore(p: int, m: int, left: int): int
    requires m > 0
  {
    (p * (m + left) + m) / (2 * m)
  }

  lemma IntScoreBounds(p: int, m: int, left: int)
    requires p >= 0 && m > 0 && 0 <= left <= m
    ensures (p + 1) / 2 <= IntScore(p, m, left) <= p
  {
    var n := p * (m + left) + m;
    MulMonotone(p, m, m + left);
    assert (p + 1) * m == p * m + m;
    DivMonotone((p + 1) * m, n, 2 * m);
    DivCancel(p + 1, m);
    MulMonotone(p, m + left, 2 * m);
    assert (2 * p + 1) * m == p * (2 * m) + m;
    DivMonotone(n, (2 * p + 1) * m, 2 * m);
    DivCancel(2 * p + 1, m);
  }

  lemma IntScoreMonotone(p: int, m: int, left1: int, left2: int)
    requires p >= 0 && m > 0 && left2 <= left1
    ensures IntScore(p, m, left2) <= IntScore(p, m, left1)
  {
    MulMonotone(p, m + left2, m + left1);
    DivMonotone(p * (m + left2) + m, p * (m + left1) + m, 2 * m);
  }

  /** With a non-negative time limit and points, a correct answer given at a non-negative
      time earns between half the points (rounded) and the full points. */
  lemma ScoreBounds(timeLimitS: int, points: int, timeMs: int)
    requires timeLimitS >= 0 && points >= 0 && timeMs >= 0
    ensures var p := OrDefault(points, DefaultPoints);
            Round(p as real / 2.0) <= Score(true, timeLimitS, points, timeMs) <= p
  {
    var m := MaxTimeMs(timeLimitS);
    var p := OrDefault(points, DefaultPoints);
    var left := if m - timeMs > 0 then m - timeMs else 0;
    ScoreIntegerForm(timeLimitS, points, timeMs);
    RoundHalf(p);
    IntScoreBounds(p, m, left);
  }

  /** Answering later never earns more. */
  lemma ScoreNonIncreasing(timeLimitS: int, points: int, t1: int, t2: int)
    requires timeLimitS >= 0 && points >= 0 && t1 <= t2
    ensures Score(true, timeLimitS, points, t1) >= Score(true, timeLimitS, points, t2)
  {
    var m := MaxTimeMs(timeLimitS);
    var p := OrDefault(points, DefaultPoints);
    ScoreIntegerForm(timeLimitS, points, t1);
    ScoreIntegerForm(timeLimitS, points, t2);
    IntScoreMonotone(p, m, if m - t1 > 0 then m - t1 else 0, if m - t2 > 0 then m - t2 else 0);
  }

  /** Once the window has run out, every correct answer earns exactly half the points, rounded. */
  lemma ScoreAfterWindow(timeLimitS: int, points: int, timeMs: int)
    requires timeLimitS >= 0 && timeMs >= MaxTimeMs(timeLimitS)
    ensures Score(true, timeLimitS, points, timeMs) == Round(OrDefault(points, DefaultPoints) as real / 2.0)
  {
    var m := MaxTimeMs(timeLimitS);
    var p := OrDefault(points, DefaultPoints);
    ScoreIntegerForm(timeLimitS, points, timeMs);
    RoundHalf(p);
    assert p * (m + 0) + m == (p + 1) * m;
    DivCancel(p + 1, m);
  }

  /** A wrong answer scores nothing, whatever the timing. */
  lemma IncorrectScoresZero(timeLimitS: int, points: int, timeMs: int)
    ensures Score(false, timeLimitS, points, timeMs) == 0
  {
  }

  /** The worked example: 1000 points, a 20 s window, answered after 2 s, scores 950;
      an unset time limit and unset points give the same. */
  lemma ScoreExample()
    ensures Score(true, 20, 1000, 2000) == 950
    ensures Score(true, 0, 0, 2000) == 950
  {
    ScoreIntegerForm(20, 1000, 2000);
    ScoreIntegerForm(0, 0, 2000);
  }
}
