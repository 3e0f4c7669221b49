/** Score, line count and gravity delay of a game, and how clearing rows changes them. */
module Scoring {
  import opened GoInts

  /** Gravity delay of a new game, in frames between automatic one-row drops. */
  const StartDelay := 48
  /** The gravity delay never drops below this many frames. */
  const MinDelay := 10

  /** The running totals of a game. */
  datatype Tally = Tally(score: int, lines: int, delay: int)
  {
    /** Totals are non-negative and the delay is the one the current level calls for. */
    predicate Valid()
    {
      score >= 0 && lines >= 0 && delay == GravityFor(Level(lines))
    }
  }

  /** The level: one level per ten cleared lines. */
  function Level(lines: int): (level: int)
    ensures lines >= 0 ==> level >= 0 && 10 * level <= lines < 10 * level + 10
  {
    TruncDiv(lines, 10)
  }

  /** Base points for clearing n rows at once; any count other than 1..4 is worth nothing. */
  function Points(n: int): (p: int)
    ensures 0 <= p <= 800
    ensures p > 0 <==> 1 <= n <= 4
  {
    if n == 1 then 100
    else if n == 2 then 300
    else if n == 3 then 500
    else if n == 4 then 800
    else 0
  }

  /** The gravity delay for a level: two frames faster per level, never below MinDelay. */
  function GravityFor(level: int): (delay: int)
    ensures level >= 0 ==> MinDelay <= delay <= StartDelay
  {
    if StartDelay - level * 2 > MinDelay then StartDelay - level * 2 else MinDelay
  }

  /** A higher level never has a slower gravity; below the floor it is strictly faster. */
  lemma GravityMonotone(a: int, b: int)
    requires 0 <= a <= b
    ensures GravityFor(b) <= GravityFor(a)
    ensures a < b && GravityFor(a) > MinDelay ==> GravityFor(b) < GravityFor(a)
  {
  }

  /** The totals after clearing n rows at once: the points are scaled by the level before
      the clear, plus one; the delay changes only when the level rises. */
  function AddScore(t: Tally, n: int): (r: Tally)
    requires t.Valid() && n >= 0
    ensures r.Valid()
    ensures r.lines == t.lines + n
    ensures r.score == t.score + Points(n) * (Level(t.lines) + 1)
    ensures t.score <= r.score && MinDelay <= r.delay <= t.delay <= StartDelay
    ensures Level(r.lines) > Level(t.lines) && t.delay > MinDelay ==> r.delay < t.delay
    ensures Level(r.lines) == Level(t.lines) ==> r.delay == t.delay
  {
    var before := Level(t.lines);
    var lines := t.lines + n;
    var after := Level(lines);
    GravityMonotone(before, after);
    Tally(t.score + Points(n) * (before + 1), lines, if after > before then GravityFor(after) else t.delay)
  }

  /** A single clear at level 0 earns 100, a double 300, a triple 500 and four rows 800,
      without changing the delay; the tenth line lowers the delay from 48 to 46. */
  lemma AddScoreExamples()
    ensures AddScore(Tally(0, 0, 48), 1) == Tally(100, 1, 48)
    ensures AddScore(Tally(0, 0, 48), 2) == Tally(300, 2, 48)
    ensures AddScore(Tally(0, 0, 48), 3) == Tally(500, 3, 48)
    ensures AddScore(Tally(0, 0, 48), 4) == Tally(800, 4, 48)
    ensures AddScore(Tally(0, 9, 48), 1) == Tally(100, 10, 46)
  {
  }
}
