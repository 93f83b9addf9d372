/**
 * The arithmetic behind a progress report: the 10-cell bar drawn by
 * get_progress_bar and the time-per-frame and remaining-time estimate made
 * when a PostFrame event is allowed to update the message.
 */
module Progress {

  /** One cell of the bar: a green square or a white square. */
  datatype Cell = Filled | Empty

  const BarLength: int := 10

  /** Python's round() on a number: to the nearest integer, halves to the even neighbour. */
  function RoundHalfEven(x: real): (r: int)
    ensures -0.5 <= r as real - x <= 0.5
    ensures (r as real - x == 0.5 || x - r as real == 0.5) ==> r % 2 == 0
  {
    var f := x.Floor;
    var frac := x - f as real;
    if frac < 0.5 then f
    else if frac > 0.5 then f + 1
    else if f % 2 == 0 then f else f + 1
  }

  /** The two properties above pin the rounded value down: no other integer has them. */
  lemma RoundHalfEvenUnique(x: real, k: int)
    requires -0.5 <= k as real - x <= 0.5
    requires (k as real - x == 0.5 || x - k as real == 0.5) ==> k % 2 == 0
    ensures k == RoundHalfEven(x)
  {
  }

  /** n copies of one cell; a negative n gives none, as Python's string repetition does. */
  function Repeat(c: Cell, n: int): (s: seq<Cell>)
    ensures |s| == if n > 0 then n else 0
    ensures forall i | 0 <= i < |s| :: s[i] == c
  {
    seq(if n > 0 then n else 0, _ => c)
  }

  /** The number of filled cells of a bar. */
  function FilledCount(bar: seq<Cell>): nat
  {
    if bar == [] then 0
    else FilledCount(bar[..|bar| - 1]) + (if bar[|bar| - 1] == Filled then 1 else 0)
  }

  lemma {:induction false} FilledCountAppend(a: seq<Cell>, b: seq<Cell>)
    ensures FilledCount(a + b) == FilledCount(a) + FilledCount(b)
  {
    if b != [] {
      assert (a + b)[..|a + b| - 1] == a + b[..|b| - 1];
      FilledCountAppend(a, b[..|b| - 1]);
    } else {
      assert a + b == a;
    }
  }

  lemma {:induction false} FilledCountRepeat(c: Cell, n: nat)
    ensures FilledCount(Repeat(c, n)) == if c == Filled then n else 0
  {
    if n > 0 {
      assert Repeat(c, n)[..n - 1] == Repeat(c, n - 1);
      FilledCountRepeat(c, n - 1);
    }
  }

  /** get_progress_bar: round(10 * progress) filled cells, then empty ones up to ten. */
  function ProgressBar(progress: real): (bar: seq<Cell>)
    ensures 0.0 <= progress <= 1.0 ==> |bar| == BarLength
  {
    var filled := RoundHalfEven(BarLength as real * progress);
    Repeat(Filled, filled) + Repeat(Empty, BarLength - filled)
  }

  /**
   * For a progress in [0, 1] the bar has exactly ten cells, round-half-even
   * of ten times the progress of them filled, and every filled cell comes
   * before every empty one.
   */
  lemma ProgressBarShape(progress: real)
    requires 0.0 <= progress <= 1.0
    ensures |ProgressBar(progress)| == BarLength
    ensures FilledCount(ProgressBar(progress)) == RoundHalfEven(10.0 * progress)
    ensures 0 <= RoundHalfEven(10.0 * progress) <= BarLength
    ensures forall i, j | 0 <= i < j < BarLength ::
              ProgressBar(progress)[j] == Filled ==> ProgressBar(progress)[i] == Filled
  {
    var k := RoundHalfEven(10.0 * progress);
    assert 0 <= k <= 10;
    FilledCountAppend(Repeat(Filled, k), Repeat(Empty, BarLength - k));
    FilledCountRepeat(Filled, k);
    FilledCountRepeat(Empty, BarLength - k);
  }

  /** Beyond [0, 1] the bar is not ten cells long: an overshoot adds filled cells. */
  lemma ProgressBarLength(progress: real)
    ensures var k := RoundHalfEven(10.0 * progress);
            |ProgressBar(progress)| == (if k > 0 then k else 0) + (if k < BarLength then BarLength - k else 0)
  {
  }

  /** The estimate shown in a progress report. */
  datatype Eta = Eta(perFrame: real, remaining: real)

  /**
   * The elapsed time spread over the frames done gives the time per frame
   * (zero when no frame is done); the remaining time is the per-frame time
   * times the expected frames, less what has elapsed, but never below zero.
   */
  function Estimate(elapsed: real, done: nat, total: int): (e: Eta)
    ensures e.remaining >= 0.0
    ensures done > 0 ==> e.perFrame * done as real == elapsed
    ensures done == 0 ==> e.perFrame == 0.0 && e.remaining == (if elapsed < 0.0 then -elapsed else 0.0)
    ensures done > 0 ==>
              e.remaining * done as real == (var d := elapsed * (total - done) as real; if d > 0.0 then d else 0.0)
  {
    var perFrame := if done > 0 then elapsed / done as real else 0.0;
    var estimatedTotal := perFrame * total as real;
    var remaining := if 0.0 > estimatedTotal - elapsed then 0.0 else estimatedTotal - elapsed;
    if done > 0 then
      var n := done as real;
      assert (estimatedTotal - elapsed) * n == elapsed * (total - done) as real by {
        assert perFrame * n == elapsed;
        calc {
          (estimatedTotal - elapsed) * n;
          perFrame * total as real * n - elapsed * n;
          perFrame * n * total as real - elapsed * n;
          elapsed * total as real - elapsed * n;
        }
      }
      Eta(perFrame, remaining)
    else
      Eta(perFrame, remaining)
  }
}
