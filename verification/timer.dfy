/** The countdown behind `startTimer` and the ten-cell bar drawn by
    `updateTimerBar` in draw.js. Wall-clock time is replaced by explicit
    one-second ticks. */
module Timer {

  /** Seconds each timed phase lasts. */
  const DrawSeconds: int := 10
  const ViewSeconds: int := 3
  const RecreateSeconds: int := 10
  const VoteResultSeconds: int := 5

  const TotalBars: int := 10

  lemma CeilDivBounds(x: int, d: int)
    requires d > 0
    ensures (-((-x) / d) - 1) * d < x <= -((-x) / d) * d
  {
    var q := (-x) / d;
    var m := (-x) % d;
    assert -x == q * d + m;
    assert -q * d == -(q * d);
    assert (-q - 1) * d == -(q * d) - d;
  }

  lemma MulNonNegative(a: int, d: int)
    requires d > 0
    ensures a >= 0 <==> a * d >= 0
  {
    if a < 0 { assert a * d <= -1 * d; }
  }

  lemma MulCancelLess(a: int, b: int, d: int)
    requires d > 0 && a * d < b * d
    ensures a < b
  {
    MulNonNegative(b - a, d);
    assert (b - a) * d == b * d - a * d;
  }

  /** `Math.ceil((timeLeft / totalTime) * totalBars)`, in exact arithmetic:
      the least `r` with `r * totalTime >= timeLeft * totalBars`. */
  function FilledBars(timeLeft: int, totalTime: int): (r: int)
    requires totalTime > 0
    ensures (r - 1) * totalTime < timeLeft * TotalBars <= r * totalTime
    ensures 0 <= timeLeft <= totalTime ==> 0 <= r <= TotalBars
    ensures timeLeft == totalTime ==> r == TotalBars
    ensures timeLeft <= 0 ==> r <= 0
  {
    var x := timeLeft * TotalBars;
    var r := -((-x) / totalTime);
    CeilDivBounds(x, totalTime);
    MulNonNegative(r, totalTime);
    if 0 <= timeLeft <= totalTime then
      assert x <= TotalBars * totalTime;
      MulCancelLess(r - 1, TotalBars, totalTime);
      if timeLeft == totalTime then
        MulCancelLess(TotalBars - 1, r, totalTime);
        r
      else r
    else if timeLeft <= 0 then
      MulCancelLess(r - 1, 0, totalTime);
      r
    else r
  }

  /** A fuller clock never shows fewer filled cells. */
  lemma FilledBarsMonotone(t1: int, t2: int, totalTime: int)
    requires totalTime > 0 && t1 <= t2
    ensures FilledBars(t1, totalTime) <= FilledBars(t2, totalTime)
  {
    var r1 := FilledBars(t1, totalTime);
    var r2 := FilledBars(t2, totalTime);
    assert t1 * TotalBars <= t2 * TotalBars;
    MulCancelLess(r1 - 1, r2, totalTime);
  }

  /** The bar text: cell `i` is green exactly when `i < filledBars`. */
  function BarCells(filled: int): (cells: seq<bool>)
    ensures |cells| == TotalBars
  {
    seq(TotalBars, i => i < filled)
  }

  function CountFilled(cells: seq<bool>): nat
  {
    if |cells| == 0 then 0 else (if cells[0] then 1 else 0) + CountFilled(cells[1..])
  }

  /** The filled cells of a run `[0, n)` of true followed by false number `n`. */
  lemma {:induction false} CountPrefix(cells: seq<bool>, n: int)
    requires 0 <= n <= |cells|
    requires forall i :: 0 <= i < |cells| ==> (cells[i] <==> i < n)
    ensures CountFilled(cells) == n
  {
    if |cells| > 0 {
      var m := if n > 0 then n - 1 else 0;
      forall i | 0 <= i < |cells[1..]| ensures cells[1..][i] <==> i < m {
        assert cells[1..][i] == cells[i + 1];
      }
      CountPrefix(cells[1..], m);
    }
  }

  /** The bar shows as many green cells as `FilledBars` says, clamped to the
      ten cells available. */
  lemma BarShowsFilled(timeLeft: int, totalTime: int)
    requires totalTime > 0
    ensures var f := FilledBars(timeLeft, totalTime);
            CountFilled(BarCells(f)) == if f < 0 then 0 else if f > TotalBars then TotalBars else f
  {
    var f := FilledBars(timeLeft, totalTime);
    var n := if f < 0 then 0 else if f > TotalBars then TotalBars else f;
    CountPrefix(BarCells(f), n);
  }

  /** A running countdown: seconds left, the length it started with. */
  datatype Countdown = Countdown(timeLeft: int, total: int)

  /** One interval tick: `timeLeft--`, the bar is redrawn, and the timer
      completes once it reaches zero or below. The bar redrawn on the tick
      that completes is empty, and on every other tick of a running timer
      it still shows at least one cell. */
  function TickDown(c: Countdown): (r: (Countdown, bool))
    ensures c.total > 0 && r.1 ==> FilledBars(r.0.timeLeft, c.total) <= 0
    ensures c.total > 0 && !r.1 ==> FilledBars(r.0.timeLeft, c.total) >= 1
  {
    var left := c.timeLeft - 1;
    if c.total > 0 && left > 0 then
      FilledBarsPositive(left, c.total);
      (c.(timeLeft := left), left <= 0)
    else (c.(timeLeft := left), left <= 0)
  }

  /** Any time left at all shows at least one filled cell. */
  lemma FilledBarsPositive(timeLeft: int, totalTime: int)
    requires totalTime > 0 && timeLeft > 0
    ensures FilledBars(timeLeft, totalTime) >= 1
  {
    var r := FilledBars(timeLeft, totalTime);
    MulNonNegative(-r, totalTime);
    assert -r * totalTime == -(r * totalTime);
  }

  /** The state after `k` ticks, provided none of them completed the timer. */
  function TickMany(c: Countdown, k: nat): Countdown
    decreases k
  {
    if k == 0 then c else TickMany(TickDown(c).0, k - 1)
  }

  /** A countdown started at `seconds >= 1` stays silent for `seconds - 1`
      ticks and completes on the tick after that. */
  lemma {:induction false} CountdownCompletes(seconds: int, k: nat)
    requires seconds >= 1 && k < seconds
    ensures TickMany(Countdown(seconds, seconds), k) == Countdown(seconds - k, seconds)
    ensures TickDown(TickMany(Countdown(seconds, seconds), k)).1 <==> k == seconds - 1
  {
    if k > 0 {
      CountdownCompletes(seconds, k - 1);
      TickManySnoc(Countdown(seconds, seconds), k - 1);
    }
  }

  lemma {:induction false} TickManySnoc(c: Countdown, k: nat)
    ensures TickMany(c, k + 1) == TickDown(TickMany(c, k)).0
    decreases k
  {
    if k > 0 {
      TickManySnoc(TickDown(c).0, k - 1);
    }
  }
}
