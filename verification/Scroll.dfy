/** The coalescing scroll accumulator, over real arithmetic. */
module Scroll {
  import opened Prelude

  const PIXELS_PER_TICK: real := 40.0
  const DRAIN: real := 0.45
  const I32_MIN: int := -0x8000_0000
  const I32_MAX: int := 0x7FFF_FFFF

  function Abs(r: real): real {
    if r < 0.0 then -r else r
  }

  /** Nearest integer, halves away from zero. */
  function Round(r: real): int {
    if r >= 0.0 then (r + 0.5).Floor else -((0.5 - r).Floor)
  }

  /** A float-to-integer cast saturates. */
  function ToI32(n: int): int {
    Max(I32_MIN, Min(n, I32_MAX))
  }

  // ----- one axis -----

  function PreciseChunk(a: real): int {
    ToI32(Round(a))
  }

  function LineChunk(a: real): int {
    var d := ToI32(Round(a * DRAIN));
    if d == 0 && Abs(a) >= 1.0 then if a > 0.0 then 1 else -1 else d
  }

  function LineRest(a: real): real {
    var r := a - LineChunk(a) as real;
    if Abs(r) < 0.5 then 0.0 else r
  }

  function Chunk(a: real, precise: bool): int {
    if precise then PreciseChunk(a) else LineChunk(a)
  }

  function Rest(a: real, precise: bool): real {
    if precise then a - PreciseChunk(a) as real else LineRest(a)
  }

  lemma RoundsHalvesAway(r: real)
    ensures Abs(Round(r) as real - r) <= 0.5
    ensures Abs(Round(r) as real - r) == 0.5 ==> Abs(Round(r) as real) > Abs(r)
  {
  }

  /**
   * While it fits the chunk, a line flush forwards forty-five hundredths of the
   * amount, rounded; one pixel when that rounds to nothing and a whole pixel is
   * there. What is left is nothing or at least half a pixel.
   */
  lemma LineShare(a: real)
    requires I32_MIN as real <= 0.45 * a <= I32_MAX as real
    ensures LineChunk(a) == if Abs(a) < 1.0 || Round(0.45 * a) != 0 then Round(0.45 * a)
                            else if a > 0.0 then 1 else -1
    ensures LineRest(a) == 0.0 || Abs(LineRest(a)) >= 0.5
  {
  }

  /** A precise flush leaves at most half a pixel exactly when the amount fits the chunk. */
  lemma PreciseRemainderIff(a: real)
    ensures Abs(Rest(a, true)) <= 0.5 <==> I32_MIN as real - 0.5 <= a <= I32_MAX as real + 0.5
  {
  }

  /** With nothing new coming in, a second precise flush emits something exactly when half a pixel is left. */
  lemma PreciseSettlesIff(a: real)
    requires Abs(Rest(a, true)) <= 0.5
    ensures Chunk(Rest(a, true), true) == 0 <==> Abs(Rest(a, true)) != 0.5
  {
  }

  /** Exactly half a pixel is never drained: it flips sign on every flush. */
  lemma HalfPixelFlips()
    ensures Chunk(0.5, true) == 1 && Rest(0.5, true) == -0.5
    ensures Chunk(-0.5, true) == -1 && Rest(-0.5, true) == 0.5
  {
  }

  /** A line flush moves toward zero by its chunk, never past it; it emits exactly from one pixel up. */
  lemma LineNeverOvershoots(a: real)
    ensures LineChunk(a) != 0 <==> Abs(a) >= 1.0
    ensures a > 0.0 ==> 0.0 <= LineChunk(a) as real <= a && 0.0 <= LineRest(a)
    ensures a < 0.0 ==> a <= LineChunk(a) as real <= 0.0 && LineRest(a) <= 0.0
    ensures a == 0.0 ==> LineRest(a) == 0.0
    ensures Abs(LineRest(a)) <= Abs(a) - Abs(LineChunk(a) as real)
  {
  }

  lemma LineStepBound(a: real)
    requires Abs(a) * DRAIN <= I32_MAX as real
    ensures Abs(LineRest(a)) <= 0.55 * Abs(a) + 0.5
  {
  }

  /** The share to forward fits the chunk, give or take what the drain bound allows. */
  predicate Drainable(a: real) {
    I32_MIN as real - 10.0 / 9.0 <= a * DRAIN <= I32_MAX as real + 10.0 / 9.0
  }

  lemma FirstStepBoundIff(a: real)
    ensures Abs(LineRest(a)) <= 0.55 * Abs(a) + 10.0 / 9.0 <==> Drainable(a)
  {
  }

  // ----- repeated line flushes -----

  function Drained(a: real, n: nat): real {
    if n == 0 then a else LineRest(Drained(a, n - 1))
  }

  function DrainedOut(a: real, n: nat): int {
    if n == 0 then 0 else DrainedOut(a, n - 1) + LineChunk(Drained(a, n - 1))
  }

  function Pow(base: real, n: nat): real {
    if n == 0 then 1.0 else base * Pow(base, n - 1)
  }

  lemma {:induction false} DrainShrinks(a: real, n: nat)
    requires n > 0
    ensures Abs(Drained(a, n)) <= Abs(Drained(a, 1))
  {
    if n > 1 {
      DrainShrinks(a, n - 1);
      LineNeverOvershoots(Drained(a, n - 1));
    }
  }

  /** How much a flush may leave beyond 0.55 of what there was: the first one a little more. */
  function Slack(k: nat): real {
    if k <= 1 then 10.0 / 9.0 else 0.5
  }

  lemma DrainedStep(a: real, n: nat)
    requires n > 0 && Drainable(a)
    ensures Abs(Drained(a, n)) <= 0.55 * Abs(Drained(a, n - 1)) + Slack(n)
  {
    FirstStepBoundIff(a);
    assert Drained(a, 1) == LineRest(a);
    if n > 1 {
      DrainShrinks(a, n - 1);
      LineStepBound(Drained(a, n - 1));
    }
  }

  predicate Contracts(m: seq<real>, k: nat)
    requires 0 < k < |m|
  {
    m[k] <= 0.55 * m[k - 1] + Slack(k)
  }

  /** A sequence in which every term is at most 0.55 of the one before plus the slack. */
  lemma {:induction false} Geometric(m: seq<real>, n: nat)
    requires n < |m| && forall k | 0 < k < |m| :: Contracts(m, k)
    ensures m[n] <= Pow(0.55, n) * m[0] + if n == 0 then 0.0 else 10.0 / 9.0
  {
    if n > 0 {
      Geometric(m, n - 1);
      assert Contracts(m, n);
      var p := Pow(0.55, n - 1);
      assert 0.55 * (p * m[0]) == Pow(0.55, n) * m[0];
    }
  }

  /** The amounts left before any flush, after one, and so on up to `n`. */
  lemma {:induction false} DrainSizes(a: real, n: nat) returns (m: seq<real>)
    requires Drainable(a)
    ensures |m| == n + 1 && m[0] == Abs(a) && m[n] == Abs(Drained(a, n))
    ensures forall k | 0 < k < |m| :: Contracts(m, k)
  {
    if n == 0 {
      m := [Abs(a)];
    } else {
      var before := DrainSizes(a, n - 1);
      DrainedStep(a, n);
      m := before + [Abs(Drained(a, n))];
      forall k | 0 < k < |m| ensures Contracts(m, k) {
        assert k < n ==> Contracts(before, k);
      }
    }
  }

  lemma GeometricFrom(first: real, last: real, m: seq<real>, n: nat)
    requires |m| == n + 1 && m[0] == first && m[n] == last
    requires forall k | 0 < k < |m| :: Contracts(m, k)
    ensures last <= Pow(0.55, n) * first + 10.0 / 9.0
  {
    Geometric(m, n);
  }

  predicate Within(last: real, first: real, n: nat) {
    last <= Pow(0.55, n) * first + 10.0 / 9.0
  }

  /** After n flushes at most 0.55 to the n of the amount is left, and a little over one pixel. */
  predicate DrainedWithin(a: real, n: nat) {
    Within(Abs(Drained(a, n)), Abs(a), n)
  }

  lemma DrainBound(a: real, n: nat, first: real, last: real)
    requires Drainable(a) && first == Abs(a) && last == Abs(Drained(a, n))
    ensures Within(last, first, n)
  {
    var m := DrainSizes(a, n);
    GeometricFrom(first, last, m, n);
  }

  /** The drain is geometric from the start exactly when the first share fits the 32-bit chunk. */
  lemma DrainIsGeometricIff(a: real)
    ensures (forall n: nat :: DrainedWithin(a, n)) <==> Drainable(a)
  {
    if Drainable(a) {
      forall n: nat ensures DrainedWithin(a, n) {
        DrainBound(a, n, Abs(a), Abs(Drained(a, n)));
      }
    } else {
      FirstStepBoundIff(a);
      assert Pow(0.55, 1) == 0.55 * Pow(0.55, 0) == 0.55;
      assert Drained(a, 1) == LineRest(Drained(a, 0)) == LineRest(a);
      assert !DrainedWithin(a, 1);
    }
  }

  predicate Whole(r: real) {
    r == r.Floor as real
  }

  lemma WholeDifference(n: int, c: int)
    ensures Whole(n as real - c as real)
    ensures Abs(n as real - c as real) < 0.5 ==> n == c
  {
    assert n as real - c as real == (n - c) as real;
  }

  lemma WholeStep(r: real)
    requires Whole(r)
    ensures Whole(LineRest(r)) && LineChunk(r) as real + LineRest(r) == r
    ensures Abs(LineRest(r)) <= if Abs(r) >= 1.0 then Abs(r) - 1.0 else 0.0
  {
    LineNeverOvershoots(r);
    var c := LineChunk(r);
    WholeDifference(r.Floor, c);
    assert Abs(c as real) >= 1.0 || c == 0;
  }

  /** What is left of `full` after as many steps of at least one as there are. */
  function Below(full: real, n: nat): real {
    if full >= n as real then full - n as real else 0.0
  }

  lemma BelowSteps(full: real, n: nat, before: real, now: real)
    requires n > 0 && full >= 0.0 && before <= Below(full, n - 1)
    requires now <= if before >= 1.0 then before - 1.0 else 0.0
    ensures now <= Below(full, n)
  {
  }

  lemma {:induction false} WholeDrain(a: real, n: nat)
    requires Whole(a)
    ensures Whole(Drained(a, n)) && DrainedOut(a, n) as real + Drained(a, n) == a
    ensures Abs(Drained(a, n)) <= Below(Abs(a), n)
  {
    if n > 0 {
      WholeDrain(a, n - 1);
      WholeStep(Drained(a, n - 1));
      BelowSteps(Abs(a), n, Abs(Drained(a, n - 1)), Abs(Drained(a, n)));
    }
  }

  /** A whole number of pixels comes out exactly, and is all out after as many flushes as pixels. */
  lemma WholeBurstIsExact(a: real, n: nat)
    requires Whole(a) && n as real >= Abs(a)
    ensures Drained(a, n) == 0.0 && DrainedOut(a, n) as real == a
  {
    WholeDrain(a, n);
  }

  // ----- the accumulator -----

  datatype View = View(
    ax: real, ay: real, x: int, y: int, mods: int, precise: bool, pending: bool, scheduled: bool)

  datatype ScrollFlush = ScrollFlush(x: int, y: int, dx: int, dy: int, mods: int, precise: bool)

  const EMPTY := View(0.0, 0.0, 0, 0, 0, false, false, false)

  datatype Op =
    | Accumulate(x: int, y: int, mods: int, precise: bool, dx: real, dy: real)
    | Flush

  datatype Axis = X | Y

  function Along(axis: Axis, v: View): real {
    if axis == X then v.ax else v.ay
  }

  function Pixels(op: Op, axis: Axis): real
    requires op.Accumulate?
  {
    var d := if axis == X then op.dx else op.dy;
    if op.precise then d else d * PIXELS_PER_TICK
  }

  /** What a flush of `v` forwards along an axis. */
  function Out(v: View, axis: Axis): int {
    if v.pending then Chunk(Along(axis, v), v.precise) else 0
  }

  function Left(v: View, axis: Axis): real {
    if v.pending then Rest(Along(axis, v), v.precise) else Along(axis, v)
  }

  function Step(v: View, op: Op): View {
    match op
    case Accumulate(x, y, mods, precise, _, _) =>
      View(v.ax + Pixels(op, X), v.ay + Pixels(op, Y), x, y, mods, precise, true, true)
    case Flush =>
      v.(ax := Left(v, X), ay := Left(v, Y), scheduled := false,
         pending := v.pending && (Left(v, X) != 0.0 || Left(v, Y) != 0.0))
  }

  /** One axis of a line flush: the nudged share, then the remainder with a stub below half a pixel dropped. */
  method DrainLine(a: real) returns (d: int, rest: real)
    ensures d == LineChunk(a) && rest == LineRest(a)
  {
    d := ToI32(Round(a * DRAIN));
    if d == 0 && Abs(a) >= 1.0 {
      d := if a > 0.0 then 1 else -1;
    }
    rest := a - d as real;
    if Abs(rest) < 0.5 {
      rest := 0.0;
    }
  }

  class ScrollAccum {
    var ax: real
    var ay: real
    var x: int
    var y: int
    var mods: int
    var precise: bool
    var pending: bool
    var flushScheduled: bool

    function AsView(): View
      reads this
    {
      View(ax, ay, x, y, mods, precise, pending, flushScheduled)
    }

    constructor ()
      ensures AsView() == EMPTY
    {
      ax, ay, x, y, mods := 0.0, 0.0, 0, 0, 0;
      precise, pending, flushScheduled := false, false, false;
    }

    method Accumulate(x: int, y: int, mods: int, precise: bool, dx: real, dy: real) returns (schedule: bool)
      modifies this
      ensures AsView() == Step(old(AsView()), Op.Accumulate(x, y, mods, precise, dx, dy))
      ensures ax == old(ax) + (if precise then dx else 40.0 * dx) && ay == old(ay) + if precise then dy else 40.0 * dy
      ensures this.x == x && this.y == y && this.mods == mods && this.precise == precise && pending
      ensures schedule <==> !old(flushScheduled)
    {
      this.x, this.y, this.mods, this.precise := x, y, mods, precise;
      if precise {
        ax := ax + dx;
        ay := ay + dy;
      } else {
        ax := ax + dx * PIXELS_PER_TICK;
        ay := ay + dy * PIXELS_PER_TICK;
      }
      pending := true;
      schedule := !flushScheduled;
      flushScheduled := true;
    }

    method Flush() returns (r: Option<ScrollFlush>)
      modifies this
      ensures AsView() == Step(old(AsView()), Op.Flush)
      ensures var v := old(AsView());
              r == if Out(v, X) == 0 && Out(v, Y) == 0 then None
                   else Some(ScrollFlush(v.x, v.y, Out(v, X), Out(v, Y), v.mods, v.precise))
    {
      flushScheduled := false;
      if !pending {
        return None;
      }
      var dx, dy;
      if precise {
        dx, dy := ToI32(Round(ax)), ToI32(Round(ay));
        ax, ay := ax - dx as real, ay - dy as real;
      } else {
        dx, ax := DrainLine(ax);
        dy, ay := DrainLine(ay);
      }
      pending := ax != 0.0 || ay != 0.0;
      if dx == 0 && dy == 0 {
        return None;
      }
      r := Some(ScrollFlush(x, y, dx, dy, mods, precise));
    }
  }

  // ----- whole runs -----

  function After(ops: seq<Op>): View {
    if ops == [] then EMPTY else Step(After(ops[..|ops| - 1]), ops[|ops| - 1])
  }

  /** What came in along an axis, in pixels: trackpad deltas as they are, a wheel line as forty. */
  function Inputs(ops: seq<Op>, axis: Axis): real {
    if ops == [] then 0.0
    else
      Inputs(ops[..|ops| - 1], axis)
      + match (ops[|ops| - 1], axis)
        case (Accumulate(_, _, _, precise, dx, _), X) => if precise then dx else 40.0 * dx
        case (Accumulate(_, _, _, precise, _, dy), Y) => if precise then dy else 40.0 * dy
        case _ => 0.0
  }

  function LastEvent(ops: seq<Op>): (e: Option<Op>)
    ensures e.Some? ==> e.value.Accumulate?
  {
    if ops == [] then None
    else if ops[|ops| - 1].Accumulate? then Some(ops[|ops| - 1])
    else LastEvent(ops[..|ops| - 1])
  }

  /** Position, modifiers and kind are the last event's, whatever was flushed since. */
  lemma {:induction false} LastEventOwns(ops: seq<Op>)
    ensures var v := After(ops);
            match LastEvent(ops)
            case None => v.x == 0 && v.y == 0 && v.mods == 0 && !v.precise
            case Some(e) => v.x == e.x && v.y == e.y && v.mods == e.mods && v.precise == e.precise
  {
    if ops != [] {
      LastEventOwns(ops[..|ops| - 1]);
    }
  }

  function Emitted(ops: seq<Op>, axis: Axis): int {
    if ops == [] then 0
    else
      var init := ops[..|ops| - 1];
      Emitted(init, axis) + if ops[|ops| - 1].Flush? then Out(After(init), axis) else 0
  }

  function LineFlushes(ops: seq<Op>): nat {
    if ops == [] then 0
    else
      var init := ops[..|ops| - 1];
      LineFlushes(init) + if ops[|ops| - 1].Flush? && !After(init).precise then 1 else 0
  }

  function Missing(ops: seq<Op>, axis: Axis): real {
    Inputs(ops, axis) - Emitted(ops, axis) as real - Along(axis, After(ops))
  }

  /** What one flush drops. */
  function Dropped(v: View, axis: Axis): real {
    Along(axis, v) - Out(v, axis) as real - Left(v, axis)
  }

  lemma MissingStep(ops: seq<Op>, axis: Axis)
    requires ops != []
    ensures var init := ops[..|ops| - 1];
            Missing(ops, axis) == Missing(init, axis)
                                  + if ops[|ops| - 1].Flush? then Dropped(After(init), axis) else 0.0
  {
  }

  /** One flush: the amount splits into the forwarded chunk, the remainder and a drop below half a pixel. */
  lemma FlushConserves(v: View, axis: Axis)
    ensures Abs(Dropped(v, axis)) < 0.5 && (v.precise ==> Dropped(v, axis) == 0.0)
    ensures Dropped(v, axis) != 0.0 ==> Left(v, axis) == 0.0
  {
  }

  /**
   * Nothing is invented or lost: what came in is what was forwarded plus what
   * is left, up to less than half a pixel for each line flush. With precise
   * flushes only, the account is exact.
   */
  lemma {:induction false} Conservation(ops: seq<Op>, axis: Axis)
    ensures Abs(Missing(ops, axis)) <= 0.5 * LineFlushes(ops) as real
  {
    if ops != [] {
      Conservation(ops[..|ops| - 1], axis);
      MissingStep(ops, axis);
      FlushConserves(After(ops[..|ops| - 1]), axis);
    }
  }

  /** A flush that finds nothing pending finds nothing to drain either. */
  lemma {:induction false} NothingPendingNothingLeft(ops: seq<Op>)
    ensures !After(ops).pending ==> After(ops).ax == 0.0 && After(ops).ay == 0.0
  {
    if ops != [] {
      NothingPendingNothingLeft(ops[..|ops| - 1]);
    }
  }

  /** After a flush another one is pending exactly when something is left. */
  lemma FlushPendsIff(ops: seq<Op>)
    ensures var v := After(ops + [Flush]);
            !v.scheduled && (v.pending <==> v.ax != 0.0 || v.ay != 0.0)
  {
    NothingPendingNothingLeft(ops);
    assert (ops + [Flush])[..|ops|] == ops;
  }

  /** Every line flush that forwards anything brings the two axes together at least one pixel nearer zero. */
  lemma EmittingFlushMakesProgress(v: View)
    requires v.pending && !v.precise && (Out(v, X) != 0 || Out(v, Y) != 0)
    ensures Abs(Left(v, X)) + Abs(Left(v, Y)) <= Abs(v.ax) + Abs(v.ay) - 1.0
  {
    LineNeverOvershoots(v.ax);
    LineNeverOvershoots(v.ay);
  }

  /** Between two flushes exactly the first event asks for one to be scheduled. */
  lemma {:induction false} OneScheduledFlush(ops: seq<Op>)
    ensures After(ops).scheduled <==> ops != [] && ops[|ops| - 1].Accumulate?
  {
  }
}
