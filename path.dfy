/**
 * The trajectory solver of tracking/path.py: a `Path` holds the fitted model
 * `posY` (horizontal pixel coordinate to vertical pixel coordinate) and
 * `FallingPoint` bisects the camera window for the coordinate where the
 * model reaches the catch height.  Coordinates are exact reals.
 */
module Path {
  import opened Common

  /** The camera window the tracker reports; the solver reads only its width. */
  datatype Window = Window(width: real, height: real)

  /** Default arguments of `falling_point`. */
  const DefaultX0: real := 0.0
  const DefaultHLimit: real := 0.0
  const DefaultPrecision: real := 0.01

  /** The pair of locals `left`, `right` of the bisection loop. */
  datatype Interval = Interval(left: real, right: real)

  function Mid(i: Interval): real
  {
    (i.left + i.right) / 2.0
  }

  /** Signed width `right - left`; the loop compares its absolute value. */
  function Width(i: Interval): real
  {
    i.right - i.left
  }

  /** `a` and `b` are non-zero and of opposite signs. */
  predicate OppositeSigns(a: real, b: real)
  {
    (a < 0.0 && b > 0.0) || (a > 0.0 && b < 0.0)
  }

  /**
   * The test that keeps the left half, on `a = pos_y(left) - h` and
   * `b = pos_y(middle) - h`.  With `strict` it is the program's
   * `a * b < 0`; without, the corrected `a * b <= 0`, which also keeps the
   * left half when one of the two is exactly on the target height.  It is
   * stated by signs; `KeepsLeftIsProductTest` shows that it is the product test.
   */
  predicate KeepsLeft(strict: bool, a: real, b: real)
  {
    OppositeSigns(a, b) || (!strict && (a == 0.0 || b == 0.0))
  }

  lemma KeepsLeftIsProductTest(strict: bool, a: real, b: real)
    ensures KeepsLeft(strict, a, b) <==> if strict then a * b < 0.0 else a * b <= 0.0
  {
    ProductSigns(a, b);
  }

  /** One pass of the loop body: replace one end by the midpoint. */
  function Step(strict: bool, f: real -> real, h: real, i: Interval): (j: Interval)
    ensures Width(j) == Width(i) / 2.0
    ensures j.left == i.left || j.left == Mid(i)
    ensures j.right == i.right || j.right == Mid(i)
  {
    var m := Mid(i);
    if KeepsLeft(strict, f(i.left) - h, f(m) - h) then Interval(i.left, m) else Interval(m, i.right)
  }

  /** The interval after `n` passes of the loop body. */
  function Run(strict: bool, f: real -> real, h: real, i: Interval, n: nat): Interval
  {
    if n == 0 then i else Step(strict, f, h, Run(strict, f, h, i, n - 1))
  }

  /** A natural number that halving a wide interval strictly decreases. */
  function Budget(w: real, p: real): nat
    requires p > 0.0
  {
    if Abs(w) < p then 0 else (Abs(w) / p).Floor
  }

  lemma HalvingShrinksBudget(w: real, p: real)
    requires p > 0.0 && Abs(w) >= p
    ensures Budget(w / 2.0, p) < Budget(w, p)
  {
    var x := Abs(w) / p;
    assert x >= 1.0;
    assert Abs(w / 2.0) / p == x / 2.0;
    if Abs(w / 2.0) >= p {
      var n := (x / 2.0).Floor;
      assert n as real <= x / 2.0;
      assert (n + 1) as real <= x;
    }
  }

  /**
   * The number of passes the loop makes on an interval of signed width `w`:
   * the number of halvings that bring `|w|` under `p` (see `StepsNarrow`).
   */
  function Steps(w: real, p: real): (n: nat)
    requires p > 0.0
    ensures n == 0 <==> Abs(w) < p
    decreases Budget(w, p)
  {
    if Abs(w) < p then 0
    else
      HalvingShrinksBudget(w, p);
      1 + Steps(w / 2.0, p)
  }

  /** The final interval of `falling_point(window, x0, h, p)` on model `f`. */
  function Final(strict: bool, f: real -> real, h: real, x0: real, width: real, p: real): Interval
    requires p > 0.0
  {
    Run(strict, f, h, Interval(x0, width), Steps(width - x0, p))
  }

  /** The value `falling_point` returns: the midpoint of the final interval. */
  function Solve(strict: bool, f: real -> real, h: real, x0: real, width: real, p: real): real
    requires p > 0.0
  {
    Mid(Final(strict, f, h, x0, width, p))
  }

  // ---------------------------------------------------------------------
  // The object and its loop
  // ---------------------------------------------------------------------

  class Path {
    /** The model: y coordinate as a function of the x coordinate. */
    var posY: real -> real

    constructor (posY: real -> real)
      ensures this.posY == posY
    {
      this.posY := posY;
    }

    /**
     * The loop of `falling_point`, with the comparison of the program
     * (`strict`) or the corrected one.  The loop runs for exactly
     * `Steps(width - x0, precision)` passes, so it needs `precision > 0`.
     */
    method Bisect(strict: bool, window: Window, x0: real, hLimit: real, precision: real)
      returns (middle: real)
      requires precision > 0.0
      ensures middle == Solve(strict, posY, hLimit, x0, window.width, precision)
    {
      var left, right := x0, window.width;
      middle := (left + right) / 2.0;
      ghost var done: nat := 0;
      while Abs(right - left) >= precision
        invariant Interval(left, right) == Run(strict, posY, hLimit, Interval(x0, window.width), done)
        invariant middle == (left + right) / 2.0
        invariant done + Steps(right - left, precision) == Steps(window.width - x0, precision)
        decreases Steps(right - left, precision)
      {
        if KeepsLeft(strict, posY(left) - hLimit, posY(middle) - hLimit) {
          right := middle;
        } else {
          left := middle;
        }
        middle := (left + right) / 2.0;
        done := done + 1;
      }
    }

    /**
     * `falling_point` as the program has it.  It always returns a number:
     * the `None` of its documentation is never produced.
     */
    method FallingPoint(window: Window, x0: real := DefaultX0, hLimit: real := DefaultHLimit,
                        precision: real := DefaultPrecision)
      returns (x: real)
      requires precision > 0.0
      ensures x == Solve(true, posY, hLimit, x0, window.width, precision)
      ensures Abs(Width(Final(true, posY, hLimit, x0, window.width, precision))) < precision
      ensures x0 <= window.width ==> x0 <= x <= window.width
    {
      x := Bisect(true, window, x0, hLimit, precision);
      FinalNarrow(true, posY, hLimit, x0, window.width, precision);
      SolveInWindow(true, posY, hLimit, x0, window.width, precision);
    }

    /**
     * `falling_point` with `<= 0` in place of `< 0`: when the model crosses
     * the target height exactly once in the window, the result is within
     * half the precision of the crossing.
     */
    method FallingPointCorrected(window: Window, x0: real := DefaultX0, hLimit: real := DefaultHLimit,
                                 precision: real := DefaultPrecision)
      returns (x: real)
      requires precision > 0.0
      ensures x == Solve(false, posY, hLimit, x0, window.width, precision)
      ensures x0 <= window.width ==> x0 <= x <= window.width
      ensures forall root :: SoleCrossing(posY, hLimit, root, x0, window.width) ==> 2.0 * Abs(x - root) < precision
    {
      x := Bisect(false, window, x0, hLimit, precision);
      SolveInWindow(false, posY, hLimit, x0, window.width, precision);
      forall root | SoleCrossing(posY, hLimit, root, x0, window.width)
        ensures 2.0 * Abs(x - root) < precision
      {
        SolveNearRoot(false, posY, hLimit, root, x0, window.width, precision);
      }
    }
  }

  // ---------------------------------------------------------------------
  // Properties of the loop
  // ---------------------------------------------------------------------

  /** An ordered interval stays ordered and inside the initial one. */
  lemma {:induction false} RunInside(strict: bool, f: real -> real, h: real, i: Interval, n: nat)
    requires i.left <= i.right
    ensures i.left <= Run(strict, f, h, i, n).left <= Run(strict, f, h, i, n).right <= i.right
  {
    if n > 0 {
      RunInside(strict, f, h, i, n - 1);
    }
  }

  /** Running one pass first and then `n` more is running `n + 1` passes. */
  lemma {:induction false} RunFirstStep(strict: bool, f: real -> real, h: real, i: Interval, n: nat)
    ensures Run(strict, f, h, i, n + 1) == Run(strict, f, h, Step(strict, f, h, i), n)
  {
    if n > 0 {
      RunFirstStep(strict, f, h, i, n - 1);
    }
  }

  /**
   * After `Steps` passes the interval is narrower than the precision, and
   * after any fewer passes it is not: the loop exits exactly then.
   */
  lemma {:induction false} StepsNarrow(strict: bool, f: real -> real, h: real, i: Interval, p: real)
    requires p > 0.0
    ensures Abs(Width(Run(strict, f, h, i, Steps(Width(i), p)))) < p
    ensures forall k :: 0 <= k < Steps(Width(i), p) ==> Abs(Width(Run(strict, f, h, i, k))) >= p
    decreases Budget(Width(i), p)
  {
    if Abs(Width(i)) >= p {
      HalvingShrinksBudget(Width(i), p);
      var j := Step(strict, f, h, i);
      var n := Steps(Width(j), p);
      assert Steps(Width(i), p) == 1 + n;
      StepsNarrow(strict, f, h, j, p);
      RunFirstStep(strict, f, h, i, n);
      forall k | 0 <= k < 1 + n
        ensures Abs(Width(Run(strict, f, h, i, k))) >= p
      {
        if k > 0 {
          RunFirstStep(strict, f, h, i, k - 1);
        }
      }
    }
  }

  /** On exit the interval is narrower than the precision; before, it never was. */
  lemma FinalNarrow(strict: bool, f: real -> real, h: real, x0: real, width: real, p: real)
    requires p > 0.0
    ensures Abs(Width(Final(strict, f, h, x0, width, p))) < p
    ensures forall k :: 0 <= k < Steps(width - x0, p) ==> Abs(Width(Run(strict, f, h, Interval(x0, width), k))) >= p
  {
    StepsNarrow(strict, f, h, Interval(x0, width), p);
  }

  /** With `x0 <= width` the result of either comparison lies in `[x0, width]`. */
  lemma SolveInWindow(strict: bool, f: real -> real, h: real, x0: real, width: real, p: real)
    requires p > 0.0
    ensures x0 <= width ==> x0 <= Solve(strict, f, h, x0, width, p) <= width
  {
    if x0 <= width {
      RunInside(strict, f, h, Interval(x0, width), Steps(width - x0, p));
    }
  }

  // ---------------------------------------------------------------------
  // Sign changes
  // ---------------------------------------------------------------------

  /** The model minus the target height has opposite signs at the two ends. */
  predicate Bracketed(f: real -> real, h: real, i: Interval)
  {
    OppositeSigns(f(i.left) - h, f(i.right) - h)
  }

  /** None of the first `n` midpoints evaluated lands exactly on the target height. */
  predicate NoHit(strict: bool, f: real -> real, h: real, i: Interval, n: nat)
  {
    n == 0 || (NoHit(strict, f, h, i, n - 1) && f(Mid(Run(strict, f, h, i, n - 1))) != h)
  }

  lemma ProductSigns(a: real, b: real)
    ensures a < 0.0 && b < 0.0 ==> a * b > 0.0
    ensures a > 0.0 && b > 0.0 ==> a * b > 0.0
    ensures a < 0.0 && b > 0.0 ==> a * b < 0.0
    ensures a > 0.0 && b < 0.0 ==> a * b < 0.0
    ensures a * b == 0.0 <==> a == 0.0 || b == 0.0
  {
  }

  /**
   * The program's comparison keeps a sign change inside the interval as
   * long as no midpoint is exactly on the target height.
   */
  lemma {:induction false} RunKeepsBracket(f: real -> real, h: real, i: Interval, n: nat)
    requires Bracketed(f, h, i)
    requires NoHit(true, f, h, i, n)
    ensures Bracketed(f, h, Run(true, f, h, i, n))
  {
    if n > 0 {
      RunKeepsBracket(f, h, i, n - 1);
    }
  }

  /**
   * The result of the program's solver on a bracketed window, when no
   * midpoint hits the target: it lies within half the precision of both
   * ends of a final interval across which the sign changes.
   */
  lemma SolveNearBracket(f: real -> real, h: real, x0: real, width: real, p: real)
    requires p > 0.0
    requires Bracketed(f, h, Interval(x0, width))
    requires NoHit(true, f, h, Interval(x0, width), Steps(width - x0, p))
    ensures Bracketed(f, h, Final(true, f, h, x0, width, p))
    ensures 2.0 * Abs(Solve(true, f, h, x0, width, p) - Final(true, f, h, x0, width, p).left) < p
    ensures 2.0 * Abs(Solve(true, f, h, x0, width, p) - Final(true, f, h, x0, width, p).right) < p
  {
    RunKeepsBracket(f, h, Interval(x0, width), Steps(width - x0, p));
    FinalNarrow(true, f, h, x0, width, p);
  }

  /** The model has no sign change anywhere in `[a, b]`. */
  ghost predicate SameSide(f: real -> real, h: real, a: real, b: real)
  {
    forall x, y :: a <= x <= b && a <= y <= b ==> !OppositeSigns(f(x) - h, f(y) - h)
  }

  /** Without a sign change only `left = middle` runs: the right end never moves. */
  lemma {:induction false} RunDriftsRight(f: real -> real, h: real, i: Interval, n: nat)
    requires i.left <= i.right
    requires SameSide(f, h, i.left, i.right)
    ensures Run(true, f, h, i, n).right == i.right
  {
    if n > 0 {
      RunDriftsRight(f, h, i, n - 1);
      RunInside(true, f, h, i, n - 1);
      var j := Run(true, f, h, i, n - 1);
      assert i.left <= Mid(j) <= i.right;
      assert !OppositeSigns(f(j.left) - h, f(Mid(j)) - h);
    }
  }

  /**
   * When the model never crosses the target height in view, the program
   * does not report it: it returns a point within half the precision of
   * the right edge of the window.
   */
  lemma SolveWithoutCrossing(f: real -> real, h: real, x0: real, width: real, p: real)
    requires p > 0.0 && x0 <= width
    requires SameSide(f, h, x0, width)
    ensures Final(true, f, h, x0, width, p).right == width
    ensures width - p / 2.0 < Solve(true, f, h, x0, width, p) <= width
  {
    RunDriftsRight(f, h, Interval(x0, width), Steps(width - x0, p));
    RunInside(true, f, h, Interval(x0, width), Steps(width - x0, p));
    FinalNarrow(true, f, h, x0, width, p);
  }

  /** A model 50 pixels above the catch plane over a 640-pixel window. */
  lemma ConstantAboveDrifts()
    ensures 639.995 < Solve(true, x => 50.0, 0.0, DefaultX0, 640.0, DefaultPrecision) <= 640.0
  {
    SolveWithoutCrossing(x => 50.0, 0.0, DefaultX0, 640.0, DefaultPrecision);
  }

  // ---------------------------------------------------------------------
  // A sole crossing of the target height
  // ---------------------------------------------------------------------

  /**
   * `root` is the one point of `[a, b]` where the model meets the target
   * height; the model is strictly on one side before it and strictly on
   * the other side after it.
   */
  ghost predicate SoleCrossing(f: real -> real, h: real, root: real, a: real, b: real)
  {
    a <= root <= b && f(root) == h &&
    (((forall x :: a <= x < root ==> f(x) < h) && (forall x :: root < x <= b ==> f(x) > h)) ||
     ((forall x :: a <= x < root ==> f(x) > h) && (forall x :: root < x <= b ==> f(x) < h)))
  }

  /**
   * The corrected comparison always keeps the crossing inside the interval;
   * the program's comparison does so too when the window does not start on
   * the crossing and no midpoint lands on it.
   */
  lemma {:induction false} RunTracksRoot(strict: bool, f: real -> real, h: real, root: real, a: real, b: real, n: nat)
    requires SoleCrossing(f, h, root, a, b)
    requires strict ==> a != root && NoHit(true, f, h, Interval(a, b), n)
    ensures a <= Run(strict, f, h, Interval(a, b), n).left <= root <= Run(strict, f, h, Interval(a, b), n).right <= b
    ensures strict ==> Run(strict, f, h, Interval(a, b), n).left != root
  {
    if n > 0 {
      RunTracksRoot(strict, f, h, root, a, b, n - 1);
      var j := Run(strict, f, h, Interval(a, b), n - 1);
      var m := Mid(j);
      if m < root {
        assert j.left < root;
      } else if m == root {
        assert !strict;
      }
    }
  }

  /** The result is within half the precision of the sole crossing. */
  lemma SolveNearRoot(strict: bool, f: real -> real, h: real, root: real, x0: real, width: real, p: real)
    requires p > 0.0
    requires SoleCrossing(f, h, root, x0, width)
    requires strict ==> x0 != root && NoHit(true, f, h, Interval(x0, width), Steps(width - x0, p))
    ensures 2.0 * Abs(Solve(strict, f, h, x0, width, p) - root) < p
  {
    RunTracksRoot(strict, f, h, root, x0, width, Steps(width - x0, p));
    FinalNarrow(strict, f, h, x0, width, p);
  }

  /**
   * If the first midpoint is exactly on the target height and there is no
   * sign change to its right, the program's solver returns a point within
   * half the precision of the right edge, however far the crossing is.
   */
  lemma HitAtFirstMidpointDrifts(f: real -> real, h: real, x0: real, width: real, p: real)
    requires p > 0.0 && x0 <= width && width - x0 >= p
    requires f(Mid(Interval(x0, width))) == h
    requires SameSide(f, h, Mid(Interval(x0, width)), width)
    ensures width - p / 2.0 < Solve(true, f, h, x0, width, p) <= width
  {
    var i := Interval(x0, width);
    var m := Mid(i);
    var n := Steps(width - m, p);
    assert Steps(width - x0, p) == 1 + n;
    assert Step(true, f, h, i) == Interval(m, width);
    RunFirstStep(true, f, h, i, n);
    SolveWithoutCrossing(f, h, m, width, p);
  }

  /**
   * If the window starts exactly on the target height and there is no sign
   * change right of the first midpoint, the program's solver returns a point
   * within half the precision of the right edge: the product with the left
   * end is 0 on the first pass, so `left` moves to the midpoint.
   */
  lemma StartOnCrossingDrifts(f: real -> real, h: real, x0: real, width: real, p: real)
    requires p > 0.0 && x0 <= width && width - x0 >= p
    requires f(x0) == h
    requires SameSide(f, h, Mid(Interval(x0, width)), width)
    ensures width - p / 2.0 < Solve(true, f, h, x0, width, p) <= width
  {
    var i := Interval(x0, width);
    var m := Mid(i);
    var n := Steps(width - m, p);
    assert Steps(width - x0, p) == 1 + n;
    assert Step(true, f, h, i) == Interval(m, width);
    RunFirstStep(true, f, h, i, n);
    SolveWithoutCrossing(f, h, m, width, p);
  }

  /** The program's solver on `y = x` over a 640-pixel window, which starts on the crossing. */
  lemma StartOnRootDrifts()
    ensures 639.995 < Solve(true, x => x, 0.0, DefaultX0, 640.0, DefaultPrecision) <= 640.0
  {
    var f: real -> real := x => x;
    assert SameSide(f, 0.0, 320.0, 640.0);
    StartOnCrossingDrifts(f, 0.0, DefaultX0, 640.0, DefaultPrecision);
  }

  /** With the corrected comparison the same input comes within 0.005 of 0. */
  lemma StartOnRootCorrected()
    ensures Abs(Solve(false, x => x, 0.0, DefaultX0, 640.0, DefaultPrecision)) < 0.005
  {
    var f: real -> real := x => x;
    assert SoleCrossing(f, 0.0, 0.0, 0.0, 640.0);
    SolveNearRoot(false, f, 0.0, 0.0, DefaultX0, 640.0, DefaultPrecision);
  }

  /**
   * The program's solver on the line `y = x - 320` over a 640-pixel window:
   * the first midpoint is the crossing itself, the product is 0, the
   * `else` branch moves `left` onto the crossing, and from then on the
   * result drifts to the right edge, 320 pixels away from the crossing.
   */
  lemma RootHitDrifts()
    ensures 639.995 < Solve(true, x => x - 320.0, 0.0, DefaultX0, 640.0, DefaultPrecision) <= 640.0
  {
    var f: real -> real := x => x - 320.0;
    assert SameSide(f, 0.0, 320.0, 640.0);
    HitAtFirstMidpointDrifts(f, 0.0, DefaultX0, 640.0, DefaultPrecision);
  }

  /** With the corrected comparison the same input comes within 0.005 of 320. */
  lemma RootHitCorrected()
    ensures Abs(Solve(false, x => x - 320.0, 0.0, DefaultX0, 640.0, DefaultPrecision) - 320.0) < 0.005
  {
    var f: real -> real := x => x - 320.0;
    assert SoleCrossing(f, 0.0, 320.0, 0.0, 640.0);
    SolveNearRoot(false, f, 0.0, 320.0, DefaultX0, 640.0, DefaultPrecision);
  }
}
