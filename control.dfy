/**
 * The rules of main() in main.py: the colour window of the tracked object,
 * the conversion of a predicted landing coordinate into an encoder-tick
 * command, and the tracking loop that keeps the history of positions from
 * which each model is fitted.
 */
module Control {
  import opened Common
  import opened Path

  /** A tracked pixel position of the object. */
  datatype Position = Position(x: real, y: real)

  // ---------------------------------------------------------------------
  // Colour window
  // ---------------------------------------------------------------------

  /** Half-width of the colour window, per channel. */
  const ColorMargin: int := 20

  /** Lower and upper colour bounds, one entry per channel. */
  datatype ColorRange = ColorRange(lower: seq<int>, upper: seq<int>)

  /** Every channel of `color` moved by `d`. */
  function Shift(color: seq<int>, d: int): (s: seq<int>)
    ensures |s| == |color|
    ensures forall i :: 0 <= i < |color| ==> s[i] == color[i] + d
  {
    if color == [] then [] else [color[0] + d] + Shift(color[1..], d)
  }

  /** `lower` and `upper` of main(): the object colour minus and plus 20 on each channel. */
  function ColorBounds(color: seq<int>): (r: ColorRange)
    ensures |r.lower| == |color| && |r.upper| == |color|
    ensures forall i :: 0 <= i < |color| ==> r.lower[i] == color[i] - ColorMargin && r.upper[i] == color[i] + ColorMargin
  {
    ColorRange(Shift(color, -ColorMargin), Shift(color, ColorMargin))
  }

  /** A pixel lies within a colour range, channel by channel. */
  predicate InRange(r: ColorRange, pixel: seq<int>)
  {
    |pixel| == |r.lower| && |pixel| == |r.upper| &&
    forall i :: 0 <= i < |pixel| ==> r.lower[i] <= pixel[i] <= r.upper[i]
  }

  /** Each window holds its colour and is 40 wide on every channel. */
  lemma ColorBoundsAroundColor(color: seq<int>)
    ensures InRange(ColorBounds(color), color)
    ensures forall i :: 0 <= i < |color| ==> ColorBounds(color).upper[i] - ColorBounds(color).lower[i] == 2 * ColorMargin
  {
  }

  /** A pixel is in the window exactly when no channel is more than 20 from the colour. */
  lemma InRangeIffNear(color: seq<int>, pixel: seq<int>)
    ensures InRange(ColorBounds(color), pixel) <==>
            |pixel| == |color| && forall i :: 0 <= i < |pixel| ==> Abs((pixel[i] - color[i]) as real) <= ColorMargin as real
  {
  }

  // ---------------------------------------------------------------------
  // Actuator command
  // ---------------------------------------------------------------------

  /** The factor 1000 of the command expression. */
  const TickScale: real := 1000.0

  /** The exception the command expression raises. */
  datatype TickError = ZeroDivision

  /**
   * `int((x_fall / px_m_ratio) * encoder_ratio * 1000)`: Python's `int`
   * truncates toward zero, and a zero ratio raises a division error.
   */
  function TickCommand(xFall: real, pxMRatio: real, encoderRatio: real): (r: Result<int, TickError>)
    ensures r.Err? <==> pxMRatio == 0.0
    ensures r.Ok? ==> var exact := xFall / pxMRatio * encoderRatio * TickScale;
      Abs(r.value as real) <= Abs(exact) < Abs(r.value as real) + 1.0 &&
      (exact >= 0.0 ==> r.value >= 0) && (exact <= 0.0 ==> r.value <= 0)
  {
    if pxMRatio == 0.0 then Err(ZeroDivision)
    else Ok(Trunc(xFall / pxMRatio * encoderRatio * TickScale))
  }

  // ---------------------------------------------------------------------
  // Tracking loop
  // ---------------------------------------------------------------------

  /**
   * What one pass of the tracking loop reads from its collaborators: the
   * object's position and whether the `q` key was pressed.
   */
  datatype Frame = Frame(position: Position, quit: bool)

  /**
   * How the loop ended: the object left the view, `q` was pressed, or the
   * command expression failed; in the last case the program retries the
   * same failing expression forever.
   */
  datatype Exit = OutOfRange | QuitKey | Stalled

  /** `path.falling_point(ball.window)`: the program's solver with its defaults, on one model. */
  function Predicted(model: real -> real, window: Window): real
  {
    Solve(true, model, DefaultHLimit, DefaultX0, window.width, DefaultPrecision)
  }

  /**
   * The tracking loop of main().  `first` is the position recorded before
   * the loop and `frames` what the loop sees while the object is in range;
   * `fit` is the motion model `free_fall`.  Each pass appends the new
   * position, fits a model on the last two positions, predicts the landing
   * coordinate and commands the motor.
   */
  method Track(first: Position, frames: seq<Frame>, fit: (Position, Position, real) -> (real -> real),
               window: Window, pxMRatio: real, encoderRatio: real)
    returns (positions: seq<Position>, models: seq<real -> real>, xFalls: seq<real>, commands: seq<int>, exit: Exit)
    ensures 1 <= |positions| <= |frames| + 1 && positions[0] == first
    ensures forall j :: 1 <= j < |positions| ==> positions[j] == frames[j - 1].position
    ensures |models| == |positions| - 1 && |xFalls| == |positions| - 1
    ensures forall j :: 0 <= j < |models| ==> models[j] == fit(positions[j + 1], positions[j], pxMRatio)
    ensures forall j :: 0 <= j < |xFalls| ==> xFalls[j] == Predicted(models[j], window)
    ensures |commands| <= |xFalls|
    ensures forall j :: 0 <= j < |commands| ==> TickCommand(xFalls[j], pxMRatio, encoderRatio) == Ok(commands[j])
    ensures forall j :: 0 <= j < |positions| - 2 ==> !frames[j].quit
    ensures exit == Stalled <==> pxMRatio == 0.0 && |frames| > 0
    ensures exit == Stalled ==> |positions| == 2 && commands == []
    ensures exit != Stalled ==> |commands| == |xFalls|
    ensures exit == QuitKey ==> |positions| >= 2 && frames[|positions| - 2].quit
    ensures exit == OutOfRange ==> |positions| == |frames| + 1 && forall j :: 0 <= j < |frames| ==> !frames[j].quit
  {
    positions, models, xFalls, commands := [first], [], [], [];
    exit := OutOfRange;
    var i := 0;
    while i < |frames|
      invariant 0 <= i <= |frames|
      invariant |positions| == i + 1 && positions[0] == first
      invariant forall j :: 1 <= j <= i ==> positions[j] == frames[j - 1].position
      invariant |models| == i && |xFalls| == i && |commands| == i
      invariant forall j :: 0 <= j < i ==> models[j] == fit(positions[j + 1], positions[j], pxMRatio)
      invariant forall j :: 0 <= j < i ==> xFalls[j] == Predicted(models[j], window)
      invariant forall j :: 0 <= j < i ==> TickCommand(xFalls[j], pxMRatio, encoderRatio) == Ok(commands[j])
      invariant forall j :: 0 <= j < i ==> !frames[j].quit
      invariant i > 0 ==> pxMRatio != 0.0
    {
      positions := positions + [frames[i].position];
      // The history now holds at least two positions.
      var model := fit(positions[|positions| - 1], positions[|positions| - 2], pxMRatio);
      models := models + [model];
      var path := new Path(model);
      var xFall := path.FallingPoint(window);
      xFalls := xFalls + [xFall];
      var command := TickCommand(xFall, pxMRatio, encoderRatio);
      if command.Err? {
        exit := Stalled;
        return;
      }
      commands := commands + [command.value];
      if frames[i].quit {
        exit := QuitKey;
        return;
      }
      i := i + 1;
    }
  }
}
