# A verified model of the catching robot's prediction core

The repository drives a motorised basket along a rail so that it catches a falling ball that a camera follows. Each time the ball is seen, the program does four things:

- it records the ball's pixel position;
- it fits a falling-body model `pos_y(x)` from the last two positions;
- it bisects the camera window for the horizontal coordinate where the model meets the catch height (`Path.falling_point`);
- it sends the motor a target in encoder ticks.

The model covers two parts of `tracking/path.py` and `main.py`:

- `path.dfy` (module `Path`): the trajectory solver. `Path` is a class whose field `posY` the constructor sets. `FallingPoint` is the source's bisection loop over exact reals. Exactly what it computes is the function `Solve`. The lemmas cover the loop's exit width, staying inside the window, the sign-change bracket, the result of a model with no crossing, the result near a single crossing, and the defect described under Findings. The tracking loop calls this program solver, with the defect. `KeepsLeft` states the loop's product test `(pos_y(left) - h) * (pos_y(middle) - h) < 0` as sign cases, and `KeepsLeftIsProductTest` proves the two equal.
- `control.dfy` (module `Control`): the rules inside `main()`:
  - the colour window ±20 per channel;
  - the tick command `int((x_fall / px_m_ratio) * encoder_ratio * 1000)`, which truncates toward zero;
  - the tracking loop. It appends one position per pass, so positions `[-1]` and `[-2]` always exist when the model is fitted.
- `test_runner.dfy` (module `TestRunner`): `run_tests` after its menu:
  - `answer.split(',')`;
  - Python's `int` on each piece;
  - running exactly the in-range choices, in order, repeats included.
- `command_line.dfy` (module `CommandLine`): the `__main__` block:
  - the `--source` and `--port` overrides;
  - dispatch on `mode`;
  - the order in which configuration menus and the mode run.
- `common.dfy` (module `Common`): Option/Result, `Abs`, truncation, and ASCII digit strings.

Collaborators whose code is not part of this model become parameters:

- the fitted model `free_fall` is a `fit` function returning a `real -> real`;
- the ball tracker's positions and the `q` key are a sequence of `Frame`s;
- `list_tests()` is its length `nbTests`;
- calling a test is recorded as its index.

Facts about the program that the model keeps as they are:

- `falling_point` never signals a miss: it always returns a number, even when its documentation says `None`;
- the motor write is retried without bound;
- the tick count is truncated toward zero;
- the position history is only appended to.

## Model

| member | source | states |
|---|---|---|
| `Path.Path.constructor` | tracking/path.py:8-14 | the model `posY` is the function given; no method of `Path` changes it afterwards (none has a `modifies` clause) |
| `Path.Path.Bisect` | tracking/path.py:26-38 | the bisection loop starting from `[x0, width]` returns, after exactly `Steps(width - x0, precision)` passes, the midpoint of the final interval; it terminates whenever `precision > 0` |
| `Path.Path.FallingPoint` | tracking/path.py:16-38 | `falling_point` with its defaults `x0 = 0`, `h_limit = 0`, `precision = 0.01` always returns a number (never `None`); the final interval is narrower than `precision`; with `x0 <= width` the result lies in `[x0, width]` |
| `Path.Path.FallingPointCorrected` | tracking/path.py:26-38 | the same loop with `<= 0`: in `[x0, width]` when `x0 <= width`, and within `precision / 2` of the crossing whenever the model crosses the target height exactly once in the window |
| `Path.Run` | tracking/path.py:26-36 | the interval `(left, right)` after `n` passes of the loop body from the given one, with the program's or the corrected test |
| `Path.Final` | tracking/path.py:26-36 | the interval the loop ends with: `Run` from `(x0, width)` for `Steps(width - x0, precision)` passes |
| `Path.Solve` | tracking/path.py:26-38 | the value `falling_point` returns: the midpoint of `Final`; the method `FallingPoint` is proved to compute it |
| `Path.Step` | tracking/path.py:31-36 | one pass halves the signed width `right - left` and replaces exactly one end by the midpoint |
| `Path.Steps` | tracking/path.py:29 | the number of passes is zero exactly when `abs(right - left) < precision` already holds |
| `Path.StepsNarrow` | tracking/path.py:29-36 | after `Steps` passes the interval is narrower than `precision`, and after every smaller number of passes it is not |
| `Path.FinalNarrow` | tracking/path.py:29-38 | on exit `abs(right - left) < precision`, and the loop condition held on every earlier pass |
| `Path.RunInside` | tracking/path.py:26-36 | with `x0 <= width`, `x0 <= left <= right <= width` holds after every number of passes |
| `Path.SolveInWindow` | tracking/path.py:26-38 | with `x0 <= width` the returned midpoint lies in `[x0, width]` |
| `Path.KeepsLeftIsProductTest` | tracking/path.py:31 | the sign test of the model is the program's product test `a * b < 0` (and the corrected `a * b <= 0`) |
| `Path.RunKeepsBracket` | tracking/path.py:31-34 | if `pos_y - h` has strictly opposite signs at the two ends and no tested midpoint hits `h`, the opposite signs survive every pass |
| `Path.SolveNearBracket` | tracking/path.py:29-38 | under the same conditions, the final interval still straddles the sign change and the result is within `precision / 2` of both of its ends |
| `Path.RunDriftsRight` | tracking/path.py:31-34 | with no sign change in the window only `left = middle` runs, so `right` stays at the window's width |
| `Path.SolveWithoutCrossing` | tracking/path.py:31-38 | with no sign change in the window the result is within `precision / 2` of the width, rather than the `None` the docstring (lines 18-19) promises |
| `Path.ConstantAboveDrifts` | tracking/path.py:16-38 | a model constant 50 pixels above the catch plane, on a 640-pixel window, gives a result in `(639.995, 640]` |
| `Path.RunTracksRoot` | tracking/path.py:31-36 | for a single crossing, the corrected test always keeps it in `[left, right]`; the program's test keeps it there as long as the window does not start on it and no midpoint lands on it |
| `Path.SolveNearRoot` | tracking/path.py:21-38 | for a single crossing the result is within `precision / 2` of it (for the program's test only under the conditions just given) |
| `Path.HitAtFirstMidpointDrifts` | tracking/path.py:31-36 | if the first midpoint is exactly on the target height and nothing to its right changes sign, the program's result is within `precision / 2` of the window's right edge |
| `Path.RootHitDrifts` | tracking/path.py:31-34 | on `y = x - 320` with a 640-pixel window the program returns a value in `(639.995, 640]`, 320 pixels from the crossing |
| `Path.RootHitCorrected` | tracking/path.py:31-34 | on the same input the corrected test returns a value within 0.005 of 320 |
| `Path.StartOnCrossingDrifts` | tracking/path.py:31-36 | if the window starts exactly on the target height and nothing right of the first midpoint changes sign, the program's first product is 0, `left` moves to the midpoint and the result is within `precision / 2` of the right edge |
| `Path.StartOnRootDrifts` | tracking/path.py:31-34 | on `y = x` with a 640-pixel window, which starts on its crossing, the program returns a value in `(639.995, 640]` |
| `Path.StartOnRootCorrected` | tracking/path.py:31-34 | on the same input the corrected test returns a value within 0.005 of 0 |
| `Control.Shift` | main.py:64-65 | a list comprehension `[x + d for x in color]`: same length, every channel moved by `d` |
| `Control.ColorBounds` | main.py:64-65 | `lower` and `upper` have the colour's length, with `lower[i] = color[i] - 20` and `upper[i] = color[i] + 20` |
| `Control.ColorBoundsAroundColor` | main.py:64-65 | the colour lies within its own window, and `upper[i] - lower[i] = 40` on each channel |
| `Control.InRangeIffNear` | main.py:64-67 | a pixel is within the `(lower, upper)` pair given to the tracker exactly when each channel is at most 20 from the object colour |
| `Control.TickCommand` | main.py:114 | a zero `px_m_ratio` raises a division error; otherwise the command is at most the exact value in magnitude and less than 1 below it in magnitude, never of the opposite sign, as `int()` truncation toward zero gives |
| `Control.Predicted` | main.py:106 | `path.falling_point(ball.window)` on one fitted model: `Solve` with the program's strict test and the defaults `x0 = 0`, `h_limit = 0`, `precision = 0.01` |
| `Control.Track` | main.py:88-122 | one position is recorded before the loop and one more per pass. The model of pass `j` is fitted on positions `j + 1` and `j`. The predicted point of each pass is `falling_point(ball.window)` on that model, the program's strict solver (`Predicted`). The command of each pass follows from that prediction. Each pass adds exactly one entry to each list. The loop ends when the object leaves, right after the pass where `q` was pressed, or when the command fails at the first pass, where the program would retry forever |
| `Common.Trunc` | main.py:114 | Python's `int()` on a number: magnitude at most that of the argument and within 1 of it, sign never opposite |
| `Common.IsNumeric` | main.py:425 | `str.isnumeric()` over ASCII: a non-empty string of the digits 0-9 |
| `Common.DigitsValue` | main.py:426 | `int(s)` on a string of digits: its decimal value |
| `Common.NatToDigits` | main.py:426 | the decimal spelling of a natural number: numeric, and without a leading zero unless it is `0` |
| `Common.DigitsRoundTrip` | main.py:425-426 | reading the decimal spelling of `n` with `int` gives `n` back |
| `TestRunner.Split` | main.py:178 | `split(',')` always gives at least one piece and no piece contains a comma |
| `TestRunner.JoinSplit` | main.py:178 | joining the pieces with commas gives the answer back |
| `TestRunner.SplitJoin` | main.py:178 | splitting a comma-join of comma-free pieces gives those pieces back |
| `TestRunner.Strip` | main.py:178 | the white space `int` skips around its argument (space and codes 9-13 only): the result is the slice `s[i..j]` of the piece with only white space before `i` and after `j`, and it neither starts nor ends with white space, so inner characters such as the space of `1 2` are kept |
| `TestRunner.Literal` | main.py:178 | the literal `int` accepts once the white space is gone: an optional `+` or `-` and at least one digit |
| `TestRunner.ParseInt` | main.py:178 | a refused piece raises the `ValueError` of that piece |
| `TestRunner.ParseIntRoundTrip` | main.py:178 | `int(str(n)) == n` for every integer, negative ones included |
| `TestRunner.ParseIntNeedsDigit` | main.py:178 | a piece with no digit once stripped (the empty piece of `1,,2`, a lone sign) raises |
| `TestRunner.ParseAll` | main.py:178 | `list(map(int, pieces))` succeeds exactly when every piece parses, and then holds each piece's value in order |
| `TestRunner.ParseChoices` | main.py:178 | `list(map(int, answer.split(',')))` |
| `TestRunner.ParseChoicesRoundTrip` | main.py:178 | writing any non-empty list of numbers joined by commas is read back as that list |
| `TestRunner.Selected` | main.py:180-182 | only choices in `range(nb_tests)` are run; each such index is run exactly as often as it was chosen; out-of-range choices are dropped |
| `TestRunner.SelectedAppend` | main.py:180-182 | selection keeps input order: selecting from `a + b` is selecting from `a` followed by selecting from `b` |
| `TestRunner.RunChoices` | main.py:180-182 | the loop over `choices` calls exactly the tests `Selected` gives, in that order |
| `TestRunner.RunTests` | main.py:175-182 | a piece that is not a number raises before any test runs; otherwise the selected tests run |
| `CommandLine.ParseSource` | main.py:424-428 | `--source`: camera 0 unless given; a numeric argument selects that camera, any other is a path |
| `CommandLine.SourceSelectsCamera` | main.py:424-426 | every camera index can be selected by writing it in decimal |
| `CommandLine.SourceKeepsPath` | main.py:427-428 | an argument with a non-digit character is passed on unchanged as a path |
| `CommandLine.PortAccepted` | main.py:431 | `'COM' in port and port.replace('COM', '').isnumeric()` |
| `CommandLine.ParsePort` | main.py:430-432 | `--port` gives the port: either `COM0` or the argument itself, and the argument only when it is accepted |
| `CommandLine.RemoveAll` | main.py:431 | `replace('COM', '')` never lengthens the string and only leaves characters that were in it |
| `CommandLine.RemoveAllChangesIffContains` | main.py:431 | the replacement changes the port exactly when `'COM'` occurs in it, and then shortens it |
| `CommandLine.RemoveAllKeepsOthers` | main.py:431 | every character of the port survives the replacement unless it is a letter of `COM` |
| `CommandLine.AcceptedPortShape` | main.py:430-432 | an accepted port replaces `COM0`, holds a digit, and consists only of digits and the letters of `COM` |
| `CommandLine.PortAcceptsComNumber` | main.py:430-432 | `COM` followed by any non-empty run of digits is accepted |
| `CommandLine.PortRejects` | main.py:430-432 | no argument, an empty one, `COM` alone, `USB1` and a bare `3` all leave `COM0` |
| `CommandLine.PortAcceptsMarkerAfterDigits` | main.py:431 | the check does not fix where `COM` stands: `1COM` is accepted |
| `CommandLine.Dispatch` | main.py:446-455 | the `if`/`elif` chain on `args.mode`; `InvalidMode` is the `ValueError` |
| `CommandLine.Actions` | main.py:434-455 | the calls the block makes: each set configuration flag's menu, then the mode |
| `CommandLine.DispatchFollowsHelp` | main.py:446-455 | exactly the names and short forms the help text of `mode` lists (`run (R)`, `test (T)`, `config (C)`, main.py:373-377) are accepted, and every other mode raises; the effect attached to each name (main loop, tests, nothing) is the model's own reading of the `if`/`elif` chain, not something the help text states |
| `CommandLine.ActionsOrder` | main.py:434-455 | each set configuration flag opens its menu once; the calls appear in strictly increasing `Rank`, so the menus run in the order distances, colour, speed/PWM ratio, increment/distance ratio, and all of them before the mode; the mode action is last and appears once, so a refused mode raises only after the menus |

## Left out

- OpenCV capture, windows, drawing and `cv2.waitKey` are not modelled. They are camera and UI input and output. The `q` key is a field of each `Frame`.
- The busy-wait loops before tracking (main.py:81-90) are not modelled. They poll foreign tracker state; the model starts from the first recorded position.
- `Ball`, `free_fall`, `Motor` and `RealWorld` are not part of this model. The fitted model is an abstract `fit` returning `real -> real`. `fit` is taken to be total, including at a zero `px_m_ratio` (main.py:99-102 passes it that ratio). The `Stalled` exit of `Track` relies on this: if `free_fall` itself raised at a zero ratio, the program would stop there instead of retrying. The window is a `Window` value. The calibration values are parameters.
- Serial port setup, `time.sleep`, `time.clock`, the time stamps stored with each predicted point, and the `WROTE IN` and other prints are not modelled. They are hardware input/output and timing.
- The retry loop (main.py:111-117) retries without bound on any exception from the motor write. Only the exception the command expression itself raises, division by a zero `px_m_ratio`, is modelled, as the `Stalled` exit. Exceptions raised by the serial write are foreign.
- Matplotlib plotting (main.py:125-144) and `clear_cmd` are not modelled. They are output only.
- The calibration menus `config_distances`, `config_color`, `config_speed_pwm_ratio` and `config_inc_distance_ratio`, including the ratio at main.py:358, are not modelled. They are interactive input/output. `ActionsOrder` models only when they are called.
- `list_tests`, the menu printing and `input()` in `run_tests` are not modelled. They are foreign or input/output: the answer is a parameter, and so is the number of tests.
- Floating point is not modelled: all coordinates and ratios are exact `real`s. Bisection over floats can behave differently when `precision` is below the spacing of floats near the window width.
- `falling_point` with `precision <= 0` never leaves its loop. This is a `requires precision > 0.0` on the solver methods; the one caller shown (main.py:106) uses the default 0.01.
- `str.isnumeric` and `int()` are restricted to ASCII. A numeric string is a non-empty run of the digits 0-9. `int` on a string also accepts one sign and, around the literal, the white space `int` itself skips: space and codes 9-13 (not 28-31, which only `str.strip` removes). Unicode digits, non-ASCII white space and `_` digit separators are not modelled.
- Colour channels are modelled as Python integers, which do not wrap. The element type of `RealWorld.object_color` is not part of this model. If it is numpy `uint8`, as the frame `config_colors` samples (main.py:257-259) suggests, `x - 20` and `x + 20` wrap modulo 256 near 0 and 255, and the model does not capture that.
- `TestRunner.ParseAll`: does not state that the error raised is the one of the first piece refused. It states only that some piece was refused.

## Findings

| source | as written | input that shows it | evidently intended | confidence | as-written member | corrected member |
|---|---|---|---|---|---|---|
| tracking/path.py:31-34 | `(pos_y(left) - h) * (pos_y(middle) - h) < 0` keeps the left half only for a strict sign change. When a midpoint lands exactly on the target height, the product is 0 and `left` moves onto the crossing. From then on every product is 0, and the result drifts to the window's right edge. The same happens when the window starts on the crossing: the product with `pos_y(left) - h = 0` is 0 on the first pass, so `left` moves to the midpoint, past the crossing | `pos_y(x) = x - 320`, window width 640, `x_0 = 0`, `h_limit = 0`, `precision = 0.01`: the result is in `(639.995, 640]`, not near 320 (`RootHitDrifts`); `pos_y(x) = x`, same other arguments: the result is in `(639.995, 640]`, not near 0 (`StartOnRootDrifts`) | return a point within `precision` of the single crossing, as the docstring promises; `<= 0` does this for every model with a single crossing | high (proved on the model; not executed) | `Path.RootHitDrifts` | `Path.Path.FallingPointCorrected` |
