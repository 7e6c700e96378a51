/**
 * The command-line block of main.py: how `--source` and `--port` override
 * their defaults, how the positional `mode` is dispatched, and in which
 * order the configuration menus and the mode run.
 */
module CommandLine {
  import opened Common

  // ---------------------------------------------------------------------
  // Video source
  // ---------------------------------------------------------------------

  /** What OpenCV is asked to open: a camera by index or a video file by path. */
  datatype VideoSource = CameraIndex(index: nat) | FilePath(path: string)

  const DefaultSource: VideoSource := CameraIndex(0)

  /**
   * `--source`: an absent or empty argument keeps camera 0, a numeric one
   * selects that camera, anything else is a path.
   */
  function ParseSource(arg: Option<string>): VideoSource
  {
    if arg.None? || arg.value == "" then DefaultSource
    else if IsNumeric(arg.value) then CameraIndex(DigitsValue(arg.value))
    else FilePath(arg.value)
  }

  /** Every camera index can be chosen by writing it in decimal. */
  lemma SourceSelectsCamera(n: nat)
    ensures ParseSource(Some(NatToDigits(n))) == CameraIndex(n)
  {
    DigitsRoundTrip(n);
  }

  /** A path is passed on unchanged; one with a non-digit is never taken for a camera. */
  lemma SourceKeepsPath(path: string)
    requires exists i :: 0 <= i < |path| && !IsDigit(path[i])
    ensures ParseSource(Some(path)) == FilePath(path)
  {
  }

  // ---------------------------------------------------------------------
  // Serial port
  // ---------------------------------------------------------------------

  const DefaultPort: string := "COM0"

  /** The text `--port` must contain. */
  const PortMarker: string := "COM"

  predicate StartsWith(s: string, prefix: string)
  {
    |prefix| <= |s| && s[..|prefix|] == prefix
  }

  /** `pat in s` on strings. */
  predicate Contains(s: string, pat: string)
  {
    StartsWith(s, pat) || (s != [] && Contains(s[1..], pat))
  }

  /** `s.replace(pat, '')`: each occurrence, scanned left to right, removed. */
  function RemoveAll(s: string, pat: string): (r: string)
    requires pat != []
    ensures |r| <= |s|
    ensures forall i :: 0 <= i < |r| ==> r[i] in s
    decreases |s|
  {
    if StartsWith(s, pat) then RemoveAll(s[|pat|..], pat)
    else if s == [] then []
    else [s[0]] + RemoveAll(s[1..], pat)
  }

  /** Removing changes the string exactly when the pattern occurs in it. */
  lemma {:induction false} RemoveAllChangesIffContains(s: string, pat: string)
    requires pat != []
    ensures RemoveAll(s, pat) == s <==> !Contains(s, pat)
    ensures Contains(s, pat) ==> |RemoveAll(s, pat)| < |s|
    decreases |s|
  {
    if StartsWith(s, pat) {
      assert |RemoveAll(s[|pat|..], pat)| <= |s| - |pat|;
    } else if s != [] {
      RemoveAllChangesIffContains(s[1..], pat);
      if RemoveAll(s, pat) == s {
        assert RemoveAll(s[1..], pat) == s[1..];
      }
    }
  }

  /** Every character that is left after removal was already in the string. */
  lemma {:induction false} RemoveAllKeepsOthers(s: string, pat: string)
    requires pat != []
    ensures forall c :: c in s ==> c in RemoveAll(s, pat) || c in pat
    decreases |s|
  {
    if StartsWith(s, pat) {
      RemoveAllKeepsOthers(s[|pat|..], pat);
      forall c | c in s ensures c in RemoveAll(s, pat) || c in pat {
        var i :| 0 <= i < |s| && s[i] == c;
        if i < |pat| {
          assert s[..|pat|][i] == c;
        } else {
          assert s[|pat|..][i - |pat|] == c;
        }
      }
    } else if s != [] {
      RemoveAllKeepsOthers(s[1..], pat);
      forall c | c in s ensures c in RemoveAll(s, pat) || c in pat {
        if c != s[0] {
          var i :| 0 <= i < |s| && s[i] == c;
          assert s[1..][i - 1] == c;
        }
      }
    }
  }

  /**
   * `--port`: kept only when it contains `COM` and what is left once every
   * `COM` is removed is a non-empty string of digits; otherwise `COM0`.
   */
  function ParsePort(arg: Option<string>): (port: string)
    ensures port == DefaultPort || (arg == Some(port) && PortAccepted(port))
  {
    if arg.Some? && arg.value != "" && PortAccepted(arg.value) then arg.value else DefaultPort
  }

  /** `'COM' in port and port.replace('COM', '').isnumeric()`. */
  predicate PortAccepted(p: string)
  {
    Contains(p, PortMarker) && IsNumeric(RemoveAll(p, PortMarker))
  }

  /**
   * A port that replaces the default is made of the letters of `COM` and
   * digits only, and holds both a `COM` and a digit.
   */
  lemma AcceptedPortShape(p: string)
    requires PortAccepted(p)
    ensures ParsePort(Some(p)) == p
    ensures exists i :: 0 <= i < |p| && IsDigit(p[i])
    ensures forall i :: 0 <= i < |p| ==> IsDigit(p[i]) || p[i] in PortMarker
  {
    var rest := RemoveAll(p, PortMarker);
    assert IsDigit(rest[0]) && rest[0] in p;
    RemoveAllKeepsOthers(p, PortMarker);
    forall i | 0 <= i < |p| ensures IsDigit(p[i]) || p[i] in PortMarker {
      assert p[i] in p;
      if p[i] in rest {
        var j :| 0 <= j < |rest| && rest[j] == p[i];
        assert IsDigit(rest[j]);
      }
    }
  }

  /** `COM` followed by a number is always accepted. */
  lemma PortAcceptsComNumber(digits: string)
    requires IsNumeric(digits)
    ensures ParsePort(Some(PortMarker + digits)) == PortMarker + digits
  {
    var p := PortMarker + digits;
    assert StartsWith(p, PortMarker);
    assert p[|PortMarker|..] == digits;
    NoMarkerInDigits(digits);
    RemoveAllChangesIffContains(digits, PortMarker);
  }

  lemma {:induction false} NoMarkerInDigits(digits: string)
    requires AllDigits(digits)
    ensures !Contains(digits, PortMarker)
    decreases |digits|
  {
    if digits != [] {
      assert IsDigit(digits[0]);
      assert |digits| >= 3 ==> digits[..|PortMarker|][0] == digits[0];
      NoMarkerInDigits(digits[1..]);
    }
  }

  /** `COM` alone, a port of another kind and a bare number keep the default. */
  lemma PortRejects()
    ensures ParsePort(None) == DefaultPort
    ensures ParsePort(Some("")) == DefaultPort
    ensures ParsePort(Some("COM")) == DefaultPort
    ensures ParsePort(Some("USB1")) == DefaultPort
    ensures ParsePort(Some("3")) == DefaultPort
  {
    assert RemoveAll("COM", PortMarker) == RemoveAll("", PortMarker);
    assert !Contains("USB1", PortMarker) by {
      assert !StartsWith("USB1", PortMarker);
      assert "USB1"[1..] == "SB1";
      assert !StartsWith("SB1", PortMarker);
      assert "SB1"[1..] == "B1";
      assert !Contains("B1", PortMarker);
    }
    assert !Contains("3", PortMarker) by {
      NoMarkerInDigits("3");
    }
  }

  /** Where the `COM` stands is not checked: `1COM` is accepted too. */
  lemma PortAcceptsMarkerAfterDigits()
    ensures ParsePort(Some("1COM")) == "1COM"
  {
    assert "1COM"[1..] == PortMarker;
    assert Contains("1COM", PortMarker);
    assert RemoveAll("1COM", PortMarker) == "1" + RemoveAll(PortMarker, PortMarker);
    assert RemoveAll(PortMarker, PortMarker) == RemoveAll("", PortMarker);
  }

  // ---------------------------------------------------------------------
  // Mode
  // ---------------------------------------------------------------------

  /** What the positional `mode` makes the program do. */
  datatype ModeAction = RunMain | RunTests | NoAction | InvalidMode

  /** The `if`/`elif` chain on `args.mode`; `InvalidMode` is the `ValueError`. */
  function Dispatch(mode: string): ModeAction
  {
    if mode in ["run", "R"] then RunMain
    else if mode in ["test", "T"] then RunTests
    else if mode in ["config", "C"] then NoAction
    else InvalidMode
  }

  /**
   * The authorised values the help text of `mode` lists, long and short
   * name, each paired with the effect the `if`/`elif` chain gives it (the
   * help text names the values only).
   */
  const HelpModes: seq<(string, string, ModeAction)> :=
    [("run", "R", RunMain), ("test", "T", RunTests), ("config", "C", NoAction)]

  /**
   * The dispatch agrees with the help text: each listed name and its short
   * form have the listed effect, and every other string is refused.
   */
  lemma DispatchFollowsHelp(mode: string)
    ensures Dispatch(mode) != InvalidMode <==>
            exists k :: 0 <= k < |HelpModes| && (mode == HelpModes[k].0 || mode == HelpModes[k].1)
    ensures forall k :: 0 <= k < |HelpModes| && (mode == HelpModes[k].0 || mode == HelpModes[k].1) ==>
            Dispatch(mode) == HelpModes[k].2
  {
    if Dispatch(mode) != InvalidMode {
      var k := if Dispatch(mode) == RunMain then 0 else if Dispatch(mode) == RunTests then 1 else 2;
      assert mode == HelpModes[k].0 || mode == HelpModes[k].1;
    }
  }

  // ---------------------------------------------------------------------
  // The whole invocation
  // ---------------------------------------------------------------------

  /** The part of the parsed command line that decides which calls are made. */
  datatype Args = Args(mode: string, configDistances: bool, configColor: bool,
                       configSpeedPwmRatio: bool, configIncDistanceRatio: bool)

  /** The calls the block makes, in order. */
  datatype Action = ConfigDistances | ConfigColor | ConfigSpeedPwmRatio | ConfigIncDistanceRatio | Mode(effect: ModeAction)

  /** The configuration menus whose flags are set, in the program's order, then the mode. */
  function Actions(args: Args): seq<Action>
  {
    (if args.configDistances then [ConfigDistances] else []) +
    (if args.configColor then [ConfigColor] else []) +
    (if args.configSpeedPwmRatio then [ConfigSpeedPwmRatio] else []) +
    (if args.configIncDistanceRatio then [ConfigIncDistanceRatio] else []) +
    [Mode(Dispatch(args.mode))]
  }

  /** The position of each call in the block's source order; the mode comes after every menu. */
  function Rank(a: Action): nat
  {
    match a
    case ConfigDistances => 0
    case ConfigColor => 1
    case ConfigSpeedPwmRatio => 2
    case ConfigIncDistanceRatio => 3
    case Mode(_) => 4
  }

  function Count(b: bool): nat
  {
    if b then 1 else 0
  }

  /**
   * Each set flag opens its menu once, before the mode runs; the mode comes
   * last, so a refused mode raises only after the menus have run.
   */
  lemma ActionsOrder(args: Args)
    ensures |Actions(args)| == 1 + Count(args.configDistances) + Count(args.configColor) +
                               Count(args.configSpeedPwmRatio) + Count(args.configIncDistanceRatio)
    ensures Actions(args)[|Actions(args)| - 1] == Mode(Dispatch(args.mode))
    ensures forall k :: 0 <= k < |Actions(args)| - 1 ==> !Actions(args)[k].Mode?
    ensures forall k, l :: 0 <= k < l < |Actions(args)| ==> Rank(Actions(args)[k]) < Rank(Actions(args)[l])
    ensures ConfigDistances in Actions(args) <==> args.configDistances
    ensures ConfigColor in Actions(args) <==> args.configColor
    ensures ConfigSpeedPwmRatio in Actions(args) <==> args.configSpeedPwmRatio
    ensures ConfigIncDistanceRatio in Actions(args) <==> args.configIncDistanceRatio
  {
    var a := Actions(args);
    assert a[|a| - 1] == Mode(Dispatch(args.mode));
  }
}
