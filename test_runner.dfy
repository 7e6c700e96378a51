/**
 * run_tests() in main.py: the operator's answer is split on commas, every
 * piece is read with Python's `int`, and the tests whose index is in
 * `range(nb_tests)` are run in the order given.
 */
module TestRunner {
  import opened Common

  // ---------------------------------------------------------------------
  // Splitting on a separator
  // ---------------------------------------------------------------------

  /** `s.split(sep)` for a one-character separator: never empty, pieces free of `sep`. */
  function Split(s: string, sep: char): (parts: seq<string>)
    ensures |parts| >= 1
    ensures forall k :: 0 <= k < |parts| ==> sep !in parts[k]
  {
    if s == [] then [[]]
    else
      var rest := Split(s[1..], sep);
      if s[0] == sep then [[]] + rest else [[s[0]] + rest[0]] + rest[1..]
  }

  /** `sep.join(parts)`. */
  function Join(parts: seq<string>, sep: char): string
    requires |parts| >= 1
  {
    if |parts| == 1 then parts[0] else parts[0] + [sep] + Join(parts[1..], sep)
  }

  /** Joining the pieces gives the answer back. */
  lemma {:induction false} JoinSplit(s: string, sep: char)
    ensures Join(Split(s, sep), sep) == s
  {
    if s != [] {
      JoinSplit(s[1..], sep);
      var rest := Split(s[1..], sep);
      if s[0] != sep && |rest| > 1 {
        assert rest == [rest[0]] + rest[1..];
      }
    }
  }

  /** Splitting a join of separator-free pieces gives the pieces back. */
  lemma {:induction false} SplitJoin(parts: seq<string>, sep: char)
    requires |parts| >= 1
    requires forall k :: 0 <= k < |parts| ==> sep !in parts[k]
    ensures Split(Join(parts, sep), sep) == parts
    decreases |parts|, |parts[0]|
  {
    var p := parts[0];
    if p == [] {
      if |parts| > 1 {
        SplitJoin(parts[1..], sep);
        assert Join(parts, sep) == [sep] + Join(parts[1..], sep);
      }
    } else {
      var tail := [p[1..]] + parts[1..];
      assert sep !in tail[0];
      forall k | 0 <= k < |tail| ensures sep !in tail[k] {
        if k > 0 { assert tail[k] == parts[k]; }
      }
      SplitJoin(tail, sep);
      if |parts| == 1 {
        assert Join(parts, sep) == [p[0]] + Join(tail, sep);
      } else {
        assert Join(tail, sep) == p[1..] + [sep] + Join(parts[1..], sep);
        assert Join(parts, sep) == [p[0]] + Join(tail, sep);
      }
      assert [p[0]] + p[1..] == p;
    }
  }

  // ---------------------------------------------------------------------
  // Python's int() on a string
  // ---------------------------------------------------------------------

  /** The ASCII white space Python's `int` skips around a literal: space, tab, line feed, vertical tab, form feed, carriage return. */
  predicate IsSpace(c: char)
  {
    c == ' ' || (9 <= c as int <= 13)
  }

  function TrimLeft(s: string): (t: string)
    ensures |t| <= |s| && t == s[|s| - |t|..]
    ensures t != [] ==> !IsSpace(t[0])
    ensures forall k :: 0 <= k < |s| - |t| ==> IsSpace(s[k])
  {
    if s != [] && IsSpace(s[0]) then TrimLeft(s[1..]) else s
  }

  function TrimRight(s: string): (t: string)
    ensures |t| <= |s| && t == s[..|t|]
    ensures t != [] ==> !IsSpace(t[|t| - 1])
    ensures forall k :: |t| <= k < |s| ==> IsSpace(s[k])
  {
    if s != [] && IsSpace(s[|s| - 1]) then TrimRight(s[..|s| - 1]) else s
  }

  /**
   * The white space `int` strips around its argument: what is left is the
   * part of `s` between a run of white space at each end, and it neither
   * starts nor ends with white space.
   */
  function Strip(s: string): (t: string)
    ensures |t| <= |s|
    ensures t != [] ==> !IsSpace(t[0]) && !IsSpace(t[|t| - 1])
    ensures exists i, j {:trigger s[i..j]} :: 0 <= i <= j <= |s| && t == s[i..j] &&
              (forall k :: 0 <= k < i ==> IsSpace(s[k])) && (forall k :: j <= k < |s| ==> IsSpace(s[k]))
  {
    var l := TrimLeft(s);
    var t := TrimRight(l);
    TrimBoth(s, l, t);
    t
  }

  /**
   * A prefix `t` of a suffix `l` of `s`, cut off only at white space, is the
   * slice of `s` that starts where `l` does.
   */
  lemma TrimBoth(s: string, l: string, t: string)
    requires |l| <= |s| && l == s[|s| - |l|..]
    requires |t| <= |l| && t == l[..|t|]
    requires forall k :: |t| <= k < |l| ==> IsSpace(l[k])
    ensures t == s[|s| - |l|..|s| - |l| + |t|]
    ensures forall k :: |s| - |l| + |t| <= k < |s| ==> IsSpace(s[k])
    ensures t != [] ==> t[0] == l[0]
  {
    var i := |s| - |l|;
    forall k | i + |t| <= k < |s|
      ensures IsSpace(s[k])
    {
      assert s[k] == l[k - i];
    }
  }

  /** The `ValueError` of `int`, with the text it refused. */
  datatype ParseError = InvalidLiteral(text: string)

  /**
   * `int(s)`: surrounding white space, an optional sign and at least one
   * ASCII digit; anything else raises.
   */
  function ParseInt(s: string): (r: Result<int, ParseError>)
    ensures r.Err? ==> r.error == InvalidLiteral(s)
  {
    match Literal(Strip(s))
    case Some(v) => Ok(v)
    case None => Err(InvalidLiteral(s))
  }

  /** An optional sign followed by at least one digit. */
  function Literal(t: string): Option<int>
  {
    if t == [] then None
    else if t[0] == '-' || t[0] == '+' then
      if IsNumeric(t[1..]) then
        var magnitude: int := DigitsValue(t[1..]);
        Some(if t[0] == '-' then -magnitude else magnitude)
      else None
    else if IsNumeric(t) then Some(DigitsValue(t))
    else None
  }

  /** `str(n)`. */
  function IntToString(n: int): string
  {
    if n < 0 then "-" + NatToDigits(-n) else NatToDigits(n)
  }

  /** `int(str(n)) == n`. */
  lemma ParseIntRoundTrip(n: int)
    ensures ParseInt(IntToString(n)) == Ok(n)
  {
    var s := IntToString(n);
    var m: nat := if n < 0 then -n else n;
    var digits := NatToDigits(m);
    DigitsRoundTrip(m);
    if n < 0 {
      assert s == "-" + digits;
      StripKeeps(s);
      LiteralOfNegative(digits);
    } else {
      assert s == digits;
      StripKeeps(s);
      LiteralOfDigits(digits);
    }
  }

  lemma StripKeeps(s: string)
    requires s != [] && !IsSpace(s[0]) && !IsSpace(s[|s| - 1])
    ensures Strip(s) == s
  {
    assert TrimLeft(s) == s;
    assert TrimRight(s) == s;
  }

  lemma LiteralOfDigits(t: string)
    requires IsNumeric(t)
    ensures Literal(t) == Some(DigitsValue(t))
  {
    assert IsDigit(t[0]);
  }

  lemma LiteralOfNegative(d: string)
    requires IsNumeric(d)
    ensures Literal("-" + d) == Some(-(DigitsValue(d) as int))
  {
    assert ("-" + d)[1..] == d;
  }

  /** `int` raises on every piece that holds no digit once stripped. */
  lemma ParseIntNeedsDigit(s: string)
    requires forall i :: 0 <= i < |Strip(s)| ==> !IsDigit(Strip(s)[i])
    ensures ParseInt(s) == Err(InvalidLiteral(s))
  {
    var t := Strip(s);
    if |t| > 1 {
      assert t[1..][0] == t[1];
    }
  }

  /**
   * `list(map(parse, parts))`: every piece read, or the exception of the
   * first piece that `parse` refuses.
   */
  function ParseAll(parts: seq<string>, parse: string -> Result<int, ParseError>): (r: Result<seq<int>, ParseError>)
    ensures r.Ok? <==> forall k :: 0 <= k < |parts| ==> parse(parts[k]).Ok?
    ensures r.Ok? ==> |r.value| == |parts| && forall k :: 0 <= k < |parts| ==> parse(parts[k]) == Ok(r.value[k])
  {
    if parts == [] then Ok([])
    else
      var head := parse(parts[0]);
      if head.Err? then Err(head.error)
      else
        var tail := ParseAll(parts[1..], parse);
        assert forall k :: 1 <= k < |parts| ==> parts[k] == parts[1..][k - 1];
        if tail.Err? then Err(tail.error) else Ok([head.value] + tail.value)
  }

  /** `choices = list(map(int, answer.split(',')))`. */
  function ParseChoices(answer: string): Result<seq<int>, ParseError>
  {
    ParseAll(Split(answer, ','), ParseInt)
  }

  /** Every answer written as numbers joined by commas is read back as those numbers. */
  lemma {:induction false} ParseChoicesRoundTrip(choices: seq<int>)
    requires |choices| >= 1
    ensures ParseChoices(Join(Texts(choices), ',')) == Ok(choices)
  {
    var texts := Texts(choices);
    forall k | 0 <= k < |texts| ensures ',' !in texts[k] {
      TextsAt(choices, k);
    }
    SplitJoin(texts, ',');
    forall k | 0 <= k < |texts| ensures ParseInt(texts[k]) == Ok(choices[k]) {
      TextsAt(choices, k);
      ParseIntRoundTrip(choices[k]);
    }
    var r := ParseAll(texts, ParseInt);
    assert r.value == choices;
  }

  /** The decimal spellings of a sequence of numbers. */
  function Texts(choices: seq<int>): (texts: seq<string>)
    ensures |texts| == |choices|
  {
    if choices == [] then [] else [IntToString(choices[0])] + Texts(choices[1..])
  }

  lemma {:induction false} TextsAt(choices: seq<int>, k: nat)
    requires k < |choices|
    ensures Texts(choices)[k] == IntToString(choices[k])
    ensures ',' !in Texts(choices)[k]
  {
    if k > 0 {
      TextsAt(choices[1..], k - 1);
    } else {
      var s := IntToString(choices[0]);
      var d := NatToDigits(if choices[0] < 0 then -choices[0] else choices[0]);
      assert forall j :: 0 <= j < |d| ==> d[j] != ',';
    }
  }

  // ---------------------------------------------------------------------
  // Running the chosen tests
  // ---------------------------------------------------------------------

  /**
   * The choices `choice in range(nb_tests)` lets through, in input order
   * with repetitions; each in-range index is run as often as it was chosen
   * and every other choice is dropped.
   */
  function Selected(choices: seq<int>, nbTests: nat): (run: seq<int>)
    ensures |run| <= |choices|
    ensures forall k :: 0 <= k < |run| ==> 0 <= run[k] < nbTests
    ensures forall t :: 0 <= t < nbTests ==> multiset(run)[t] == multiset(choices)[t]
  {
    if choices == [] then []
    else
      var init, last := choices[..|choices| - 1], choices[|choices| - 1];
      assert choices == init + [last];
      if 0 <= last < nbTests then Selected(init, nbTests) + [last] else Selected(init, nbTests)
  }

  /** Selection keeps the order: selecting from a concatenation concatenates the selections. */
  lemma {:induction false} SelectedAppend(a: seq<int>, b: seq<int>, nbTests: nat)
    ensures Selected(a + b, nbTests) == Selected(a, nbTests) + Selected(b, nbTests)
    decreases |b|
  {
    if b != [] {
      var init := b[..|b| - 1];
      assert (a + b)[..|a + b| - 1] == a + init;
      SelectedAppend(a, init, nbTests);
    } else {
      assert a + b == a;
    }
  }

  /**
   * The loop of run_tests; the list of indices it returns is the order in
   * which `tests[choice](...)` is called.
   */
  method RunChoices(choices: seq<int>, nbTests: nat) returns (executed: seq<int>)
    ensures executed == Selected(choices, nbTests)
  {
    executed := [];
    for i := 0 to |choices|
      invariant executed == Selected(choices[..i], nbTests)
    {
      assert choices[..i + 1][..i] == choices[..i];
      if 0 <= choices[i] < nbTests {
        executed := executed + [choices[i]];
      }
    }
    assert choices[..|choices|] == choices;
  }

  /**
   * run_tests after the menu is shown: a piece that is not a number raises
   * before any test runs; otherwise the selected tests run in order.
   */
  method RunTests(answer: string, nbTests: nat) returns (r: Result<seq<int>, ParseError>)
    ensures ParseChoices(answer).Err? ==> r == Err(ParseChoices(answer).error)
    ensures ParseChoices(answer).Ok? ==> r == Ok(Selected(ParseChoices(answer).value, nbTests))
  {
    var choices := ParseChoices(answer);
    if choices.Err? {
      return Err(choices.error);
    }
    var executed := RunChoices(choices.value, nbTests);
    r := Ok(executed);
  }
}
