/**
 * The SymPy setup step: `uv run python -c "import sympy; print(sympy.__version__)"`
 * is probed, and the step passes when the first two dot-separated fields of
 * the printed version are integers with `(major, minor) >= (1, 12)`.
 */
module SetupSympy {
  import opened Wrappers
  import opened Strings
  import opened Executor

  const NAME := "SymPy"
  const MIN_MAJOR := 1
  const MIN_MINOR := 12

  /** Python's tuple comparison `(major, minor) >= (1, 12)`. */
  predicate AtLeastMin(major: int, minor: int) {
    major > MIN_MAJOR || (major == MIN_MAJOR && minor >= MIN_MINOR)
  }

  /**
   * `_check_version` on the probe's outcome; a timeout, a missing `uv` and
   * any other exception give false, as does a version that does not parse.
   */
  function CheckVersion(probe: ProcessOutcome): (ok: bool)
    ensures ok ==> probe.Exited? && probe.rc == 0
    ensures ok ==> var parts := Split(Strip(probe.out), '.');
      && |parts| >= 2 && PyInt(parts[0]).Some? && PyInt(parts[1]).Some?
      && AtLeastMin(PyInt(parts[0]).value, PyInt(parts[1]).value)
  {
    match probe
    case Exited(rc, out, _) =>
      if rc != 0 then false
      else
        var parts := Split(Strip(out), '.');
        if |parts| >= 2 then
          match (PyInt(parts[0]), PyInt(parts[1]))
          case (Some(major), Some(minor)) => AtLeastMin(major, minor)
          case _ => false
        else false
    case _ => false
  }

  /**
   * `check()`: passes exactly for a clean exit whose stripped output has at
   * least two dot fields, the first two integers at least (1, 12).
   */
  function Check(probe: ProcessOutcome): (ok: bool)
    ensures ok <==> && probe.Exited? && probe.rc == 0
                    && var parts := Split(Strip(probe.out), '.');
                       && |parts| >= 2 && PyInt(parts[0]).Some? && PyInt(parts[1]).Some?
                       && AtLeastMin(PyInt(parts[0]).value, PyInt(parts[1]).value)
  {
    CheckVersion(probe)
  }

  /** `verify()` runs the same probe and test as `check()`, so it agrees with it on the same outcome. */
  function Verify(probe: ProcessOutcome): (ok: bool)
    ensures ok == Check(probe)
  {
    CheckVersion(probe)
  }

  /** The first two dot fields of "a.b" + rest, when neither `a` nor `b` holds a dot. */
  lemma FirstTwoFields(a: string, b: string, rest: string)
    requires '.' !in a && '.' !in b && (rest == [] || rest[0] == '.')
    ensures var parts := Split(a + "." + b + rest, '.');
      |parts| >= 2 && parts[0] == a && parts[1] == b
  {
    var t := b + rest;
    assert a + "." + b + rest == a + ['.'] + t;
    SplitHead(a, '.', t);
    SecondField(b, rest);
    assert Split(a + "." + b + rest, '.') == [a] + Split(t, '.');
  }

  lemma SecondField(b: string, rest: string)
    requires '.' !in b && (rest == [] || rest[0] == '.')
    ensures Split(b + rest, '.')[0] == b
  {
    if rest == [] {
      assert b + rest == b;
      assert IndexOf(b, '.').None?;
    } else {
      var t := rest[1..];
      assert rest == ['.'] + t;
      assert b + rest == b + ['.'] + t;
      SplitHead(b, '.', t);
    }
  }

  lemma VersionStripped(a: string, b: string, rest: string)
    requires a != [] && b != [] && !IsSpace(a[0]) && !IsSpace(b[|b| - 1])
    requires rest == [] || !IsSpace(rest[|rest| - 1])
    ensures Strip(a + "." + b + rest) == a + "." + b + rest
  {
    var out := a + "." + b + rest;
    assert out[0] == a[0];
    assert out[|out| - 1] == if rest == [] then b[|b| - 1] else rest[|rest| - 1];
    StripKeeps(out);
  }

  /**
   * A version printed as "major.minor" followed by nothing or by further
   * dot fields passes exactly when `(major, minor) >= (1, 12)`.
   */
  lemma VersionGate(major: nat, minor: nat, rest: string, err: string)
    requires rest == [] || (rest[0] == '.' && !IsSpace(rest[|rest| - 1]))
    ensures CheckVersion(Exited(0, NatToString(major) + "." + NatToString(minor) + rest, err)) ==
      AtLeastMin(major, minor)
  {
    var a := NatToString(major);
    var b := NatToString(minor);
    NatStringDigits(major);
    NatStringDigits(minor);
    assert !IsSpace(a[0]) by { assert IsAsciiDigit(a[0]); }
    assert !IsSpace(b[|b| - 1]) by { assert IsAsciiDigit(b[|b| - 1]); }
    VersionStripped(a, b, rest);
    FirstTwoFields(a, b, rest);
    PyIntOfNat(major);
    PyIntOfNat(minor);
  }

  /** A version with a single field ("2" rather than "2.0") fails, whatever the number. */
  lemma SingleFieldFails(n: nat, err: string)
    ensures !CheckVersion(Exited(0, NatToString(n), err))
  {
    var s := NatToString(n);
    NatStringDigits(n);
    NatStringStripped(n);
    assert Split(s, '.') == [s];
  }
}
