/**
 * The SymPy engine: in-process validation with `parse_latex` and
 * `simplify`. SymPy itself is outside the model and enters as an oracle;
 * what is modelled is the equation detection and split, the choice
 * between the three evaluation routes, and the mapping of every outcome
 * to a result.
 */
module SympyEngine {
  import opened Wrappers
  import opened Strings
  import opened Equations
  import opened Base

  const NAME: string := "sympy"
  const DEFAULT_TIMEOUT: int := 5

  // ----- equation detection -----

  /** `_is_equation_str`: `re.search` finds a standalone "=", i.e. the leftmost-match search succeeds. */
  function IsEquationStr(latex: string): (b: bool)
    ensures b <==> FindStandalone(latex, SYMPY_BEFORE, 0).Some?
    ensures b ==> '=' in latex
  {
    FindIffHas(latex, SYMPY_BEFORE);
    HasStandalone(latex, SYMPY_BEFORE)
  }

  /** `_split_equation`: both sides of the first standalone "=", stripped; None without one or with an empty side. */
  function SplitEquation(latex: string): (parts: Option<(string, string)>)
    ensures parts.Some? ==> exists i | 0 <= i < |latex| ::
      && StandaloneAt(latex, i, SYMPY_BEFORE)
      && (forall k | 0 <= k < i :: !StandaloneAt(latex, k, SYMPY_BEFORE))
      && parts.value == (Strip(latex[..i]), Strip(latex[i + 1..]))
    ensures parts.Some? ==> parts.value.0 != "" && parts.value.1 != ""
  {
    match FindStandalone(latex, SYMPY_BEFORE, 0)
    case None => None
    case Some(i) =>
      var lhs := Strip(latex[..i]);
      var rhs := Strip(latex[i + 1..]);
      LeftmostSplit(latex, i, lhs, rhs);
      if lhs != "" && rhs != "" then Some((lhs, rhs)) else None
  }

  lemma LeftmostSplit(latex: string, i: nat, lhs: string, rhs: string)
    requires FindStandalone(latex, SYMPY_BEFORE, 0) == Some(i)
    requires i < |latex| && lhs == Strip(latex[..i]) && rhs == Strip(latex[i + 1..])
    ensures exists k | 0 <= k < |latex| ::
      && StandaloneAt(latex, k, SYMPY_BEFORE)
      && (forall j | 0 <= j < k :: !StandaloneAt(latex, j, SYMPY_BEFORE))
      && (lhs, rhs) == (Strip(latex[..k]), Strip(latex[k + 1..]))
  {
    assert StandaloneAt(latex, i, SYMPY_BEFORE);
  }

  /** The split fails exactly when there is no standalone "=" or a side of the first one is blank. */
  lemma SplitNoneIff(latex: string)
    ensures SplitEquation(latex).None? <==>
      || !IsEquationStr(latex)
      || (var i := FindStandalone(latex, SYMPY_BEFORE, 0).value;
          Strip(latex[..i]) == "" || Strip(latex[i + 1..]) == "")
  {
    FindIffHas(latex, SYMPY_BEFORE);
  }

  /** "<=", ">=" and "!=" are comparisons, not equations. */
  lemma ComparisonsAreNotEquations()
    ensures !IsEquationStr("a<=b") && !IsEquationStr("a>=b") && !IsEquationStr("a!=b")
  {
    assert !StandaloneAt("a<=b", 2, SYMPY_BEFORE);
    assert !StandaloneAt("a>=b", 2, SYMPY_BEFORE);
    assert !StandaloneAt("a!=b", 2, SYMPY_BEFORE);
  }

  // ----- the SymPy oracle -----

  /** A SymPy object: an `Eq` with its sides, or any other expression; `text` is its `str()`. */
  datatype Expr = Equality(lhs: Expr, rhs: Expr, text: string) | Other(text: string)

  /** How a SymPy call ended: a value, an exception with its text, or the SIGALRM `_Timeout`. */
  datatype Step<T> = Done(value: T) | Failed(message: string) | Alarm

  datatype Sympy = Sympy(
    antlr: string -> Step<Expr>,          // parse_latex(latex)
    lark: string -> Step<Expr>,           // parse_latex(latex, backend="lark")
    simplify: Expr -> Step<Expr>,         // sympy.simplify(e)
    difference: (Expr, Expr) -> Step<Expr>,  // sympy.simplify(a - b)
    isZero: Expr -> bool)                 // e == 0

  /** `_parse`: ANTLR first; any exception from it, the alarm included, falls back to Lark. */
  function Parse(sym: Sympy, latex: string): (r: Step<Expr>)
    ensures sym.antlr(latex).Done? ==> r == sym.antlr(latex)
    ensures !sym.antlr(latex).Done? ==> r == sym.lark(latex)
  {
    match sym.antlr(latex)
    case Done(e) => Done(e)
    case _ => sym.lark(latex)
  }

  function Bind<T>(s: Step<T>, f: T -> Step<(Expr, bool)>): Step<(Expr, bool)> {
    match s
    case Done(v) => f(v)
    case Failed(m) => Failed(m)
    case Alarm => Alarm
  }

  /** `simplify(lhs - rhs)` and whether it is zero; a failure or the alarm passes through. */
  function Difference(sym: Sympy, lhs: Expr, rhs: Expr): (r: Step<(Expr, bool)>)
    ensures sym.difference(lhs, rhs).Done? <==> r.Done?
    ensures r.Done? ==> r.value.0 == sym.difference(lhs, rhs).value && (r.value.1 <==> sym.isZero(r.value.0))
    ensures sym.difference(lhs, rhs).Failed? ==> r == Failed(sym.difference(lhs, rhs).message)
    ensures sym.difference(lhs, rhs).Alarm? <==> r.Alarm?
  {
    Bind(sym.difference(lhs, rhs), (d: Expr) => Done((d, sym.isZero(d))))
  }

  /** Which of the three routes `_evaluate` takes. */
  datatype Route = EqualityObject | SplitText(lhs: string, rhs: string) | PlainExpression

  function RouteOf(expr: Expr, latex: string): (route: Route)
    ensures route.SplitText? ==> !expr.Equality? && SplitEquation(latex) == Some((route.lhs, route.rhs))
    ensures route.PlainExpression? <==> !expr.Equality? && SplitEquation(latex).None?
  {
    if expr.Equality? then EqualityObject
    else if IsEquationStr(latex) && SplitEquation(latex).Some? then
      var (l, r) := SplitEquation(latex).value;
      SplitText(l, r)
    else PlainExpression
  }

  /** A text whose split fails, although it looks like an equation, takes the plain route. */
  lemma FailedSplitIsPlain(expr: Expr, latex: string)
    requires !expr.Equality? && IsEquationStr(latex) && SplitEquation(latex).None?
    ensures RouteOf(expr, latex) == PlainExpression
  {
  }

  /** `_evaluate`: the simplified object and the verdict. The split sides are re-parsed with ANTLR only. */
  function Evaluate(sym: Sympy, expr: Expr, latex: string): (r: Step<(Expr, bool)>)
    ensures RouteOf(expr, latex) == PlainExpression ==> r == Bind(sym.simplify(expr), (s: Expr) => Done((s, true)))
  {
    match RouteOf(expr, latex)
    case EqualityObject => Difference(sym, expr.lhs, expr.rhs)
    case SplitText(l, r) =>
      Bind(sym.antlr(l), (le: Expr) => Bind(sym.antlr(r), (re: Expr) => Difference(sym, le, re)))
    case PlainExpression => Bind(sym.simplify(expr), (s: Expr) => Done((s, true)))
  }

  /** A plain expression is valid whenever simplification succeeds. */
  lemma PlainIsValid(sym: Sympy, expr: Expr, latex: string)
    requires RouteOf(expr, latex) == PlainExpression && sym.simplify(expr).Done?
    ensures Evaluate(sym, expr, latex) == Done((sym.simplify(expr).value, true))
  {
  }

  /** An equation is valid exactly when the simplified difference of its sides is zero. */
  lemma EquationValidIffZeroDifference(sym: Sympy, expr: Expr, latex: string)
    requires expr.Equality? && sym.difference(expr.lhs, expr.rhs).Done?
    ensures var d := sym.difference(expr.lhs, expr.rhs).value;
      Evaluate(sym, expr, latex) == Done((d, sym.isZero(d)))
  {
  }

  /** `validate`: it never raises; the alarm gives "timeout" and every other exception "parse failed: ...". */
  function Validate(sym: Sympy, latex: string, elapsed: int): (r: EngineResult)
    ensures r.engine == NAME
    ensures r.success <==> Parse(sym, latex).Done? && Evaluate(sym, Parse(sym, latex).value, latex).Done?
    ensures r.success ==>
      r.isValid.Some? && r.simplified.Some? && r.error.None? && r.originalParsed == Some(Parse(sym, latex).value.text)
    ensures r.success ==> var e := Evaluate(sym, Parse(sym, latex).value, latex).value;
      r.isValid == Some(e.1) && r.simplified == Some(e.0.text)
    ensures !r.success ==>
      r.error.Some? && (r.error == Some("timeout") || StartsWith(r.error.value, "parse failed: "))
    ensures r.error == Some("timeout") <==>
      Parse(sym, latex).Alarm? || (Parse(sym, latex).Done? && Evaluate(sym, Parse(sym, latex).value, latex).Alarm?)
    ensures Parse(sym, latex).Failed? ==> r.error == Some("parse failed: " + Parse(sym, latex).message)
    ensures Parse(sym, latex).Done? && Evaluate(sym, Parse(sym, latex).value, latex).Failed? ==>
      r.error == Some("parse failed: " + Evaluate(sym, Parse(sym, latex).value, latex).message)
  {
    var failed := (m: string) => EngineFailure(NAME, "parse failed: " + m, elapsed);
    match Parse(sym, latex)
    case Alarm => EngineFailure(NAME, "timeout", elapsed)
    case Failed(m) => failed(m)
    case Done(expr) =>
      match Evaluate(sym, expr, latex)
      case Alarm => EngineFailure(NAME, "timeout", elapsed)
      case Failed(m) => failed(m)
      case Done((simplified, isValid)) =>
        EngineResult(NAME, true, Some(isValid), Some(simplified.text), Some(expr.text), None, elapsed)
  }

  /**
   * What `validate` reports for a text SymPy parses to an `Eq`: valid exactly
   * when the simplified difference of the sides is zero, with that difference
   * as the simplified text.
   */
  lemma ValidatedEquationVerdict(sym: Sympy, latex: string, elapsed: int)
    requires Parse(sym, latex).Done? && Parse(sym, latex).value.Equality?
    requires var e := Parse(sym, latex).value; sym.difference(e.lhs, e.rhs).Done?
    ensures var e := Parse(sym, latex).value; var d := sym.difference(e.lhs, e.rhs).value;
      var r := Validate(sym, latex, elapsed);
      r.success && r.isValid == Some(sym.isZero(d)) && r.simplified == Some(d.text) && r.originalParsed == Some(e.text)
  {
    var e := Parse(sym, latex).value;
    EquationValidIffZeroDifference(sym, e, latex);
  }

  /** What `validate` reports for a plain expression: always valid, with the simplified text. */
  lemma ValidatedPlainVerdict(sym: Sympy, latex: string, elapsed: int)
    requires Parse(sym, latex).Done? && RouteOf(Parse(sym, latex).value, latex) == PlainExpression
    requires sym.simplify(Parse(sym, latex).value).Done?
    ensures var r := Validate(sym, latex, elapsed);
      r.success && r.isValid == Some(true) && r.simplified == Some(sym.simplify(Parse(sym, latex).value).value.text)
  {
    PlainIsValid(sym, Parse(sym, latex).value, latex);
  }

  /** `is_available` and `get_version`: whether SymPy imports, and its version. */
  function GetVersion(installed: Option<string>): (v: string)
    ensures installed.Some? ==> v == installed.value
    ensures installed.None? ==> v == "not installed"
  {
    installed.GetOr("not installed")
  }
}
