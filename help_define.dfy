/** The expression macros of HelpDefine.h: MAX, MIN and the degree/radian
    conversions, with M_PI from <cmath>. The macros are textual; each function
    below is the value the macro yields for an argument that is a single operand. */
module HelpDefine {

  /** M_PI as the C library defines it: the double nearest to pi, whose exact
      value is 884279719003555 / 2^48. */
  const Pi: real := 884279719003555.0 / 281474976710656.0

  /** MAX(a, b): `a` when a > b, otherwise `b`. */
  function Max(a: real, b: real): (r: real)
    ensures r >= a && r >= b
    ensures r == a || r == b
  {
    if a > b then a else b
  }

  /** MIN(a, b): `a` when a < b, otherwise `b`. */
  function Min(a: real, b: real): (r: real)
    ensures r <= a && r <= b
    ensures r == a || r == b
    ensures r + Max(a, b) == a + b
  {
    if a < b then a else b
  }

  /** ToRadian(angle) for an operand `angle`: angle / 180.0 * M_PI. */
  function ToRadian(angle: real): (r: real)
    ensures r * 180.0 == angle * Pi
  {
    angle / 180.0 * Pi
  }

  /** ToDegree(angle) for an operand `angle`: angle * 180.0 / M_PI. */
  function ToDegree(angle: real): (r: real)
    ensures r * Pi == angle * 180.0
  {
    angle * 180.0 / Pi
  }

  /** Converting to radians and back, or to degrees and back, is the identity
      over the reals; ToRadian(180) is M_PI and ToRadian(0) is 0. */
  lemma {:induction false} AngleRoundTrip(angle: real)
    ensures ToDegree(ToRadian(angle)) == angle
    ensures ToRadian(ToDegree(angle)) == angle
    ensures ToRadian(180.0) == Pi && ToRadian(0.0) == 0.0
  {
  }

  /** The argument of a macro call, as far as the expansion of ToRadian and
      ToDegree is concerned: a single operand, or a sum `left + right` written
      without parentheses. */
  datatype MacroArg = Operand(value: real) | Sum(left: real, right: real) {
    function Value(): real {
      match this
      case Operand(v) => v
      case Sum(l, r) => l + r
    }
  }

  /** What `ToRadian(arg)` evaluates to after textual expansion. The parameter
      is not parenthesised in the macro body, so for a sum only the right
      operand is converted. */
  function ToRadianExpanded(arg: MacroArg): real {
    match arg
    case Operand(v) => v / 180.0 * Pi
    case Sum(l, r) => l + r / 180.0 * Pi
  }

  /** What `ToDegree(arg)` evaluates to after textual expansion. */
  function ToDegreeExpanded(arg: MacroArg): real {
    match arg
    case Operand(v) => v * 180.0 / Pi
    case Sum(l, r) => l + r * 180.0 / Pi
  }

  /** On a single operand the expansion is the intended conversion; on a sum it
      is the intended conversion exactly when the left operand is zero. */
  lemma {:induction false} MacroExpansionOfSum(arg: MacroArg)
    ensures arg.Operand? ==> ToRadianExpanded(arg) == ToRadian(arg.Value())
    ensures arg.Operand? ==> ToDegreeExpanded(arg) == ToDegree(arg.Value())
    ensures arg.Sum? ==> (ToRadianExpanded(arg) == ToRadian(arg.Value()) <==> arg.left == 0.0)
    ensures arg.Sum? ==> (ToDegreeExpanded(arg) == ToDegree(arg.Value()) <==> arg.left == 0.0)
  {
    if arg.Sum? {
      var l, r := arg.left, arg.right;
      assert ToRadian(l + r) == l / 180.0 * Pi + r / 180.0 * Pi;
      assert ToDegree(l + r) == l * 180.0 / Pi + r * 180.0 / Pi;
      assert l / 180.0 * Pi == l <==> l == 0.0;
      assert l * 180.0 / Pi == l <==> l == 0.0;
    }
  }
}
