/** The few pieces of Python semantics the modelled code depends on. */
module Python {
  /** The exceptions the modelled code can raise. */
  datatype Exception =
    | ZeroDivisionError   // `count % 0`
    | AttributeError      // `None.get(...)`
    | KeyError            // `del d[k]` with k not in d
    | TypeError           // a call with a missing positional argument

  function Abs(x: int): nat { if x < 0 then -x else x }

  /** Python's `int(x)` on a float: truncation toward zero. */
  function Trunc(x: real): (r: int)
    ensures Abs(r) as real <= (if x < 0.0 then -x else x) < Abs(r) as real + 1.0
    ensures x >= 0.0 ==> r >= 0
    ensures x <= 0.0 ==> r <= 0
  {
    if x >= 0.0 then x.Floor else -((-x).Floor)
  }

  /** Python's `a % b`: the result has the sign of `b` (floor division). */
  function Mod(a: int, b: int): (r: int)
    requires b != 0
    ensures b > 0 ==> 0 <= r < b
    ensures b < 0 ==> b < r <= 0
  {
    if b > 0 then a % b
    else
      var m := a % -b;
      if m == 0 then 0 else m + b
  }

  /** `a % b == 0` in Python exactly when `|b|` divides `a`. */
  lemma ModZero(a: int, b: int)
    requires b != 0
    ensures Mod(a, b) == 0 <==> a % Abs(b) == 0
  {
  }
}
