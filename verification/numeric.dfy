/** Option and Result, used for the Python exceptions the solver can raise. */
module Wrappers {
  datatype Option<+T> = None | Some(value: T)

  datatype Result<+T, +E> = Ok(value: T) | Err(error: E)
}

/** The Python numeric built-ins the solver relies on, over exact reals. */
module Numeric {
  import opened Wrappers

  function Abs(r: real): (a: real)
    ensures a >= 0.0 && (a == r || a == -r)
  {
    if r < 0.0 then -r else r
  }

  /** math.floor: the greatest integer not above r. */
  function Floor(r: real): (n: int)
    ensures n as real <= r < n as real + 1.0
  {
    r.Floor
  }

  /** math.ceil: the least integer not below r. */
  function Ceil(r: real): (n: int)
    ensures n as real - 1.0 < r <= n as real
  {
    -((-r).Floor)
  }

  /** Python's round() on one argument: the nearest integer, ties going to the even one. */
  function Round(r: real): (n: int)
    ensures r - 0.5 <= n as real <= r + 0.5
    ensures (n as real - r == 0.5 || r - n as real == 0.5) ==> n % 2 == 0
  {
    var f := Floor(r);
    var frac := r - f as real;
    if frac < 0.5 then f
    else if frac > 0.5 then f + 1
    else if f % 2 == 0 then f else f + 1
  }

  lemma RoundOfInteger(n: int)
    ensures Round(n as real) == n
  {
    assert Floor(n as real) == n;
  }

  /**
   * Python list indexing `xs[i]` on a list of length len: a negative i counts from the end,
   * and anything outside [-len, len) raises IndexError (None here).
   */
  function PyIndex(i: int, len: nat): (r: Option<nat>)
    ensures r.Some? <==> -(len as int) <= i < len
    ensures r.Some? ==> r.value < len
    ensures 0 <= i < len ==> r == Some(i)
    ensures -(len as int) <= i < 0 ==> r == Some(i + len)
  {
    if 0 <= i < len then Some(i)
    else if -(len as int) <= i < 0 then Some(i + len)
    else None
  }
}

/** material.py: an immutable density / Young's modulus pair. */
module Materials {
  datatype Material = Material(rho: real, young: real)
}
