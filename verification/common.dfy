/** Shared vocabulary: optional values, results, and the two integer operations
    whose JavaScript meaning differs from Dafny's. */
module Common {

  /** `null`/`undefined` versus a present value. */
  datatype Option<+T> = None | Some(value: T) {
    function GetOr(default: T): T
    {
      match this
      case Some(v) => v
      case None => default
    }
  }

  /** A value, or the error the source throws or returns instead of it. */
  datatype Result<+T, +E> = Ok(value: T) | Err(error: E)

  /** `indexOf`/`findIndex`: the first position holding `x`, or -1 when there
      is none. */
  function FirstIndex<T(==)>(xs: seq<T>, x: T): (k: int)
    ensures -1 <= k < |xs|
    ensures k >= 0 ==> xs[k] == x && forall i :: 0 <= i < k ==> xs[i] != x
    ensures k == -1 <==> x !in xs
  {
    if xs == [] then -1
    else if xs[0] == x then 0
    else
      var k := FirstIndex(xs[1..], x);
      assert forall i :: 1 <= i < |xs| ==> xs[i] == xs[1..][i - 1];
      if k == -1 then -1 else k + 1
  }

  /** `Math.abs` on integers. */
  function Abs(x: int): (r: nat)
    ensures r == x || r == -x
  {
    if x < 0 then -x else x
  }

  /** JavaScript's `%`: the remainder carries the sign of the dividend, whereas
      Dafny's `%` is Euclidean and never negative. */
  function JsRem(a: int, n: int): (r: int)
    requires n > 0
    ensures a >= 0 ==> 0 <= r < n
    ensures a < 0 ==> -n < r <= 0
  {
    if a >= 0 then a % n else -((-a) % n)
  }
}
