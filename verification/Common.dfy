/** Types and small facts shared by the component models. */
module Common {

  datatype Option<+T> = None | Some(value: T) {
    /** The value, or another one if there is none. */
    function Or(other: T): T {
      if None? then other else value
    }
  }

  datatype Result<+T, +E> = Ok(value: T) | Err(error: E)

  /** A value that carries no information, for operations that return nothing. */
  datatype Unit = Unit

  type Byte = x: int | 0 <= x < 0x100

  function Min(a: nat, b: nat): nat {
    if a < b then a else b
  }

  lemma MultipleBound(d: int, k: int)
    requires d > 0
    ensures k >= 1 ==> d * k >= d
    ensures k <= -1 ==> d * k + d <= 0
  {}

  /** Quotient and remainder are the only ones there are. */
  lemma Euclid(x: int, d: int, q: int, r: int)
    requires d > 0 && 0 <= r < d && x == d * q + r
    ensures x / d == q && x % d == r
  {
    var p, s := x / d, x % d;
    assert x == d * p + s && 0 <= s < d;
    MultipleBound(d, p - q);
    assert d * (p - q) == d * p - d * q;
  }

  lemma Regroup<T>(a: seq<T>, b: seq<T>, c: seq<T>)
    ensures a + (b + c) == (a + b) + c
  {}
}
