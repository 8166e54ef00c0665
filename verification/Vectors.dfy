/**
  Embedding vectors and the numeric operations on them.

  A component is a finite number or not; the operations that depend on floating
  point are fields of `Numerics`, so every statement holds for all of them.
 */
module Vectors {

  datatype Option<+T> = None | Some(value: T)

  datatype Float = Fin(value: real) | NonFinite

  type Vec = seq<Float>

  const ZERO := Fin(0.0)

  predicate AllFinite(v: Vec) {
    forall x | x in v :: x.Fin?
  }

  /** `projection(table, bit, v)` is the signed sum behind one bit of a signature. */
  datatype Numerics = Numerics(
    normalize: Vec -> Vec,
    dot: (Vec, Vec) -> real,
    projection: (nat, nat, Vec) -> real)
  {
    /** The unit vector of v, or the empty vector when v has none. */
    function Unit(v: Vec): (u: Vec)
      ensures u == [] || |u| == |v|
    {
      var u := normalize(v);
      if |u| == |v| then u else []
    }
  }

  /** The last row takes the removed row's place. */
  function SwapRemove<T>(s: seq<T>, row: nat): (r: seq<T>)
    requires row < |s|
    ensures |r| == |s| - 1
    ensures forall i | 0 <= i < |r| :: r[i] == if i == row then s[|s| - 1] else s[i]
  {
    s[row := s[|s| - 1]][..|s| - 1]
  }
}
