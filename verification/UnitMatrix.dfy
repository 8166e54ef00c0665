/**
  The flat, row-major matrix of normalised embeddings that the scan reads, and the
  presence flags beside it.
 */
module UnitMatrix {
  import opened Vectors

  function Zeros(n: nat): (v: Vec)
    ensures |v| == n
  {
    seq(n, _ => ZERO)
  }

  /** One row: the unit vector, or zeros when there is none or it does not fit. */
  function UnitRow(num: Numerics, dim: nat, e: Vec): (v: Vec)
    ensures |v| == dim
  {
    var u := num.Unit(e);
    if |u| == dim then u else Zeros(dim)
  }

  /** The matrix that the embeddings call for. */
  function Flat(num: Numerics, dim: nat, es: seq<Vec>): (m: seq<Float>)
  {
    if es == [] then [] else Flat(num, dim, es[..|es| - 1]) + UnitRow(num, dim, es[|es| - 1])
  }

  function Presence(num: Numerics, es: seq<Vec>): (p: seq<bool>)
    ensures |p| == |es|
    ensures forall i | 0 <= i < |es| :: p[i] == (num.Unit(es[i]) != [])
  {
    seq(|es|, i requires 0 <= i < |es| => num.Unit(es[i]) != [])
  }

  predicate DimsOk(dim: nat, es: seq<Vec>) {
    forall i | 0 <= i < |es| :: es[i] == [] || |es[i]| == dim
  }

  /**
    What always holds of the matrix: the flags are exact, and the matrix is exact
    if it has the right size.  It can only be too short.
   */
  ghost predicate Sound(num: Numerics, dim: nat, es: seq<Vec>, units: seq<Float>, has: seq<bool>) {
    && has == Presence(num, es)
    && |units| <= |es| * dim
    && (|units| == |es| * dim ==> units == Flat(num, dim, es))
  }

  /** Row i of the matrix is the normalisation of row i's embedding, for every i. */
  ghost predicate Exact(num: Numerics, dim: nat, es: seq<Vec>, units: seq<Float>, has: seq<bool>) {
    && has == Presence(num, es)
    && units == Flat(num, dim, es)
  }

  lemma {:induction false} FlatSize(num: Numerics, dim: nat, es: seq<Vec>)
    ensures |Flat(num, dim, es)| == |es| * dim
  {
    if es != [] {
      FlatSize(num, dim, es[..|es| - 1]);
      assert |es| * dim == (|es| - 1) * dim + dim;
    }
  }

  lemma ExactIsSound(num: Numerics, dim: nat, es: seq<Vec>, units: seq<Float>, has: seq<bool>)
    requires Exact(num, dim, es, units, has)
    ensures Sound(num, dim, es, units, has) && |units| == |es| * dim
  {
    FlatSize(num, dim, es);
  }

  lemma ConcatAssoc<T>(a: seq<T>, b: seq<T>, c: seq<T>)
    ensures (a + b) + c == a + (b + c)
  {
  }

  lemma FlatLast(num: Numerics, dim: nat, es: seq<Vec>, e: Vec)
    ensures Flat(num, dim, es + [e]) == Flat(num, dim, es) + UnitRow(num, dim, e)
  {
    hide UnitRow;
    assert (es + [e])[..|es|] == es;
  }

  lemma {:induction false} FlatConcat(num: Numerics, dim: nat, a: seq<Vec>, b: seq<Vec>)
    ensures Flat(num, dim, a + b) == Flat(num, dim, a) + Flat(num, dim, b)
  {
    hide *;
    if b == [] {
      NoRows(num, dim);
      assert a + b == a && Flat(num, dim, a) + [] == Flat(num, dim, a);
    } else {
      var n := |b| - 1;
      FlatConcat(num, dim, a, b[..n]);
      FlatLast(num, dim, a + b[..n], b[n]);
      FlatLast(num, dim, b[..n], b[n]);
      LastApart(a, b);
      ConcatAssoc(Flat(num, dim, a), Flat(num, dim, b[..n]), UnitRow(num, dim, b[n]));
    }
  }

  lemma NoRows(num: Numerics, dim: nat)
    ensures Flat(num, dim, []) == []
  {
  }

  lemma LastApart<T>(a: seq<T>, b: seq<T>)
    requires b != []
    ensures var n := |b| - 1; b[..n] + [b[n]] == b && (a + b[..n]) + [b[n]] == a + b
  {
  }

  lemma FlatInThree(num: Numerics, dim: nat, es: seq<Vec>, i: nat)
    requires i < |es|
    ensures Flat(num, dim, es) == Flat(num, dim, es[..i]) + UnitRow(num, dim, es[i]) + Flat(num, dim, es[i + 1..])
  {
    FlatConcat(num, dim, es[..i + 1], es[i + 1..]);
    assert es == es[..i + 1] + es[i + 1..];
    assert es[..i + 1][..i] == es[..i];
  }

  lemma SlicesOfThree(a: seq<Float>, b: seq<Float>, c: seq<Float>, m: seq<Float>)
    requires m == a + b + c
    ensures |m| == |a| + |b| + |c|
    ensures m[..|a|] == a && m[|a|..|a| + |b|] == b && m[|a| + |b|..] == c
  {
  }

  /** The matrix around row i. */
  lemma FlatAround(num: Numerics, dim: nat, es: seq<Vec>, i: nat)
    requires i < |es|
    ensures var m := Flat(num, dim, es);
      && 0 <= i * dim <= (i + 1) * dim <= |m|
      && m[..i * dim] == Flat(num, dim, es[..i])
      && m[i * dim..(i + 1) * dim] == UnitRow(num, dim, es[i])
      && m[(i + 1) * dim..] == Flat(num, dim, es[i + 1..])
  {
    FlatInThree(num, dim, es, i);
    FlatSize(num, dim, es[..i]);
    hide Flat;
    SlicesOfThree(Flat(num, dim, es[..i]), UnitRow(num, dim, es[i]), Flat(num, dim, es[i + 1..]), Flat(num, dim, es));
    assert (i + 1) * dim == i * dim + dim;
  }

  /** Without a dimension there are no embeddings, so the matrix is empty and no flag is set. */
  lemma NoDimension(num: Numerics, es: seq<Vec>, dim: nat)
    requires DimsOk(0, es)
    ensures Flat(num, 0, es) == []
    ensures Presence(num, es) == seq(|es|, _ => false)
    ensures Flat(num, dim, es) == Zeros(|es| * dim)
  {
    FlatSize(num, 0, es);
    FlatOfNothing(num, dim, es);
  }

  lemma {:induction false} FlatOfNothing(num: Numerics, dim: nat, es: seq<Vec>)
    requires forall i | 0 <= i < |es| :: es[i] == []
    ensures Flat(num, dim, es) == Zeros(|es| * dim)
  {
    if es != [] {
      FlatOfNothing(num, dim, es[..|es| - 1]);
      assert |es| * dim == (|es| - 1) * dim + dim;
      assert Zeros((|es| - 1) * dim) + Zeros(dim) == Zeros(|es| * dim);
      assert UnitRow(num, dim, []) == Zeros(dim);
    }
  }

  // ---------------------------------------------------------------------
  // The updates.
  // ---------------------------------------------------------------------

  /** Appending a row to a sound matrix. */
  lemma AppendSound(num: Numerics, dim: nat, es: seq<Vec>, units: seq<Float>, has: seq<bool>, e: Vec)
    requires Sound(num, dim, es, units, has)
    ensures Sound(num, dim, es + [e], units + UnitRow(num, dim, e), has + [num.Unit(e) != []])
    ensures Exact(num, dim, es, units, has) ==>
              Exact(num, dim, es + [e], units + UnitRow(num, dim, e), has + [num.Unit(e) != []])
  {
    assert (es + [e])[..|es|] == es;
    assert |es + [e]| * dim == |es| * dim + dim;
    FlatSize(num, dim, es);
  }

  function SetRow(units: seq<Float>, dim: nat, i: nat, row: Vec): (m: seq<Float>)
    requires (i + 1) * dim <= |units| && |row| == dim
    ensures |m| == |units|
  {
    assert (i + 1) * dim == i * dim + dim;
    units[..i * dim] + row + units[(i + 1) * dim..]
  }

  /** Overwriting row i. */
  lemma SetRowExact(num: Numerics, dim: nat, es: seq<Vec>, i: nat, e: Vec)
    requires i < |es|
    ensures (i + 1) * dim <= |Flat(num, dim, es)|
    ensures SetRow(Flat(num, dim, es), dim, i, UnitRow(num, dim, e)) == Flat(num, dim, es[i := e])
  {
    hide Flat;
    hide UnitRow;
    FlatAround(num, dim, es, i);
    FlatInThree(num, dim, es[i := e], i);
    assert es[i := e][..i] == es[..i] && es[i := e][i + 1..] == es[i + 1..];
  }

  /** Dropping the last row. */
  lemma DropRowExact(num: Numerics, dim: nat, es: seq<Vec>)
    requires es != []
    ensures |Flat(num, dim, es)| >= (|es| - 1) * dim
    ensures Flat(num, dim, es)[..(|es| - 1) * dim] == Flat(num, dim, es[..|es| - 1])
  {
    FlatAround(num, dim, es, |es| - 1);
  }

  lemma FlatNext(num: Numerics, dim: nat, es: seq<Vec>, i: nat)
    requires i < |es|
    ensures Flat(num, dim, es[..i + 1]) == Flat(num, dim, es[..i]) + UnitRow(num, dim, es[i])
    ensures Presence(num, es[..i + 1]) == Presence(num, es[..i]) + [num.Unit(es[i]) != []]
  {
    assert es[..i + 1][..i] == es[..i];
  }

  method RebuildUnits(num: Numerics, dim: nat, es: seq<Vec>) returns (units: seq<Float>, has: seq<bool>)
    requires DimsOk(dim, es)
    ensures Exact(num, dim, es, units, has)
  {
    units, has := [], [];
    for i := 0 to |es|
      invariant units == Flat(num, dim, es[..i]) && has == Presence(num, es[..i])
    {
      hide Flat;
      hide UnitRow;
      FlatNext(num, dim, es, i);
      units, has := units + UnitRow(num, dim, es[i]), has + [num.Unit(es[i]) != []];
    }
    assert es[..|es|] == es;
  }

  method AppendUnit(num: Numerics, dim: nat, ghost es: seq<Vec>, units: seq<Float>, has: seq<bool>, e: Vec)
    returns (units': seq<Float>, has': seq<bool>)
    requires Sound(num, dim, es, units, has) && (e == [] || |e| == dim)
    ensures Sound(num, dim, es + [e], units', has')
    ensures Exact(num, dim, es, units, has) ==> Exact(num, dim, es + [e], units', has')
  {
    AppendSound(num, dim, es, units, has, e);
    if dim == 0 {
      assert UnitRow(num, dim, e) == [] && units + [] == units;
      units', has' := units, has + [false];
    } else {
      units', has' := units + UnitRow(num, dim, e), has + [num.Unit(e) != []];
    }
  }

  /** Row i overwritten after its embedding changed; a matrix of the wrong size is rebuilt instead. */
  method SetUnit(num: Numerics, dim: nat, es: seq<Vec>, units: seq<Float>, has: seq<bool>, i: nat, e: Vec)
    returns (units': seq<Float>, has': seq<bool>)
    requires Sound(num, dim, es, units, has) && i < |es| && DimsOk(dim, es) && (e == [] || |e| == dim)
    ensures Exact(num, dim, es[i := e], units', has')
  {
    hide Flat;
    hide UnitRow;
    hide SetRow;
    if dim == 0 {
      assert es[i] == [] && es[i := e] == es;
      units', has' := units, has;
    } else if |has| != |es| || |units| != |es| * dim {
      units', has' := RebuildUnits(num, dim, es[i := e]);
    } else {
      SetRowExact(num, dim, es, i, e);
      units', has' := SetRow(units, dim, i, UnitRow(num, dim, e)), has[i := num.Unit(e) != []];
      assert has' == Presence(num, es[i := e]);
    }
  }

  /** Copying the last row over another and dropping the last row. */
  lemma SwapRemoveExact(num: Numerics, dim: nat, es: seq<Vec>, row: nat)
    requires row < |es|
    ensures var m, last := Flat(num, dim, es), |es| - 1;
      && 0 <= last * dim <= |es| * dim == |m| && (row + 1) * dim <= |m|
      && |m[last * dim..|es| * dim]| == dim
      && SetRow(m, dim, row, m[last * dim..|es| * dim])[..last * dim] == Flat(num, dim, SwapRemove(es, row))
      && (row == last ==> m[..last * dim] == Flat(num, dim, SwapRemove(es, row)))
  {
    var last := |es| - 1;
    FlatSize(num, dim, es);
    RowOfExact(num, dim, es, last);
    SetRowExact(num, dim, es, row, es[last]);
    DropRowExact(num, dim, es[row := es[last]]);
    assert row == last ==> es[row := es[last]] == es;
  }

  /** Row `row` replaced by the last row and the last row dropped; a matrix of the wrong size is rebuilt instead. */
  method RemoveUnit(num: Numerics, dim: nat, es: seq<Vec>, units: seq<Float>, has: seq<bool>, row: nat)
    returns (units': seq<Float>, has': seq<bool>)
    requires Sound(num, dim, es, units, has) && row < |es| && DimsOk(dim, es)
    ensures Exact(num, dim, SwapRemove(es, row), units', has')
  {
    hide Flat;
    hide SetRow;
    var last := |es| - 1;
    if |has| == |es| && (dim == 0 || |units| == |es| * dim) {
      SwapRemoveExact(num, dim, es, row);
      units', has' := units, has;
      if row != last {
        units' := SetRow(units', dim, row, units'[last * dim..|es| * dim]);
        has' := has'[row := has'[last]];
      }
      units', has' := units'[..last * dim], has'[..last];
      assert has' == Presence(num, SwapRemove(es, row));
    } else {
      units', has' := RebuildUnits(num, dim, SwapRemove(es, row));
    }
  }

  lemma RowOfExact(num: Numerics, dim: nat, es: seq<Vec>, i: nat)
    requires i < |es|
    ensures 0 <= i * dim <= (i + 1) * dim <= |Flat(num, dim, es)|
    ensures Flat(num, dim, es)[i * dim..(i + 1) * dim] == UnitRow(num, dim, es[i])
  {
    FlatAround(num, dim, es, i);
  }

  // ---------------------------------------------------------------------
  // Reading.
  // ---------------------------------------------------------------------

  /** The similarity the scan computes from row i of the matrix. */
  function SimilarityAt(num: Numerics, dim: nat, units: seq<Float>, has: seq<bool>, i: nat, q: Vec): real {
    assert i * dim <= (i + 1) * dim by { assert (i + 1) * dim == i * dim + dim; }
    if q == [] || i >= |has| || !has[i] || dim == 0 || |q| != dim || |units| < (i + 1) * dim then 0.0
    else num.dot(q, units[i * dim..(i + 1) * dim])
  }

  /** The similarity of a query's unit vector to a record's embedding. */
  function RecordSimilarity(num: Numerics, q: Vec, e: Vec): real {
    if q == [] || num.Unit(e) == [] || |q| != |e| then 0.0 else num.dot(q, num.Unit(e))
  }

  /** Reading an exact matrix gives every record its own similarity. */
  lemma ExactSimilarity(num: Numerics, dim: nat, es: seq<Vec>, units: seq<Float>, has: seq<bool>, i: nat, q: Vec)
    requires Exact(num, dim, es, units, has) && DimsOk(dim, es) && i < |es|
    ensures SimilarityAt(num, dim, units, has, i, q) == RecordSimilarity(num, q, es[i])
  {
    RowOfExact(num, dim, es, i);
  }

  /**
    An embedding-less row, then a dimension fixed from elsewhere without resizing,
    then a row with an embedding: the matrix is one row short, and the new row's
    similarity reads as zero whatever its embedding.
   */
  lemma ShortMatrixMisreads(num: Numerics, e: Vec, q: Vec)
    requires |e| == |q| > 0 && num.Unit(e) != [] && num.dot(q, num.Unit(e)) != 0.0
    ensures var dim, es := |e|, [[], e];
      var units, has := UnitRow(num, dim, e), [false, true];
      && Sound(num, dim, es, units, has)
      && !Exact(num, dim, es, units, has)
      && SimilarityAt(num, dim, units, has, 1, q) != RecordSimilarity(num, q, e)
  {
    var dim := |e|;
    assert Sound(num, dim, [[]], [], [false]);
    AppendSound(num, dim, [[]], [], [false], e);
    assert [[]] + [e] == [[], e];
    assert [] + UnitRow(num, dim, e) == UnitRow(num, dim, e);
    assert [false] + [true] == [false, true];
    FlatSize(num, dim, [[], e]);
  }

  /** One more row, and the row before it is read as the new one. */
  lemma ShiftedMatrixMisreads(num: Numerics, e: Vec, f: Vec, q: Vec)
    requires |e| == |f| == |q| > 0 && num.Unit(e) != [] && num.Unit(f) != [] && num.dot(q, num.Unit(e)) != num.dot(q, num.Unit(f))
    ensures var dim, es := |e|, [[], e, f];
      var units, has := UnitRow(num, dim, e) + UnitRow(num, dim, f), [false, true, true];
      && Sound(num, dim, es, units, has)
      && SimilarityAt(num, dim, units, has, 1, q) == RecordSimilarity(num, q, f) != RecordSimilarity(num, q, e)
  {
    var dim := |e|;
    assert Sound(num, dim, [[]], [], [false]);
    AppendSound(num, dim, [[]], [], [false], e);
    assert [[]] + [e] == [[], e] && [] + UnitRow(num, dim, e) == UnitRow(num, dim, e) && [false] + [true] == [false, true];
    AppendSound(num, dim, [[], e], UnitRow(num, dim, e), [false, true], f);
    assert [[], e] + [f] == [[], e, f] && [false, true] + [true] == [false, true, true];
    hide Sound;
    var units := UnitRow(num, dim, e) + UnitRow(num, dim, f);
    assert units[1 * dim..(1 + 1) * dim] == UnitRow(num, dim, f);
  }
}
