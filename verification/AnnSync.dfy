/**
  What the nearest-neighbour index should hold for the store's rows, building it
  from a snapshot, and what swap-with-last removals do to a snapshot.
 */
module AnnSync {
  import opened Vectors
  import opened StoreRows
  import opened UnitMatrix
  import AnnIndex

  function PartitionKey(m: Memory): string {
    m.tenantId + "\n" + m.namespaceId
  }

  /** Row `row`, under its own partition key, if its embedding can be normalised. */
  function Expected(num: Numerics, ms: seq<Memory>, key: string, row: nat): (v: Option<Vec>) {
    if Indexed(num, ms, row) && PartitionKey(ms[row]) == key then Some(num.Unit(ms[row].embedding)) else None
  }

  predicate Indexed(num: Numerics, ms: seq<Memory>, row: nat) {
    row < |ms| && num.Unit(ms[row].embedding) != []
  }

  /** The index contents are exactly the rows that should be there, each under its key, row number and vector. */
  ghost predicate Holds(partitions: map<string, AnnIndex.Partition>, num: Numerics, ms: seq<Memory>) {
    forall key: string, row: nat :: AnnIndex.LookupIn(partitions, key, row) == Expected(num, ms, key, row)
  }

  ghost predicate InStep(index: AnnIndex.Index, num: Numerics, ms: seq<Memory>)
    reads index`partitions
  {
    Holds(index.partitions, num, ms)
  }

  // ---------------------------------------------------------------------
  // Building from a snapshot.
  // ---------------------------------------------------------------------

  datatype BuildEntry = BuildEntry(key: string, row: nat, embedding: Vec)

  function BuildEntries(ms: seq<Memory>): (entries: seq<BuildEntry>) {
    if ms == [] then []
    else
      var n := |ms| - 1;
      var rest := BuildEntries(ms[..n]);
      if ms[n].embedding == [] then rest else rest + [BuildEntry(PartitionKey(ms[n]), n, ms[n].embedding)]
  }

  ghost predicate EntryOf(ms: seq<Memory>, e: BuildEntry) {
    e.row < |ms| && ms[e.row].embedding == e.embedding != [] && PartitionKey(ms[e.row]) == e.key
  }

  /** Rows with an embedding, each once. */
  ghost predicate Lists(ms: seq<Memory>, entries: seq<BuildEntry>) {
    && (forall j | 0 <= j < |entries| :: EntryOf(ms, entries[j]))
    && (forall i, j | 0 <= i < j < |entries| :: entries[i].row < entries[j].row)
    && (forall r | 0 <= r < |ms| && ms[r].embedding != [] :: ListedBelow(entries, |entries|, r))
  }

  ghost predicate ListedBelow(entries: seq<BuildEntry>, n: nat, row: nat)
    requires n <= |entries|
  {
    exists j | 0 <= j < n :: entries[j].row == row
  }

  lemma ListsMore(ms: seq<Memory>, m: Memory, entries: seq<BuildEntry>)
    requires Lists(ms, entries)
    ensures m.embedding == [] ==> Lists(ms + [m], entries)
    ensures m.embedding != [] ==> Lists(ms + [m], entries + [BuildEntry(PartitionKey(m), |ms|, m.embedding)])
  {
    hide PartitionKey;
    var ms', more := ms + [m], if m.embedding == [] then entries else entries + [BuildEntry(PartitionKey(m), |ms|, m.embedding)];
    forall j | 0 <= j < |more| ensures EntryOf(ms', more[j]) {
      assert j < |entries| ==> EntryOf(ms, entries[j]);
    }
    forall r | 0 <= r < |ms'| && ms'[r].embedding != [] ensures ListedBelow(more, |more|, r) {
      if r < |ms| {
        assert ListedBelow(entries, |entries|, r);
        var j :| 0 <= j < |entries| && entries[j].row == r;
        assert more[j].row == r;
      } else {
        assert more[|entries|].row == r;
      }
    }
  }

  lemma {:induction false} BuildEntriesList(ms: seq<Memory>)
    ensures Lists(ms, BuildEntries(ms))
  {
    if ms != [] {
      hide Lists;
      hide PartitionKey;
      var n := |ms| - 1;
      assert ms == ms[..n] + [ms[n]];
      BuildEntriesList(ms[..n]);
      ListsMore(ms[..n], ms[n], BuildEntries(ms[..n]));
    } else {
      assert Lists([], []);
    }
  }

  /** Equal snapshots call for equal indexes. */
  lemma SameEntriesSameIndex(num: Numerics, a: seq<Memory>, b: seq<Memory>)
    requires BuildEntries(a) == BuildEntries(b)
    ensures forall key: string, row: nat :: Expected(num, a, key, row) == Expected(num, b, key, row)
  {
    BuildEntriesList(a);
    BuildEntriesList(b);
    forall key: string, row: nat ensures Expected(num, a, key, row) == Expected(num, b, key, row) {
      EntriesDecide(num, a, BuildEntries(a), key, row);
      EntriesDecide(num, b, BuildEntries(b), key, row);
      hide Expected;
    }
  }

  function FromEntry(num: Numerics, e: BuildEntry, key: string): Option<Vec> {
    if num.Unit(e.embedding) != [] && e.key == key then Some(num.Unit(e.embedding)) else None
  }

  lemma EntriesDecide(num: Numerics, ms: seq<Memory>, entries: seq<BuildEntry>, key: string, row: nat)
    requires Lists(ms, entries)
    ensures !ListedBelow(entries, |entries|, row) ==> Expected(num, ms, key, row) == None
    ensures forall j | 0 <= j < |entries| && entries[j].row == row :: Expected(num, ms, key, row) == FromEntry(num, entries[j], key)
  {
    hide PartitionKey;
    if !ListedBelow(entries, |entries|, row) && row < |ms| {
      assert ms[row].embedding == [];
    }
    forall j | 0 <= j < |entries| && entries[j].row == row ensures Expected(num, ms, key, row) == FromEntry(num, entries[j], key) {
      assert EntryOf(ms, entries[j]);
    }
  }

  /** The off-lock build: entries that cannot be added are passed over. */
  method Build(num: Numerics, kind: AnnIndex.Kind, config: AnnIndex.Config, entries: seq<BuildEntry>, ghost dim: nat, ghost ms: seq<Memory>)
    returns (index: AnnIndex.Index)
    requires kind != AnnIndex.Hnsw
    requires entries == BuildEntries(ms) && DimsOk(dim, Embeddings(ms))
    ensures fresh(index) && index.Valid() && index.num == num && index.kind == kind
    ensures InStep(index, num, ms)
  {
    index := new AnnIndex.Index(num, kind, config);
    BuildEntriesList(ms);
    hide PartitionKey;
    hide BuildEntries;
    for j := 0 to |entries|
      invariant fresh(index) && index.Valid() && index.num == num && index.kind == kind
      invariant index.dimension == 0 || index.dimension == dim
      invariant forall key: string, row: nat ::
                  index.Lookup(key, row) == (if ListedBelow(entries, j, row) then Expected(num, ms, key, row) else None)
    {
      var e := entries[j];
      assert EntryOf(ms, e);
      assert Embeddings(ms)[e.row] == e.embedding;
      assert !ListedBelow(entries, j, e.row);
      label before:
      var added := index.Add(e.key, e.row, e.embedding);
      forall key: string, row: nat
        ensures index.Lookup(key, row) == if ListedBelow(entries, j + 1, row) then Expected(num, ms, key, row) else None
      {
        assert ListedBelow(entries, j + 1, row) <==> ListedBelow(entries, j, row) || row == e.row;
        assert index.Lookup(key, row) ==
          if added && key == e.key && row == e.row then Some(num.Unit(e.embedding)) else old@before(index.Lookup(key, row));
      }
    }
    forall key: string, row: nat ensures index.Lookup(key, row) == Expected(num, ms, key, row) {
      EntriesDecide(num, ms, entries, key, row);
    }
  }

  // ---------------------------------------------------------------------
  // Removals behind a snapshot's back.
  // ---------------------------------------------------------------------

  /** A removal that moves no indexed row and drops none. */
  predicate Harmless(num: Numerics, ms: seq<Memory>, row: nat)
    requires row < |ms|
  {
    !Indexed(num, ms, row) && !Indexed(num, ms, |ms| - 1)
  }

  predicate CanRemove(ms: seq<Memory>, rows: seq<nat>)
    decreases |rows|
  {
    rows == [] || (rows[0] < |ms| && CanRemove(SwapRemove(ms, rows[0]), rows[1..]))
  }

  function RemoveRows(ms: seq<Memory>, rows: seq<nat>): seq<Memory>
    requires CanRemove(ms, rows)
    decreases |rows|
  {
    if rows == [] then ms else RemoveRows(SwapRemove(ms, rows[0]), rows[1..])
  }

  predicate AllHarmless(num: Numerics, ms: seq<Memory>, rows: seq<nat>)
    requires CanRemove(ms, rows)
    decreases |rows|
  {
    rows == [] || (Harmless(num, ms, rows[0]) && AllHarmless(num, SwapRemove(ms, rows[0]), rows[1..]))
  }

  ghost predicate SameIndex(num: Numerics, a: seq<Memory>, b: seq<Memory>) {
    forall key: string, row: nat :: Expected(num, a, key, row) == Expected(num, b, key, row)
  }

  /** The sum of the (one-based) numbers of the indexed rows below n. */
  function Weight(f: nat -> bool, n: nat): nat {
    if n == 0 then 0 else Weight(f, n - 1) + if f(n - 1) then n else 0
  }

  lemma {:induction false} WeightSame(f: nat -> bool, g: nat -> bool, n: nat)
    requires forall r: nat | r < n :: f(r) == g(r)
    ensures Weight(f, n) == Weight(g, n)
  {
    if n > 0 {
      WeightSame(f, g, n - 1);
    }
  }

  lemma {:induction false} WeightWithout(f: nat -> bool, g: nat -> bool, n: nat, a: nat)
    requires a < n && f(a) && !g(a) && forall r: nat | r < n && r != a :: f(r) == g(r)
    ensures Weight(f, n) == Weight(g, n) + a + 1
  {
    if a == n - 1 {
      WeightSame(f, g, n - 1);
    } else {
      WeightWithout(f, g, n - 1, a);
    }
  }

  function IndexedRows(num: Numerics, ms: seq<Memory>): nat -> bool {
    (row: nat) => Indexed(num, ms, row)
  }

  lemma RemovalWeight(num: Numerics, ms: seq<Memory>, row: nat, n: nat)
    requires row < |ms| <= n
    ensures var w, w' := Weight(IndexedRows(num, ms), n), Weight(IndexedRows(num, SwapRemove(ms, row)), n);
      if Harmless(num, ms, row) then w' == w else w' < w
  {
    var last, ms' := |ms| - 1, SwapRemove(ms, row);
    var f, g := IndexedRows(num, ms), IndexedRows(num, ms');
    var h := (r: nat) => if r == last then false else f(r);
    assert forall r: nat | r < n && r != row :: g(r) == h(r);
    if f(last) {
      WeightWithout(f, h, n, last);
    } else {
      WeightSame(f, h, n);
    }
    if row == last {
      WeightSame(g, h, n);
    } else if g(row) && !h(row) {
      WeightWithout(g, h, n, row);
    } else if !g(row) && h(row) {
      WeightWithout(h, g, n, row);
    } else {
      WeightSame(g, h, n);
    }
  }

  lemma HarmlessKeepsIndex(num: Numerics, ms: seq<Memory>, row: nat)
    requires row < |ms| && Harmless(num, ms, row)
    ensures SameIndex(num, ms, SwapRemove(ms, row))
  {
    hide PartitionKey;
  }

  lemma {:induction false} RemovalsWeight(num: Numerics, ms: seq<Memory>, rows: seq<nat>, n: nat)
    requires CanRemove(ms, rows) && |ms| <= n
    ensures var w, w' := Weight(IndexedRows(num, ms), n), Weight(IndexedRows(num, RemoveRows(ms, rows)), n);
      w' <= w && (w' == w ==> AllHarmless(num, ms, rows))
    ensures AllHarmless(num, ms, rows) ==> SameIndex(num, ms, RemoveRows(ms, rows))
    decreases |rows|
  {
    if rows != [] {
      var ms' := SwapRemove(ms, rows[0]);
      RemovalWeight(num, ms, rows[0], n);
      RemovalsWeight(num, ms', rows[1..], n);
      if Harmless(num, ms, rows[0]) {
        HarmlessKeepsIndex(num, ms, rows[0]);
      }
      hide Expected;
      hide Harmless;
    }
  }

  /**
    A snapshot outlives a run of removals exactly when each of them was harmless:
    once a removal drops or renumbers an indexed row, no later removal makes the
    snapshot right again.
   */
  lemma SnapshotSurvivesRemovals(num: Numerics, ms: seq<Memory>, rows: seq<nat>)
    requires CanRemove(ms, rows)
    ensures AllHarmless(num, ms, rows) <==> SameIndex(num, ms, RemoveRows(ms, rows))
  {
    var ms', n := RemoveRows(ms, rows), |ms|;
    RemovalsWeight(num, ms, rows, n);
    if SameIndex(num, ms, ms') {
      forall r: nat ensures Indexed(num, ms, r) == Indexed(num, ms', r) {
        SameIndexedRow(num, ms, ms', r);
      }
      WeightSame(IndexedRows(num, ms), IndexedRows(num, ms'), n);
    }
  }

  lemma SameIndexedRow(num: Numerics, a: seq<Memory>, b: seq<Memory>, r: nat)
    requires SameIndex(num, a, b)
    ensures Indexed(num, a, r) == Indexed(num, b, r)
  {
    hide PartitionKey;
    if Indexed(num, a, r) {
      assert Expected(num, a, PartitionKey(a[r]), r) == Expected(num, b, PartitionKey(a[r]), r);
    }
    if Indexed(num, b, r) {
      assert Expected(num, a, PartitionKey(b[r]), r) == Expected(num, b, PartitionKey(b[r]), r);
    }
  }

  /** The index built over `was` is right for `ms` exactly when both call for the same entries. */
  lemma InStepIfSame(index: AnnIndex.Index, num: Numerics, was: seq<Memory>, ms: seq<Memory>)
    requires InStep(index, num, was)
    ensures InStep(index, num, ms) <==> SameIndex(num, was, ms)
  {
    hide Expected;
    hide AnnIndex.LookupIn;
  }

  /** What an index built over the rows `was` is worth for the rows `ms`. */
  lemma BuiltFits(index: AnnIndex.Index, num: Numerics, was: seq<Memory>, ms: seq<Memory>)
    requires InStep(index, num, was)
    ensures InStep(index, num, ms) <==> SameIndex(num, was, ms)
    ensures BuildEntries(was) == BuildEntries(ms) ==> InStep(index, num, ms)
  {
    InStepIfSame(index, num, was, ms);
    if BuildEntries(was) == BuildEntries(ms) {
      SameEntriesSameIndex(num, was, ms);
    }
    hide Expected;
    hide BuildEntries;
    hide AnnIndex.LookupIn;
  }

  // ---------------------------------------------------------------------
  // Fewer indexed rows are another index.
  // ---------------------------------------------------------------------

  /** Records the index has an entry for. */
  function Normalisable(num: Numerics): Memory -> bool {
    (m: Memory) => num.Unit(m.embedding) != []
  }

  function CountBelow(f: nat -> bool, n: nat): nat {
    if n == 0 then 0 else CountBelow(f, n - 1) + if f(n - 1) then 1 else 0
  }

  lemma {:induction false} CountBelowSame(f: nat -> bool, g: nat -> bool, n: nat)
    requires forall r: nat | r < n :: f(r) == g(r)
    ensures CountBelow(f, n) == CountBelow(g, n)
  {
    if n > 0 {
      CountBelowSame(f, g, n - 1);
    }
  }

  lemma {:induction false} CountIndexed(num: Numerics, ms: seq<Memory>, k: nat, n: nat)
    requires k <= |ms| && k <= n && (k < n ==> k == |ms|)
    ensures CountBelow(IndexedRows(num, ms), n) == Count(Normalisable(num), ms[..k])
    decreases n
  {
    if k < n {
      CountIndexed(num, ms, k, n - 1);
    } else if n > 0 {
      CountIndexed(num, ms, k - 1, n - 1);
      assert ms[..k][..k - 1] == ms[..k - 1];
    }
  }

  /** Losing a row the index has an entry for always changes the index. */
  lemma LostRowShows(num: Numerics, before: seq<Memory>, after: seq<Memory>, gone: seq<Memory>, m: Memory)
    requires multiset(before) == multiset(after) + multiset(gone) && m in gone && num.Unit(m.embedding) != []
    ensures !SameIndex(num, before, after)
  {
    hide SameIndex;
    var p, n := Normalisable(num), |before| + |after|;
    assert multiset(before) == multiset(after + gone);
    CountSame(p, before, after + gone);
    CountConcat(p, after, gone);
    CountPositive(p, gone);
    assert p(m);
    assert before[..|before|] == before && after[..|after|] == after;
    CountIndexed(num, before, |before|, n);
    CountIndexed(num, after, |after|, n);
    if SameIndex(num, before, after) {
      forall r: nat ensures Indexed(num, before, r) == Indexed(num, after, r) {
        SameIndexedRow(num, before, after, r);
      }
      CountBelowSame(IndexedRows(num, before), IndexedRows(num, after), n);
    }
  }
}
