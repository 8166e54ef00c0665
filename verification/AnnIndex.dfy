/**
  The nearest-neighbour candidate indexes: random-projection hash tables and
  inverted lists, both partitioned by a tenant/namespace key.  Entries are never
  moved; removal leaves a tombstone.
 */
module AnnIndex {
  import opened Ranking
  import opened Vectors

  datatype Kind = SparseProjection | Hnsw | Ivf

  datatype Config = Config(
    tables: nat, bitsPerTable: nat, probeRadius: nat, maxCandidates: nat,
    ivfCentroids: nat, ivfProbe: nat)

  datatype Hit = Hit(row: nat, similarity: real)

  /** A bit vector, as the set of its one-bits. */
  type Signature = set<nat>

  datatype Partition = Partition(
    rowIds: seq<nat>, active: seq<bool>, rowToEntry: map<nat, nat>, units: seq<Vec>,
    tables: seq<map<Signature, seq<nat>>>, centroids: seq<Vec>, lists: seq<seq<nat>>,
    activeCount: nat)

  const EMPTY := Partition([], [], map[], [], [], [], [], 0)

  // ---------------------------------------------------------------------
  // Signatures and probes.
  // ---------------------------------------------------------------------

  predicate Within(s: Signature, bits: nat) {
    forall b | b in s :: b < bits
  }

  function SignatureOf(num: Numerics, bits: nat, table: nat, unit: Vec): (s: Signature)
    ensures Within(s, bits)
  {
    set b | 0 <= b < bits && num.projection(table, b, unit) >= 0.0
  }

  function Xor(a: Signature, b: Signature): Signature {
    (a - b) + (b - a)
  }

  function Hamming(a: Signature, b: Signature): nat {
    |Xor(a, b)|
  }

  predicate NoDup<T(==)>(s: seq<T>) {
    forall i, j | 0 <= i < j < |s| :: s[i] != s[j]
  }

  lemma XorUndoes(a: Signature, b: Signature)
    ensures Xor(a, Xor(a, b)) == b
  {
  }

  lemma XorAssoc(a: Signature, b: Signature, c: Signature)
    ensures Xor(Xor(a, b), c) == Xor(a, Xor(b, c))
  {
    forall x ensures x in Xor(Xor(a, b), c) <==> x in Xor(a, Xor(b, c)) {
    }
  }

  /** The flips tried, in the order they are tried: none, each bit, each pair of bits. */
  ghost predicate FlipsUpTo(flips: seq<Signature>, bits: nat, radius: nat) {
    && NoDup(flips)
    && forall d: Signature :: d in flips <==> Within(d, bits) && |d| <= radius
  }

  lemma SmallSet(d: Signature) returns (a: nat, b: nat)
    requires 1 <= |d| <= 2
    ensures a <= b && d == {a, b}
  {
    var x :| x in d;
    if d == {x} {
      a, b := x, x;
    } else {
      assert |d - {x}| == 1;
      var y :| y in d - {x};
      assert |d - {x} - {y}| == 0;
      assert d == {x, y};
      if x < y { a, b := x, y; } else { a, b := y, x; }
    }
  }

  lemma PairSize(a: nat, b: nat)
    ensures |{a, b}| == if a == b then 1 else 2
  {
  }

  method CollectProbes(base: Signature, bits: nat, radius: nat) returns (probes: seq<Signature>)
    requires Within(base, bits) && radius <= 2
    ensures NoDup(probes)
    ensures forall s: Signature :: s in probes <==> Within(s, bits) && Hamming(base, s) <= radius
  {
    ghost var flips: seq<Signature> := [{}];
    probes := [base];
    assert Xor(base, {}) == base;
    if radius >= 1 {
      for bit := 0 to bits
        invariant |flips| == |probes| && NoDup(flips)
        invariant forall i | 0 <= i < |flips| :: probes[i] == Xor(base, flips[i])
        invariant forall d: Signature :: d in flips <==> d == {} || exists a | 0 <= a < bit :: d == {a}
      {
        assert {bit} !in flips by {
          assert bit in {bit};
          forall a | 0 <= a < bit ensures {bit} != {a} {
            assert bit !in {a};
          }
        }
        probes := probes + [Xor(base, {bit})];
        flips := flips + [{bit}];
      }
    }
    if radius >= 2 {
      for a := 0 to bits
        invariant |flips| == |probes| && NoDup(flips)
        invariant forall i | 0 <= i < |flips| :: probes[i] == Xor(base, flips[i])
        invariant forall d: Signature :: d in flips <==>
          d == {} || (exists b | 0 <= b < bits :: d == {b}) || PairBelow(d, a, bits)
      {
        for b := a + 1 to bits
          invariant |flips| == |probes| && NoDup(flips)
          invariant forall i | 0 <= i < |flips| :: probes[i] == Xor(base, flips[i])
          invariant forall d: Signature :: d in flips <==>
            || d == {} || (exists c | 0 <= c < bits :: d == {c}) || PairBelow(d, a, bits)
            || (exists c | a < c < b :: d == {a, c})
        {
          XorAssoc(base, {a}, {b});
          assert Xor({a}, {b}) == {a, b};
          assert {a, b} !in flips by { PairIsNew(a, b, bits); }
          probes := probes + [Xor(Xor(base, {a}), {b})];
          flips := flips + [{a, b}];
        }
        forall d: Signature
          ensures PairBelow(d, a + 1, bits) <==> PairBelow(d, a, bits) || exists c | a < c < bits :: d == {a, c}
        {
        }
      }
    }
    forall d: Signature ensures d in flips <==> Within(d, bits) && |d| <= radius {
      FlipsAreSmall(d, bits, radius);
    }
    ProbesAreBall(base, flips, probes, bits, radius);
  }

  ghost predicate PairBelow(d: Signature, a: nat, bits: nat) {
    exists x, y | 0 <= x < a && x < y < bits :: d == {x, y}
  }

  lemma PairIsNew(a: nat, b: nat, bits: nat)
    requires a < b
    ensures {a, b} != {}
    ensures !exists c | 0 <= c < bits :: {a, b} == {c}
    ensures !PairBelow({a, b}, a, bits)
    ensures !exists c | a < c < b :: {a, b} == {a, c}
  {
    forall c ensures {a, b} != {c} {
      if a == c {
        assert b in {a, b} && b !in {c};
      } else {
        assert a in {a, b} && a !in {c};
      }
    }
    forall x, y | 0 <= x < a && x < y < bits ensures {a, b} != {x, y} {
      assert x !in {a, b};
    }
    forall c | a < c < b ensures {a, b} != {a, c} {
      assert c !in {a, b};
    }
  }

  /** Flips of at most `radius` bits are exactly those the loops produce. */
  lemma FlipsAreSmall(d: Signature, bits: nat, radius: nat)
    requires radius <= 2
    ensures Within(d, bits) && |d| <= radius <==>
      || d == {}
      || (radius >= 1 && exists a | 0 <= a < bits :: d == {a})
      || (radius >= 2 && PairBelow(d, bits, bits))
  {
    if Within(d, bits) && 1 <= |d| <= radius {
      var a, b := SmallSet(d);
      assert a in d && b in d;
      PairSize(a, b);
      if a == b {
        assert d == {a};
      }
    }
    if PairBelow(d, bits, bits) {
      var x, y :| 0 <= x < bits && x < y < bits && d == {x, y};
      PairSize(x, y);
    }
    if a :| 0 <= a < bits && d == {a} {
      assert |{a}| == 1;
    }
  }

  lemma ProbesAreBall(base: Signature, flips: seq<Signature>, probes: seq<Signature>, bits: nat, radius: nat)
    requires Within(base, bits)
    requires FlipsUpTo(flips, bits, radius)
    requires |flips| == |probes| && forall i | 0 <= i < |flips| :: probes[i] == Xor(base, flips[i])
    ensures NoDup(probes)
    ensures forall s: Signature :: s in probes <==> Within(s, bits) && Hamming(base, s) <= radius
  {
    forall i, j | 0 <= i < j < |probes| ensures probes[i] != probes[j] {
      XorUndoes(base, flips[i]);
      XorUndoes(base, flips[j]);
    }
    forall s: Signature ensures s in probes <==> Within(s, bits) && Hamming(base, s) <= radius {
      ProbeIsFlip(base, flips, probes, s);
      XorWithin(base, s, bits);
    }
  }

  lemma XorWithin(a: Signature, b: Signature, bits: nat)
    requires Within(a, bits)
    ensures Within(Xor(a, b), bits) <==> Within(b, bits)
  {
    if Within(Xor(a, b), bits) {
      forall x | x in b ensures x < bits {
        assert x in a || x in Xor(a, b);
      }
    }
  }

  lemma ProbeIsFlip(base: Signature, flips: seq<Signature>, probes: seq<Signature>, s: Signature)
    requires |flips| == |probes| && forall i | 0 <= i < |flips| :: probes[i] == Xor(base, flips[i])
    ensures s in probes <==> Xor(base, s) in flips
  {
    if s in probes {
      var i :| 0 <= i < |probes| && probes[i] == s;
      XorUndoes(base, flips[i]);
    }
    if Xor(base, s) in flips {
      var i :| 0 <= i < |flips| && flips[i] == Xor(base, s);
      XorUndoes(base, s);
      assert probes[i] == s;
    }
  }

  // ---------------------------------------------------------------------
  // Partitions.
  // ---------------------------------------------------------------------

  /** Row numbers and live entries are in bijection. */
  ghost predicate RowsOk(p: Partition) {
    && |p.rowIds| == |p.active| == |p.units|
    && (forall r | r in p.rowToEntry :: p.rowToEntry[r] < |p.rowIds| && p.active[p.rowToEntry[r]] && p.rowIds[p.rowToEntry[r]] == r)
    && (forall e | 0 <= e < |p.rowIds| && p.active[e] :: p.rowIds[e] in p.rowToEntry && p.rowToEntry[p.rowIds[e]] == e)
    && p.activeCount == |p.rowToEntry|
  }

  /** Table t holds every entry, dead or alive, under the signature of its vector. */
  ghost predicate TableOk(num: Numerics, bits: nat, t: nat, table: map<Signature, seq<nat>>, units: seq<Vec>) {
    && (forall sig: Signature, e: nat | InBucket(table, sig, e) :: e < |units| && SignatureOf(num, bits, t, units[e]) == sig)
    && (forall e | 0 <= e < |units| :: Filed(num, bits, t, table, units, e))
  }

  ghost predicate Filed(num: Numerics, bits: nat, t: nat, table: map<Signature, seq<nat>>, units: seq<Vec>, e: nat)
    requires e < |units|
  {
    InBucket(table, SignatureOf(num, bits, t, units[e]), e)
  }

  ghost predicate InBucket(table: map<Signature, seq<nat>>, sig: Signature, e: nat) {
    sig in table && e in table[sig]
  }

  ghost predicate TablesOk(num: Numerics, tables: nat, bits: nat, p: Partition) {
    && |p.tables| == tables
    && forall t | 0 <= t < tables :: TableOk(num, bits, t, p.tables[t], p.units)
  }

  ghost predicate Listed(lists: seq<seq<nat>>, e: nat) {
    exists l | 0 <= l < |lists| :: e in lists[l]
  }

  /** Every entry, dead or alive, is in exactly one inverted list, once. */
  ghost predicate ListsOk(p: Partition) {
    && |p.centroids| == |p.lists|
    && (forall l, e | 0 <= l < |p.lists| && e in p.lists[l] :: e < |p.rowIds|)
    && (forall l | 0 <= l < |p.lists| :: NoDup(p.lists[l]))
    && (forall l, m, e | 0 <= l < m < |p.lists| && e in p.lists[l] :: e !in p.lists[m])
    && (forall e | 0 <= e < |p.rowIds| :: Listed(p.lists, e))
  }

  ghost predicate PartitionOk(num: Numerics, kind: Kind, cfg: Config, p: Partition) {
    && RowsOk(p)
    && p.activeCount > 0
    && (kind == SparseProjection ==> TablesOk(num, cfg.tables, cfg.bitsPerTable, p))
    && (kind == Ivf ==> ListsOk(p))
  }

  /** The unit vector indexed for a row, if the row is indexed here. */
  function RowVector(p: Partition, row: nat): (r: Option<Vec>)
  {
    if row in p.rowToEntry && p.rowToEntry[row] < |p.units| then Some(p.units[p.rowToEntry[row]]) else None
  }

  lemma RowVectorKnown(p: Partition, row: nat)
    requires RowsOk(p)
    ensures RowVector(p, row).Some? <==> row in p.rowToEntry
  {
  }

  lemma PartitionParts(num: Numerics, kind: Kind, cfg: Config, p: Partition)
    ensures PartitionOk(num, kind, cfg, p) <==>
      && RowsOk(p) && p.activeCount > 0
      && (kind == SparseProjection ==> TablesOk(num, cfg.tables, cfg.bitsPerTable, p))
      && (kind == Ivf ==> ListsOk(p))
  {
    hide RowsOk;
    hide TablesOk;
    hide ListsOk;
  }

  /** A new live entry at the end of the row tables. */
  method AppendEntry(p: Partition, row: nat, unit: Vec) returns (p': Partition)
    requires RowsOk(p) && row !in p.rowToEntry
    ensures RowsOk(p') && p'.activeCount == p.activeCount + 1
    ensures |p'.rowIds| == |p.rowIds| + 1 && p'.units == p.units + [unit]
    ensures p'.tables == p.tables && p'.centroids == p.centroids && p'.lists == p.lists
    ensures forall r :: RowVector(p', r) == if r == row then Some(unit) else RowVector(p, r)
  {
    p' := p.(rowIds := p.rowIds + [row], active := p.active + [true], units := p.units + [unit],
             rowToEntry := p.rowToEntry[row := |p.rowIds|], activeCount := p.activeCount + 1);
  }

  /** Same vectors, tables and lists: only row numbers or tombstones differ. */
  predicate SameFiling(p: Partition, p': Partition) {
    && |p'.rowIds| == |p.rowIds| && p'.units == p.units
    && p'.tables == p.tables && p'.centroids == p.centroids && p'.lists == p.lists
  }

  lemma FilingKept(num: Numerics, kind: Kind, cfg: Config, p: Partition, p': Partition)
    requires PartitionOk(num, kind, cfg, p) && SameFiling(p, p') && RowsOk(p') && p'.activeCount > 0
    ensures PartitionOk(num, kind, cfg, p')
  {
    hide RowsOk;
  }

  /** A partition none of whose entries is live holds no row. */
  lemma NothingLive(p: Partition)
    requires RowsOk(p) && p.activeCount == 0
    ensures forall r :: RowVector(p, r) == None
  {
    assert p.rowToEntry == map[];
  }

  /** A tombstone at the row's entry. */
  method BuryEntry(p: Partition, row: nat) returns (p': Partition)
    requires RowsOk(p) && row in p.rowToEntry
    ensures RowsOk(p') && p'.activeCount == p.activeCount - 1 && SameFiling(p, p')
    ensures forall r :: RowVector(p', r) == if r == row then None else RowVector(p, r)
  {
    assert (p.rowToEntry - {row}).Keys == p.rowToEntry.Keys - {row};
    p' := p.(active := p.active[p.rowToEntry[row] := false], rowToEntry := p.rowToEntry - {row},
             activeCount := p.activeCount - 1);
  }

  lemma RekeyedSize(m: map<nat, nat>, from: nat, to: nat, e: nat)
    requires from in m && to !in m
    ensures |(m - {from})[to := e]| == |m|
  {
    assert (m - {from}).Keys == m.Keys - {from};
    assert (m - {from})[to := e].Keys == m.Keys - {from} + {to};
  }

  /** The same entry under another row number. */
  method RenumberEntry(p: Partition, from: nat, to: nat) returns (p': Partition)
    requires RowsOk(p) && from in p.rowToEntry && to !in p.rowToEntry
    ensures RowsOk(p') && p'.activeCount == p.activeCount && SameFiling(p, p')
    ensures forall r :: RowVector(p', r) ==
              if r == from then None else if r == to then RowVector(p, from) else RowVector(p, r)
  {
    var e := p.rowToEntry[from];
    RekeyedSize(p.rowToEntry, from, to, e);
    p' := p.(rowIds := p.rowIds[e := to], rowToEntry := (p.rowToEntry - {from})[to := e]);
  }

  /** Entry e filed in one more table. */
  function FileIn(num: Numerics, bits: nat, t: nat, table: map<Signature, seq<nat>>, unit: Vec, e: nat)
    : (table': map<Signature, seq<nat>>)
  {
    var sig := SignatureOf(num, bits, t, unit);
    table[sig := (if sig in table then table[sig] else []) + [e]]
  }

  lemma FileInKeepsTable(num: Numerics, bits: nat, t: nat, table: map<Signature, seq<nat>>, units: seq<Vec>, unit: Vec)
    requires TableOk(num, bits, t, table, units)
    ensures TableOk(num, bits, t, FileIn(num, bits, t, table, unit, |units|), units + [unit])
  {
    var table', units' := FileIn(num, bits, t, table, unit, |units|), units + [unit];
    forall sig: Signature, e: nat | InBucket(table', sig, e)
      ensures e < |units'| && SignatureOf(num, bits, t, units'[e]) == sig
    {
      if InBucket(table, sig, e) {
        assert units'[e] == units[e];
      } else {
        assert sig == SignatureOf(num, bits, t, unit) && e == |units|;
      }
    }
    forall e | 0 <= e < |units'| ensures Filed(num, bits, t, table', units', e) {
      if e < |units| {
        assert Filed(num, bits, t, table, units, e);
        assert units'[e] == units[e];
      }
    }
  }

  lemma PutInListKeeps(p: Partition, p': Partition, list: nat)
    requires ListsOk(p) && list < |p'.lists| == |p'.centroids|
    requires |p'.rowIds| == |p.rowIds| + 1
    requires var grown := if list < |p.lists| then p.lists else p.lists + [[]];
             list < |grown| && p'.lists == grown[list := grown[list] + [|p.rowIds|]]
    ensures ListsOk(p')
  {
    var n := |p.rowIds|;
    var grown := if list < |p.lists| then p.lists else p.lists + [[]];
    forall e | 0 <= e < |p'.rowIds| ensures Listed(p'.lists, e) {
      if e == n {
        assert e in p'.lists[list];
      } else {
        assert Listed(p.lists, e);
        var l :| 0 <= l < |p.lists| && e in p.lists[l];
        assert e in p'.lists[l];
      }
    }
    forall l | 0 <= l < |p'.lists| ensures NoDup(p'.lists[l]) {
      if l < |p.lists| {
        assert n !in p.lists[l];
      }
    }
  }

  // ---------------------------------------------------------------------
  // What a search should find.
  // ---------------------------------------------------------------------

  function EntryKey(num: Numerics, p: Partition, q: Vec, e: nat): Key
    requires e < |p.units|
  {
    Key(num.dot(q, p.units[e]), 0 - e)
  }

  /** The keys of the entries of s below n, by ascending entry. */
  ghost function KeysBelow(num: Numerics, p: Partition, q: Vec, s: set<nat>, n: nat): (ks: seq<Key>)
    requires n <= |p.units|
  {
    if n == 0 then []
    else KeysBelow(num, p, q, s, n - 1) + if n - 1 in s then [EntryKey(num, p, q, n - 1)] else []
  }

  function HitOf(p: Partition, k: Key): Hit {
    Hit(if 0 <= -k.tie < |p.rowIds| then p.rowIds[-k.tie] else 0, k.score)
  }

  /** The exact answer over a set of entries: most similar first, then oldest entry, cut at limit. */
  ghost function BestOf(num: Numerics, p: Partition, q: Vec, s: set<nat>, limit: nat): (hits: seq<Hit>) {
    var top := Top(KeysBelow(num, p, q, s, |p.units|), limit);
    seq(|top|, i requires 0 <= i < |top| => HitOf(p, top[i]))
  }

  lemma {:induction false} KeysBelowContents(num: Numerics, p: Partition, q: Vec, s: set<nat>, n: nat)
    requires n <= |p.units|
    ensures NoDup(KeysBelow(num, p, q, s, n))
    ensures forall k :: k in KeysBelow(num, p, q, s, n) <==>
              0 - n < k.tie <= 0 && -k.tie in s && k == EntryKey(num, p, q, -k.tie)
  {
    if n > 0 {
      KeysBelowContents(num, p, q, s, n - 1);
      var rest := KeysBelow(num, p, q, s, n - 1);
      assert EntryKey(num, p, q, n - 1).tie == 0 - (n - 1);
      assert EntryKey(num, p, q, n - 1) !in rest;
    }
  }

  lemma {:induction false} NoDupCount<T>(s: seq<T>, x: T)
    requires NoDup(s)
    ensures multiset(s)[x] == if x in s then 1 else 0
  {
    if s != [] {
      NoDupCount(s[1..], x);
      assert s == [s[0]] + s[1..];
    }
  }

  lemma NoDupSame<T>(a: seq<T>, b: seq<T>)
    requires NoDup(a) && NoDup(b) && forall x :: x in a <==> x in b
    ensures multiset(a) == multiset(b)
  {
    forall x ensures multiset(a)[x] == multiset(b)[x] {
      NoDupCount(a, x);
      NoDupCount(b, x);
    }
  }

  /** A repetition-free list within a set, as long as the set, is all of it. */
  lemma {:induction false} NoDupFills(a: seq<nat>, s: set<nat>)
    requires NoDup(a) && forall x | x in a :: x in s
    ensures |a| <= |s|
    ensures |a| >= |s| ==> forall x | x in s :: x in a
  {
    if a != [] {
      assert forall x | x in a[1..] :: x in s - {a[0]};
      NoDupFills(a[1..], s - {a[0]});
      assert a == [a[0]] + a[1..];
    }
  }

  predicate AllBelow(es: seq<nat>, n: nat) {
    forall i | 0 <= i < |es| :: es[i] < n
  }

  function Elems(es: seq<nat>): set<nat> {
    set e | e in es
  }

  function CandidateOf(num: Numerics, p: Partition, q: Vec, e: nat): Candidate
    requires e < |p.units|
  {
    Candidate(e, EntryKey(num, p, q, e), num.dot(q, p.units[e]))
  }

  function CandidatesOf(num: Numerics, p: Partition, q: Vec, es: seq<nat>): (cs: seq<Candidate>)
    requires AllBelow(es, |p.units|)
    ensures |cs| == |es| && forall i | 0 <= i < |es| :: cs[i] == CandidateOf(num, p, q, es[i])
  {
    seq(|es|, i requires 0 <= i < |es| => CandidateOf(num, p, q, es[i]))
  }

  lemma KeysOfEntries(num: Numerics, p: Partition, q: Vec, es: seq<nat>)
    requires NoDup(es) && AllBelow(es, |p.units|)
    ensures multiset(KeysOf(CandidatesOf(num, p, q, es))) == multiset(KeysBelow(num, p, q, Elems(es), |p.units|))
  {
    KeysBelowContents(num, p, q, Elems(es), |p.units|);
    EntryKeysContents(num, p, q, es);
    NoDupSame(KeysOf(CandidatesOf(num, p, q, es)), KeysBelow(num, p, q, Elems(es), |p.units|));
  }

  lemma EntryKeysContents(num: Numerics, p: Partition, q: Vec, es: seq<nat>)
    requires NoDup(es) && AllBelow(es, |p.units|)
    ensures var ks := KeysOf(CandidatesOf(num, p, q, es));
      && NoDup(ks)
      && forall k :: k in ks <==>
           0 - |p.units| < k.tie <= 0 && -k.tie in Elems(es) && k == EntryKey(num, p, q, -k.tie)
  {
    var ks := KeysOf(CandidatesOf(num, p, q, es));
    forall i | 0 <= i < |ks| ensures ks[i] == EntryKey(num, p, q, es[i]) && es[i] in Elems(es) {
    }
    forall k: Key | 0 - |p.units| < k.tie <= 0 && -k.tie in Elems(es) && k == EntryKey(num, p, q, -k.tie)
      ensures k in ks
    {
      var i :| 0 <= i < |es| && es[i] == -k.tie;
      assert ks[i] == k;
    }
  }

  /** Rank order and the entries offered fix the answer. */
  lemma RankedHits(num: Numerics, p: Partition, q: Vec, es: seq<nat>, out: seq<Candidate>, hits: seq<Hit>, limit: nat)
    requires RowsOk(p) && NoDup(es) && AllBelow(es, |p.units|)
    requires IsTopOf(out, CandidatesOf(num, p, q, es), limit)
    requires |hits| == |out| && forall i | 0 <= i < |out| :: out[i].idx < |p.rowIds| ==> hits[i] == Hit(p.rowIds[out[i].idx], out[i].similarity)
    ensures hits == BestOf(num, p, q, Elems(es), limit)
  {
    var all := CandidatesOf(num, p, q, es);
    var ks := KeysBelow(num, p, q, Elems(es), |p.units|);
    KeysOfEntries(num, p, q, es);
    SortOfSame(KeysOf(all), ks);
    SameSize(KeysOf(all), ks);
    forall i | 0 <= i < |out| ensures hits[i] == HitOf(p, KeysOf(out)[i]) {
      DrawnFrom(num, p, q, es, out, i);
    }
  }

  lemma DrawnFrom(num: Numerics, p: Partition, q: Vec, es: seq<nat>, out: seq<Candidate>, i: nat)
    requires AllBelow(es, |p.units|) && multiset(out) <= multiset(CandidatesOf(num, p, q, es))
    requires i < |out|
    ensures out[i].idx in es && out[i].idx < |p.units| && out[i] == CandidateOf(num, p, q, out[i].idx)
  {
    var all := CandidatesOf(num, p, q, es);
    assert out[i] in multiset(out);
    assert out[i] in multiset(all);
    var j :| 0 <= j < |all| && all[j] == out[i];
    assert es[j] in es;
  }

  /** Entry e shares a bucket with the query within the probe radius, in one of the first tables. */
  ghost predicate Collides(num: Numerics, cfg: Config, p: Partition, q: Vec, e: nat, tables: nat)
    requires e < |p.units|
  {
    exists t | 0 <= t < tables :: CollidesIn(num, cfg, p, q, e, t)
  }

  ghost predicate CollidesIn(num: Numerics, cfg: Config, p: Partition, q: Vec, e: nat, t: nat)
    requires e < |p.units|
  {
    Hamming(SignatureOf(num, cfg.bitsPerTable, t, q), SignatureOf(num, cfg.bitsPerTable, t, p.units[e])) <= cfg.probeRadius
  }

  function Live(p: Partition): set<nat> {
    set e | 0 <= e < |p.active| && p.active[e]
  }

  function CentroidCandidates(num: Numerics, p: Partition, q: Vec): (cs: seq<Candidate>)
    requires |p.centroids| == |p.lists|
    ensures |cs| == |p.lists|
    ensures forall l | 0 <= l < |cs| :: cs[l].idx == l == -cs[l].key.tie
  {
    seq(|p.lists|, l requires 0 <= l < |p.lists| =>
      Candidate(l, Key(num.dot(q, p.centroids[l]), 0 - l), num.dot(q, p.centroids[l])))
  }

  /** List l is among the `probes` lists with the nearest centroids. */
  ghost predicate Probed(num: Numerics, p: Partition, q: Vec, probes: nat, l: nat)
    requires |p.centroids| == |p.lists|
  {
    l < |p.lists| && CentroidCandidates(num, p, q)[l].key in Top(KeysOf(CentroidCandidates(num, p, q)), probes)
  }

  ghost predicate InProbedList(num: Numerics, p: Partition, q: Vec, probes: nat, e: nat)
    requires |p.centroids| == |p.lists|
  {
    exists l | 0 <= l < |p.lists| :: e in p.lists[l] && Probed(num, p, q, probes, l)
  }

  /** The live entries a search may look at. */
  ghost function Eligible(num: Numerics, kind: Kind, cfg: Config, p: Partition, q: Vec): set<nat>
    requires PartitionOk(num, kind, cfg, p)
  {
    if kind == SparseProjection then set e | e in Live(p) && Collides(num, cfg, p, q, e, cfg.tables)
    else if kind == Ivf then set e | e in Live(p) && InProbedList(num, p, q, cfg.ivfProbe, e)
    else {}
  }

  /** A capped collection of colliding entries is all of them unless there are more than the cap. */
  lemma Collected(num: Numerics, cfg: Config, p: Partition, q: Vec, found: seq<nat>)
    requires PartitionOk(num, SparseProjection, cfg, p) && NoDup(found)
    requires forall e | e in found :: e in Live(p) && Collides(num, cfg, p, q, e, cfg.tables)
    requires |found| < cfg.maxCandidates ==>
               forall e | e in Live(p) && Collides(num, cfg, p, q, e, cfg.tables) :: e in found
    ensures var goal := Eligible(num, SparseProjection, cfg, p, q);
      Elems(found) <= goal && (|goal| <= cfg.maxCandidates ==> Elems(found) == goal)
  {
    NoDupFills(found, Eligible(num, SparseProjection, cfg, p, q));
  }

  /** With a probe count of at least the number of lists, nothing live is out of reach. */
  lemma IvfProbingAllIsExact(num: Numerics, cfg: Config, p: Partition, q: Vec)
    requires PartitionOk(num, Ivf, cfg, p) && cfg.ivfProbe >= |p.lists|
    ensures Eligible(num, Ivf, cfg, p, q) == Live(p)
  {
    var keys := KeysOf(CentroidCandidates(num, p, q));
    assert Top(keys, cfg.ivfProbe) == Sort(keys);
    SortContents(keys);
    forall e | e in Live(p) ensures InProbedList(num, p, q, cfg.ivfProbe, e) {
      assert Listed(p.lists, e);
      var l :| 0 <= l < |p.lists| && e in p.lists[l];
      assert keys[l] in multiset(Sort(keys));
      assert Probed(num, p, q, cfg.ivfProbe, l);
    }
  }

  /** A hit made from the key of a live entry. */
  ghost predicate HitIs(num: Numerics, p: Partition, q: Vec, s: set<nat>, k: Key, h: Hit)
    requires RowsOk(p)
  {
    && 0 - |p.units| < k.tie <= 0 && -k.tie in s
    && h == Hit(p.rowIds[-k.tie], k.score)
    && RowVector(p, h.row) == Some(p.units[-k.tie])
    && k.score == num.dot(q, p.units[-k.tie])
    && h.row in p.rowToEntry && p.rowToEntry[h.row] == -k.tie
  }

  lemma KeyToHit(num: Numerics, p: Partition, q: Vec, s: set<nat>, k: Key)
    requires RowsOk(p) && s <= Live(p) && k in KeysBelow(num, p, q, s, |p.units|)
    ensures HitIs(num, p, q, s, k, HitOf(p, k))
  {
    KeysBelowContents(num, p, q, s, |p.units|);
    var e := -k.tie;
    assert e in Live(p);
  }

  lemma AnswerSize(num: Numerics, p: Partition, q: Vec, s: set<nat>, limit: nat)
    requires RowsOk(p) && s <= Live(p)
    ensures |BestOf(num, p, q, s, limit)| == Min(limit, |s|)
  {
    KeysBelowSize(num, p, q, s, |p.units|);
    assert (set e | e in s && e < |p.units|) == s;
  }

  /** An exact answer over live entries names distinct indexed rows with their true similarities. */
  lemma HitsAreIndexed(num: Numerics, p: Partition, q: Vec, s: set<nat>, limit: nat)
    requires RowsOk(p) && s <= Live(p)
    ensures var hits := BestOf(num, p, q, s, limit);
      && |hits| == Min(limit, |s|)
      && (forall i | 0 <= i < |hits| :: RowVector(p, hits[i].row).Some? && hits[i].similarity == num.dot(q, RowVector(p, hits[i].row).value))
      && (forall i, j | 0 <= i < j < |hits| :: hits[i].row != hits[j].row && hits[i].similarity >= hits[j].similarity)
  {
    var ks, hits := KeysBelow(num, p, q, s, |p.units|), BestOf(num, p, q, s, limit);
    AnswerSize(num, p, q, s, limit);
    var sorted := Sort(ks);
    assert NoDup(sorted) && Ranked(sorted) && forall i | 0 <= i < |sorted| :: sorted[i] in ks by {
      KeysBelowContents(num, p, q, s, |p.units|);
      SortKeepsNoDup(ks);
    }
    forall i | 0 <= i < |hits|
      ensures hits[i] == HitOf(p, sorted[i]) && HitIs(num, p, q, s, sorted[i], hits[i])
    {
      KeyToHit(num, p, q, s, sorted[i]);
    }
    forall i, j | 0 <= i < j < |hits|
      ensures hits[i].row != hits[j].row && hits[i].similarity >= hits[j].similarity
    {
      assert sorted[i] != sorted[j] && !Beats(sorted[j], sorted[i]);
    }
  }

  lemma SortKeepsNoDup(ks: seq<Key>)
    requires NoDup(ks)
    ensures NoDup(Sort(ks)) && Ranked(Sort(ks))
    ensures forall i | 0 <= i < |Sort(ks)| :: Sort(ks)[i] in ks
  {
    var sorted := Sort(ks);
    SortRanked(ks);
    SortContents(ks);
    forall i | 0 <= i < |sorted| ensures sorted[i] in ks {
      assert sorted[i] in multiset(ks);
    }
    forall i, j | 0 <= i < j < |sorted| ensures sorted[i] != sorted[j] {
      NoDupCount(ks, sorted[i]);
      if sorted[i] == sorted[j] {
        TwiceCounts(sorted, i, j);
      }
    }
  }

  lemma TwiceCounts<T>(s: seq<T>, i: nat, j: nat)
    requires i < j < |s| && s[i] == s[j]
    ensures multiset(s)[s[i]] >= 2
  {
    assert s == s[..j] + [s[j]] + s[j + 1..];
    assert s[i] in s[..j];
  }

  lemma {:induction false} KeysBelowSize(num: Numerics, p: Partition, q: Vec, s: set<nat>, n: nat)
    requires n <= |p.units|
    ensures |KeysBelow(num, p, q, s, n)| == |set e | e in s && e < n|
  {
    if n > 0 {
      KeysBelowSize(num, p, q, s, n - 1);
      var below := set e | e in s && e < n - 1;
      assert (set e | e in s && e < n) == below + if n - 1 in s then {n - 1} else {};
    }
  }

  /** Entry e is in one of the first i lists of an order on the lists. */
  ghost predicate FromLists(p: Partition, order: seq<nat>, i: nat, e: nat)
    requires i <= |order| && AllBelow(order, |p.lists|)
  {
    exists j | 0 <= j < i :: e in p.lists[order[j]]
  }

  lemma FromNextList(p: Partition, order: seq<nat>, i: nat, e: nat)
    requires i < |order| && AllBelow(order, |p.lists|)
    ensures FromLists(p, order, i + 1, e) <==> FromLists(p, order, i, e) || e in p.lists[order[i]]
  {
  }

  /** Lists are disjoint, so a fresh list brings only fresh entries. */
  lemma FreshList(p: Partition, order: seq<nat>, i: nat, e: nat)
    requires ListsOk(p) && NoDup(order) && AllBelow(order, |p.lists|)
    requires i < |order| && e in p.lists[order[i]]
    ensures !FromLists(p, order, i, e)
  {
    forall j | 0 <= j < i ensures e !in p.lists[order[j]] {
      if order[j] < order[i] {
        assert e in p.lists[order[i]];
      }
    }
  }

  /** Ranking the centroids orders the lists without repetition, probed lists first. */
  lemma CentroidOrder(num: Numerics, p: Partition, q: Vec, ranked: seq<Candidate>, order: seq<nat>)
    requires |p.centroids| == |p.lists|
    requires multiset(ranked) == multiset(CentroidCandidates(num, p, q)) && Ranked(KeysOf(ranked))
    requires |order| == |ranked| && forall i | 0 <= i < |order| :: order[i] == ranked[i].idx
    ensures |order| == |p.lists| && AllBelow(order, |p.lists|) && NoDup(order)
    ensures forall probes: nat, l: nat | probes <= |order| && 0 <= l < |p.lists| :: Probed(num, p, q, probes, l) <==> l in order[..probes]
  {
    var cs := CentroidCandidates(num, p, q);
    SameSize(ranked, cs);
    KeysMonotone(ranked, cs);
    KeysMonotone(cs, ranked);
    SortRanked(KeysOf(cs));
    SortContents(KeysOf(cs));
    RankedUnique(KeysOf(ranked), Sort(KeysOf(cs)));
    forall i | 0 <= i < |ranked| ensures ranked[i].idx < |cs| && ranked[i] == cs[ranked[i].idx] {
      assert ranked[i] in multiset(cs);
    }
    assert NoDup(cs);
    forall i, j | 0 <= i < j < |order| ensures order[i] != order[j] {
      NoDupCount(cs, ranked[i]);
      if ranked[i] == ranked[j] {
        TwiceCounts(ranked, i, j);
      }
    }
    forall probes: nat, l: nat | probes <= |order| && l < |p.lists|
      ensures Probed(num, p, q, probes, l) <==> l in order[..probes]
    {
      ProbedIsEarly(num, p, q, ranked, order, probes, l);
    }
  }

  lemma ProbedIsEarly(num: Numerics, p: Partition, q: Vec, ranked: seq<Candidate>, order: seq<nat>, probes: nat, l: nat)
    requires |p.centroids| == |p.lists| && l < |p.lists| && probes <= |order| == |p.lists|
    requires |order| == |ranked| && forall i | 0 <= i < |order| :: order[i] == ranked[i].idx
    requires forall i | 0 <= i < |ranked| :: ranked[i].idx < |p.lists| && ranked[i] == CentroidCandidates(num, p, q)[ranked[i].idx]
    requires KeysOf(ranked) == Sort(KeysOf(CentroidCandidates(num, p, q)))
    ensures Probed(num, p, q, probes, l) <==> l in order[..probes]
  {
    var cs := CentroidCandidates(num, p, q);
    var top := Top(KeysOf(cs), probes);
    if cs[l].key in top {
      var i :| 0 <= i < |top| && top[i] == cs[l].key;
      assert ranked[i].key == cs[l].key;
      assert order[i] == l && order[..probes][i] == l;
    }
    if l in order[..probes] {
      var i :| 0 <= i < probes && order[i] == l;
      assert top[i] == KeysOf(ranked)[i] == cs[l].key;
    }
  }

  lemma CandidatesOfAppend(num: Numerics, p: Partition, q: Vec, es: seq<nat>, e: nat)
    requires AllBelow(es, |p.units|) && e < |p.units|
    ensures CandidatesOf(num, p, q, es + [e]) == CandidatesOf(num, p, q, es) + [CandidateOf(num, p, q, e)]
  {
  }

  lemma ElemsBelow(es: seq<nat>, n: nat)
    requires forall e | e in Elems(es) :: e < n
    ensures AllBelow(es, n)
  {
    forall i | 0 <= i < |es| ensures es[i] < n {
      assert es[i] in Elems(es);
    }
  }

  lemma {:induction false} ElemsSize(es: seq<nat>)
    ensures |Elems(es)| <= |es|
  {
    if es != [] {
      ElemsSize(es[1..]);
      assert Elems(es) == Elems(es[1..]) + {es[0]};
    }
  }

  lemma EarlierLists(p: Partition, order: seq<nat>, i: nat, n: nat)
    requires i <= n <= |order| && AllBelow(order, |p.lists|)
    ensures forall e | FromLists(p, order, i, e) :: FromLists(p, order, n, e)
  {
  }

  /** A capped scan of the probed lists sees all their live entries unless there are more than the cap. */
  lemma ScannedAll(num: Numerics, cfg: Config, p: Partition, q: Vec, es: seq<nat>)
    requires PartitionOk(num, Ivf, cfg, p) && NoDup(es)
    requires forall e | e in es :: e in Live(p) && InProbedList(num, p, q, cfg.ivfProbe, e)
    requires |es| < cfg.maxCandidates ==>
               forall e | e in Live(p) && InProbedList(num, p, q, cfg.ivfProbe, e) :: e in es
    ensures var goal := Eligible(num, Ivf, cfg, p, q);
      Elems(es) <= goal && (|goal| <= cfg.maxCandidates ==> Elems(es) == goal)
  {
    NoDupFills(es, Eligible(num, Ivf, cfg, p, q));
  }

  lemma ProbedMeansFromLists(num: Numerics, p: Partition, q: Vec, order: seq<nat>, probes: nat, ivfProbe: nat, e: nat)
    requires |p.centroids| == |p.lists| == |order| && AllBelow(order, |p.lists|)
    requires probes == Min(ivfProbe, |p.lists|)
    requires forall n: nat, l: nat | n <= |order| && 0 <= l < |p.lists| :: Probed(num, p, q, n, l) <==> l in order[..n]
    ensures InProbedList(num, p, q, ivfProbe, e) <==> FromLists(p, order, probes, e)
  {
    var keys := KeysOf(CentroidCandidates(num, p, q));
    assert Top(keys, ivfProbe) == Top(keys, probes);
    if InProbedList(num, p, q, ivfProbe, e) {
      var l :| 0 <= l < |p.lists| && e in p.lists[l] && Probed(num, p, q, ivfProbe, l);
      assert Probed(num, p, q, probes, l);
      var j :| 0 <= j < probes && order[..probes][j] == l;
      assert e in p.lists[order[j]];
    }
    if FromLists(p, order, probes, e) {
      var j :| 0 <= j < probes && e in p.lists[order[j]];
      assert order[j] in order[..probes];
      assert Probed(num, p, q, probes, order[j]);
    }
  }

  // ---------------------------------------------------------------------
  // The index object.
  // ---------------------------------------------------------------------

  function Clamp(x: nat, lo: nat, hi: nat): nat
    requires lo <= hi
  {
    if x < lo then lo else if x > hi then hi else x
  }

  /** The bounds each backend puts on its configuration when it is constructed. */
  function Clamped(c: Config): (r: Config)
    ensures 1 <= r.tables <= 32 && 1 <= r.bitsPerTable <= 20 && r.probeRadius <= 2
    ensures 1 <= r.maxCandidates && 1 <= r.ivfCentroids <= 65536 && 1 <= r.ivfProbe
  {
    Config(Clamp(c.tables, 1, 32), Clamp(c.bitsPerTable, 1, 20), Min(c.probeRadius, 2),
           if c.maxCandidates < 1 then 1 else c.maxCandidates,
           Clamp(c.ivfCentroids, 1, 65536),
           if c.ivfProbe < 1 then 1 else c.ivfProbe)
  }

  function LookupIn(partitions: map<string, Partition>, key: string, row: nat): (r: Option<Vec>) {
    if key in partitions then RowVector(partitions[key], row) else None
  }

  class Index {
    const num: Numerics
    const kind: Kind
    const cfg: Config
    var dimension: nat
    var partitions: map<string, Partition>

    ghost predicate Valid()
      reads this
    {
      && kind != Hnsw
      && cfg == Clamped(cfg)
      && forall k | k in partitions :: PartitionOk(num, kind, cfg, partitions[k])
    }

    /** What the index holds for a row of a partition. */
    ghost function Lookup(key: string, row: nat): (r: Option<Vec>)
      reads this`partitions
    {
      LookupIn(partitions, key, row)
    }

    constructor (num: Numerics, kind: Kind, config: Config)
      requires kind != Hnsw
      ensures Valid() && this.num == num && this.kind == kind && this.cfg == Clamped(config)
      ensures dimension == 0 && forall k, r :: Lookup(k, r) == None
    {
      this.num, this.kind, this.cfg := num, kind, Clamped(config);
      dimension, partitions := 0, map[];
    }

    method EnsureDimension(dim: nat) returns (ok: bool)
      modifies this`dimension
      ensures ok == (dim != 0 && (old(dimension) == 0 || old(dimension) == dim))
      ensures dimension == if old(dimension) == 0 then dim else old(dimension)
    {
      if dim == 0 { return false; }
      if dimension != 0 { return dimension == dim; }
      dimension := dim;
      return true;
    }

    /** The list whose centroid is nearest, the first of equals. */
    method NearestCentroid(p: Partition, unit: Vec) returns (best: nat)
      requires |p.centroids| == |p.lists| > 0
      ensures best < |p.lists|
      ensures forall l | 0 <= l < |p.lists| :: num.dot(unit, p.centroids[l]) <= num.dot(unit, p.centroids[best])
      ensures forall l | 0 <= l < best :: num.dot(unit, p.centroids[l]) < num.dot(unit, p.centroids[best])
    {
      best := 0;
      for i := 1 to |p.lists|
        invariant best < i
        invariant forall l | 0 <= l < i :: num.dot(unit, p.centroids[l]) <= num.dot(unit, p.centroids[best])
        invariant forall l | 0 <= l < best :: num.dot(unit, p.centroids[l]) < num.dot(unit, p.centroids[best])
      {
        if num.dot(unit, p.centroids[i]) > num.dot(unit, p.centroids[best]) {
          best := i;
        }
      }
    }

    /** Files the newest entry of a partition in every hash table. */
    method FileInTables(p: Partition, unit: Vec, ghost units: seq<Vec>) returns (tables: seq<map<Signature, seq<nat>>>)
      requires p.units == units + [unit] && |p.tables| == cfg.tables
      requires forall t | 0 <= t < cfg.tables :: TableOk(num, cfg.bitsPerTable, t, p.tables[t], units)
      ensures |tables| == cfg.tables
      ensures forall t | 0 <= t < cfg.tables :: TableOk(num, cfg.bitsPerTable, t, tables[t], p.units)
    {
      tables := p.tables;
      for t := 0 to cfg.tables
        invariant |tables| == cfg.tables
        invariant forall u | 0 <= u < t :: TableOk(num, cfg.bitsPerTable, u, tables[u], p.units)
        invariant forall u | t <= u < cfg.tables :: TableOk(num, cfg.bitsPerTable, u, tables[u], units)
      {
        FileInKeepsTable(num, cfg.bitsPerTable, t, tables[t], units, unit);
        tables := tables[t := FileIn(num, cfg.bitsPerTable, t, tables[t], unit, |p.units| - 1)];
      }
    }

    method Install(key: string, p: Partition)
      requires Valid() && PartitionOk(num, kind, cfg, p)
      modifies this`partitions
      ensures Valid()
      ensures forall k, r :: Lookup(k, r) == if k == key then RowVector(p, r) else old(Lookup(k, r))
    {
      hide PartitionOk;
      hide RowVector;
      partitions := partitions[key := p];
    }

    /** The key's partition, or a new one with its tables laid out. */
    method PartitionFor(key: string) returns (p: Partition)
      requires Valid()
      ensures RowsOk(p)
      ensures kind == SparseProjection ==> TablesOk(num, cfg.tables, cfg.bitsPerTable, p)
      ensures kind == Ivf ==> ListsOk(p)
      ensures forall r :: RowVector(p, r) == Lookup(key, r)
    {
      if key in partitions {
        p := partitions[key];
        PartitionParts(num, kind, cfg, p);
      } else {
        p := EMPTY;
        if kind == SparseProjection {
          p := p.(tables := seq(cfg.tables, i => map[]));
        }
      }
    }

    /** A partition with one more live entry, filed in every hash table. */
    method WithTableEntry(p: Partition, row: nat, unit: Vec) returns (p': Partition)
      requires RowsOk(p) && row !in p.rowToEntry && TablesOk(num, cfg.tables, cfg.bitsPerTable, p)
      ensures RowsOk(p') && p'.activeCount > 0 && TablesOk(num, cfg.tables, cfg.bitsPerTable, p')
      ensures forall r :: RowVector(p', r) == if r == row then Some(unit) else RowVector(p, r)
    {
      var q := AppendEntry(p, row, unit);
      hide TableOk;
      var tables := FileInTables(q, unit, p.units);
      p' := q.(tables := tables);
      assert forall r :: RowVector(p', r) == RowVector(q, r);
    }

    /** A partition with one more live entry, put in one inverted list. */
    method WithListEntry(p: Partition, row: nat, unit: Vec) returns (p': Partition)
      requires Valid() && RowsOk(p) && row !in p.rowToEntry && ListsOk(p)
      ensures RowsOk(p') && p'.activeCount > 0 && ListsOk(p')
      ensures forall r :: RowVector(p', r) == if r == row then Some(unit) else RowVector(p, r)
    {
      var centroids, lists, list := p.centroids, p.lists, |p.lists|;
      if |p.lists| < cfg.ivfCentroids {
        centroids, lists := centroids + [unit], lists + [[]];
      } else {
        list := NearestCentroid(p, unit);
      }
      var q := AppendEntry(p, row, unit);
      p' := q.(centroids := centroids, lists := lists[list := lists[list] + [|p.rowIds|]]);
      assert forall r :: RowVector(p', r) == RowVector(q, r);
      PutInListKeeps(p, p', list);
    }

    method Add(key: string, row: nat, embedding: Vec) returns (ok: bool)
      requires Valid()
      modifies this
      ensures Valid()
      ensures ok == (&& embedding != [] && (old(dimension) == 0 || old(dimension) == |embedding|)
                     && num.Unit(embedding) != [] && old(Lookup(key, row)) == None)
      ensures dimension == if old(dimension) == 0 then |embedding| else old(dimension)
      ensures forall k, r :: Lookup(k, r) ==
                if ok && k == key && r == row then Some(num.Unit(embedding)) else old(Lookup(k, r))
    {
      if embedding == [] { return false; }
      var fits := EnsureDimension(|embedding|);
      if !fits { return false; }
      var unit := num.Unit(embedding);
      if unit == [] { return false; }

      hide PartitionOk;
      hide RowVector;
      var p := PartitionFor(key);
      RowVectorKnown(p, row);
      hide RowsOk;
      hide TablesOk;
      hide ListsOk;
      if row in p.rowToEntry { return false; }
      var p';
      if kind == SparseProjection {
        p' := WithTableEntry(p, row, unit);
      } else {
        p' := WithListEntry(p, row, unit);
      }
      PartitionParts(num, kind, cfg, p');
      Install(key, p');
      return true;
    }

    method Remove(key: string, row: nat) returns (ok: bool)
      requires Valid()
      modifies this`partitions
      ensures Valid()
      ensures ok == (old(Lookup(key, row)) != None)
      ensures forall k, r :: Lookup(k, r) == if k == key && r == row then None else old(Lookup(k, r))
    {
      hide RowVector;
      hide PartitionOk;
      hide RowsOk;
      if key !in partitions { return false; }
      var p := partitions[key];
      PartitionParts(num, kind, cfg, p);
      RowVectorKnown(p, row);
      if row !in p.rowToEntry { return false; }
      var p' := BuryEntry(p, row);
      if p'.activeCount == 0 {
        NothingLive(p');
        partitions := partitions - {key};
      } else {
        FilingKept(num, kind, cfg, p, p');
        Install(key, p');
      }
      return true;
    }

    method UpdateRowId(key: string, from: nat, to: nat) returns (ok: bool)
      requires Valid()
      modifies this`partitions
      ensures Valid()
      ensures ok == (from == to || (old(Lookup(key, from)) != None && old(Lookup(key, to)) == None))
      ensures forall k, r :: Lookup(k, r) ==
                if ok && from != to && k == key && r == from then None
                else if ok && from != to && k == key && r == to then old(Lookup(key, from))
                else old(Lookup(k, r))
    {
      hide RowVector;
      if from == to { return true; }
      if key !in partitions { return false; }
      var p := partitions[key];
      hide PartitionOk;
      PartitionParts(num, kind, cfg, p);
      hide RowsOk;
      RowVectorKnown(p, from);
      RowVectorKnown(p, to);
      if from !in p.rowToEntry { return false; }
      if to in p.rowToEntry { return false; }
      var p' := RenumberEntry(p, from, to);
      FilingKept(num, kind, cfg, p, p');
      Install(key, p');
      return true;
    }

    /** Live, unseen entries of one bucket, until the cap is reached. */
    method ScanBucket(p: Partition, bucket: seq<nat>, found0: seq<nat>) returns (found: seq<nat>)
      requires RowsOk(p) && NoDup(found0) && |found0| < cfg.maxCandidates
      ensures NoDup(found) && |found| <= cfg.maxCandidates
      ensures forall e | e in found0 :: e in found
      ensures forall e | e in found :: e in found0 || (e in bucket && e in Live(p))
      ensures |found| < cfg.maxCandidates ==> forall e | e in bucket && e in Live(p) :: e in found
    {
      found := found0;
      for i := 0 to |bucket|
        invariant NoDup(found) && |found| < cfg.maxCandidates
        invariant forall e | e in found0 :: e in found
        invariant forall e | e in found :: e in found0 || (e in bucket && e in Live(p))
        invariant forall e | e in bucket[..i] && e in Live(p) :: e in found
      {
        var e := bucket[i];
        assert bucket[..i + 1] == bucket[..i] + [e];
        if e < |p.active| && p.active[e] && e !in found {
          found := found + [e];
          if |found| >= cfg.maxCandidates { return; }
        }
      }
      assert bucket[..|bucket|] == bucket;
    }

    /** Live entries of one table whose signature is within the probe radius, until the cap is reached. */
    method ScanTable(p: Partition, q: Vec, t: nat, found0: seq<nat>) returns (found: seq<nat>)
      requires Valid() && kind == SparseProjection && PartitionOk(num, kind, cfg, p)
      requires t < cfg.tables && NoDup(found0) && |found0| < cfg.maxCandidates
      ensures NoDup(found) && |found| <= cfg.maxCandidates
      ensures forall e | e in found0 :: e in found
      ensures forall e | e in found :: e in found0 || (e in Live(p) && CollidesIn(num, cfg, p, q, e, t))
      ensures |found| < cfg.maxCandidates ==> forall e | e in Live(p) && CollidesIn(num, cfg, p, q, e, t) :: e in found
    {
      found := found0;
      var base := SignatureOf(num, cfg.bitsPerTable, t, q);
      var probes := CollectProbes(base, cfg.bitsPerTable, cfg.probeRadius);
      var table := p.tables[t];
      assert TableOk(num, cfg.bitsPerTable, t, table, p.units);
      for i := 0 to |probes|
        invariant NoDup(found) && |found| < cfg.maxCandidates
        invariant forall e | e in found0 :: e in found
        invariant forall e | e in found :: e in found0 || (e in Live(p) && CollidesIn(num, cfg, p, q, e, t))
        invariant forall e | e in Live(p) && SignatureOf(num, cfg.bitsPerTable, t, p.units[e]) in probes[..i] :: e in found
      {
        var sig := probes[i];
        assert probes[..i + 1] == probes[..i] + [sig];
        if sig in table {
          ghost var before := found;
          found := ScanBucket(p, table[sig], found);
          forall e | e in found && e !in before ensures e in Live(p) && CollidesIn(num, cfg, p, q, e, t) {
            assert InBucket(table, sig, e);
            assert sig in probes;
          }
          if |found| >= cfg.maxCandidates { return; }
        }
        forall e | e in Live(p) && SignatureOf(num, cfg.bitsPerTable, t, p.units[e]) == sig ensures e in found {
          assert Filed(num, cfg.bitsPerTable, t, table, p.units, e);
        }
      }
      assert probes[..|probes|] == probes;
    }

    /** The candidate phase of a hash-table search. */
    method CollectCandidates(p: Partition, q: Vec) returns (found: seq<nat>)
      requires Valid() && kind == SparseProjection && PartitionOk(num, kind, cfg, p)
      ensures NoDup(found) && |found| <= cfg.maxCandidates
      ensures Elems(found) <= Eligible(num, kind, cfg, p, q)
      ensures |Eligible(num, kind, cfg, p, q)| <= cfg.maxCandidates ==> Elems(found) == Eligible(num, kind, cfg, p, q)
    {
      found := [];
      for t := 0 to cfg.tables
        invariant NoDup(found) && |found| < cfg.maxCandidates
        invariant forall e | e in found :: e in Live(p) && Collides(num, cfg, p, q, e, t)
        invariant forall e | e in Live(p) && Collides(num, cfg, p, q, e, t) :: e in found
      {
        ghost var before := found;
        found := ScanTable(p, q, t, found);
        forall e | e in Live(p)
          ensures Collides(num, cfg, p, q, e, t + 1) <==> Collides(num, cfg, p, q, e, t) || CollidesIn(num, cfg, p, q, e, t)
        {
        }
        if |found| >= cfg.maxCandidates {
          forall e | e in found ensures Collides(num, cfg, p, q, e, cfg.tables) {
            assert Collides(num, cfg, p, q, e, t + 1);
          }
          break;
        }
      }
      Collected(num, cfg, p, q, found);
    }

    /** The ranking phase of a hash-table search. */
    method RankEntries(p: Partition, q: Vec, es: seq<nat>, limit: nat) returns (hits: seq<Hit>)
      requires RowsOk(p) && NoDup(es) && AllBelow(es, |p.units|) && limit > 0
      ensures hits == BestOf(num, p, q, Elems(es), limit)
    {
      var all := CandidatesOf(num, p, q, es);
      KeepsTopEmpty(limit);
      var heap := AddAll([], all, limit, []);
      assert [] + all == all;
      var out := RankSort(heap);
      SortedHeapIsTop(out, heap, all, limit);
      hits := HitsOf(p, q, es, out, limit);
    }

    method HitsOf(p: Partition, q: Vec, ghost es: seq<nat>, out: seq<Candidate>, ghost limit: nat) returns (hits: seq<Hit>)
      requires RowsOk(p) && NoDup(es) && AllBelow(es, |p.units|)
      requires IsTopOf(out, CandidatesOf(num, p, q, es), limit)
      ensures hits == BestOf(num, p, q, Elems(es), limit)
    {
      forall i | 0 <= i < |out| ensures out[i].idx < |p.rowIds| {
        DrawnFrom(num, p, q, es, out, i);
      }
      hits := [];
      for i := 0 to |out|
        invariant |hits| == i
        invariant forall j | 0 <= j < i :: hits[j] == Hit(p.rowIds[out[j].idx], out[j].similarity)
      {
        hits := hits + [Hit(p.rowIds[out[i].idx], out[i].similarity)];
      }
      RankedHits(num, p, q, es, out, hits, limit);
    }

    /** Offers the live entries of one inverted list to the heap, until the cap is reached. */
    method ScanList(p: Partition, q: Vec, limit: nat, list: seq<nat>, heap0: seq<Candidate>, ghost es0: seq<nat>, count0: nat)
      returns (heap: seq<Candidate>, ghost es: seq<nat>, count: nat)
      requires RowsOk(p) && limit > 0 && NoDup(list) && NoDup(es0)
      requires AllBelow(list, |p.units|) && AllBelow(es0, |p.units|)
      requires forall e | e in list :: e !in es0
      requires count0 == |es0| < cfg.maxCandidates
      requires KeepsTop(heap0, CandidatesOf(num, p, q, es0), limit)
      ensures AllBelow(es, |p.units|) && NoDup(es) && count == |es| <= cfg.maxCandidates
      ensures KeepsTop(heap, CandidatesOf(num, p, q, es), limit)
      ensures forall e | e in es0 :: e in es
      ensures forall e | e in es :: e in es0 || (e in list && e in Live(p))
      ensures count < cfg.maxCandidates ==> forall e | e in list && e in Live(p) :: e in es
    {
      hide KeepsTop;
      heap, es, count := heap0, es0, count0;
      for i := 0 to |list|
        invariant AllBelow(es, |p.units|) && NoDup(es) && count == |es| < cfg.maxCandidates
        invariant KeepsTop(heap, CandidatesOf(num, p, q, es), limit)
        invariant forall e | e in es0 :: e in es
        invariant forall e | e in es :: e in es0 || (e in list[..i] && e in Live(p))
        invariant forall e | e in list[..i] && e in Live(p) :: e in es
      {
        var e := list[i];
        assert list[..i + 1] == list[..i] + [e];
        assert e !in list[..i];
        if p.active[e] {
          assert e in Live(p) && e in list;
          CandidatesOfAppend(num, p, q, es, e);
          heap := AddCandidate(heap, CandidateOf(num, p, q, e), limit, CandidatesOf(num, p, q, es));
          es := es + [e];
          count := count + 1;
          if count >= cfg.maxCandidates {
            return;
          }
        }
      }
      assert list[..|list|] == list;
    }

    /** A search of the inverted lists: nearest centroids first, bounded heap, then rank order. */
    method SearchLists(p: Partition, q: Vec, limit: nat) returns (hits: seq<Hit>, ghost scanned: set<nat>)
      requires Valid() && kind == Ivf && PartitionOk(num, kind, cfg, p) && limit > 0
      ensures hits == BestOf(num, p, q, scanned, limit)
      ensures scanned <= Eligible(num, kind, cfg, p, q) && |scanned| <= cfg.maxCandidates
      ensures |Eligible(num, kind, cfg, p, q)| <= cfg.maxCandidates ==> scanned == Eligible(num, kind, cfg, p, q)
    {
      hide KeepsTop;
      var ranked := RankSort(CentroidCandidates(num, p, q));
      var order := seq(|ranked|, i requires 0 <= i < |ranked| => ranked[i].idx);
      CentroidOrder(num, p, q, ranked, order);
      var probes := Min(cfg.ivfProbe, |order|);
      var heap: seq<Candidate>, count := [], 0;
      ghost var es: seq<nat> := [];
      KeepsTopEmpty(limit);
      assert CandidatesOf(num, p, q, es) == [];
      var i := 0;
      while i < probes && count < cfg.maxCandidates
        invariant 0 <= i <= probes
        invariant AllBelow(es, |p.units|) && NoDup(es) && count == |es| <= cfg.maxCandidates
        invariant KeepsTop(heap, CandidatesOf(num, p, q, es), limit)
        invariant forall e | e in es :: e in Live(p) && FromLists(p, order, i, e)
        invariant count < cfg.maxCandidates ==> forall e | e in Live(p) && FromLists(p, order, i, e) :: e in es
      {
        var list := p.lists[order[i]];
        forall k | 0 <= k < |list| ensures list[k] < |p.units| {
          assert list[k] in p.lists[order[i]];
        }
        forall e | e in list ensures e !in es {
          FreshList(p, order, i, e);
        }
        heap, es, count := ScanList(p, q, limit, list, heap, es, count);
        forall e ensures FromLists(p, order, i + 1, e) <==> FromLists(p, order, i, e) || e in list {
          FromNextList(p, order, i, e);
        }
        i := i + 1;
      }
      forall e ensures InProbedList(num, p, q, cfg.ivfProbe, e) <==> FromLists(p, order, probes, e) {
        ProbedMeansFromLists(num, p, q, order, probes, cfg.ivfProbe, e);
      }
      EarlierLists(p, order, i, probes);
      ScannedAll(num, cfg, p, q, es);
      scanned := Elems(es);
      ElemsSize(es);
      var out := RankSort(heap);
      SortedHeapIsTop(out, heap, CandidatesOf(num, p, q, es), limit);
      hits := HitsOf(p, q, es, out, limit);
    }

    /**
      The candidate search.  Outside the trivial cases the answer is the exact
      best of the entries scanned, and every eligible entry is scanned unless
      there are more of them than the candidate cap.
     */
    method Search(key: string, query: Vec, limit: nat) returns (hits: seq<Hit>, ghost scanned: set<nat>)
      requires Valid()
      ensures limit == 0 || query == [] || |query| != dimension || key !in partitions || num.Unit(query) == [] ==>
                hits == []
      ensures limit > 0 && query != [] && |query| == dimension && key in partitions && num.Unit(query) != [] ==>
                var p, q := partitions[key], num.Unit(query);
                && hits == BestOf(num, p, q, scanned, limit)
                && scanned <= Eligible(num, kind, cfg, p, q) && |scanned| <= cfg.maxCandidates
                && (|Eligible(num, kind, cfg, p, q)| <= cfg.maxCandidates ==> scanned == Eligible(num, kind, cfg, p, q))
      ensures forall i | 0 <= i < |hits| :: Lookup(key, hits[i].row).Some?
                && hits[i].similarity == num.dot(num.Unit(query), Lookup(key, hits[i].row).value)
      ensures forall i, j | 0 <= i < j < |hits| :: hits[i].row != hits[j].row && hits[i].similarity >= hits[j].similarity
    {
      hits, scanned := [], {};
      if limit == 0 || query == [] || |query| != dimension { return; }
      if key !in partitions { return; }
      var q := num.Unit(query);
      if q == [] { return; }
      var p := partitions[key];
      if kind == SparseProjection {
        var found := CollectCandidates(p, q);
        ElemsBelow(found, |p.units|);
        hits := RankEntries(p, q, found, limit);
        scanned := Elems(found);
        ElemsSize(found);
      } else {
        hits, scanned := SearchLists(p, q, limit);
      }
      HitsAreIndexed(num, p, q, scanned, limit);
    }
  }
}
