/**
  Filtered, ranked search over the rows: the exact scan with bounded heaps, split
  over threads and merged, and the ranking of rows proposed by an index.
 */
module MemorySearch {
  import opened Vectors
  import opened Records
  import opened Ranking
  import opened StoreRows
  import opened UnitMatrix
  import AnnIndex

  type Query = MemoryQuery<Float>

  /** The scoring functions; recency and weighting are not interpreted. */
  datatype Ranker = Ranker(
    score: (Memory, Query, int, real) -> real,
    retention: (Memory, int) -> real,
    cacheRetention: (Cache, int) -> real)

  /** What a search reads of the store. */
  datatype Table = Table(num: Numerics, ranker: Ranker, dim: nat, units: seq<Float>, has: seq<bool>, memories: seq<Memory>)

  /** A query at a time, with its unit vector. */
  datatype Probe = Probe(query: Query, unit: Vec, now: int)

  predicate Agrees(want: string, have: string) {
    want == "" || have == want
  }

  predicate Matches(m: Memory, q: Query, now: int) {
    && (q.includeExpired || !Expired(m.expiresAt, now))
    && Agrees(q.tenantId, m.tenantId) && Agrees(q.namespaceId, m.namespaceId)
    && Agrees(q.userId, m.userId) && Agrees(q.sessionId, m.sessionId)
    && Agrees(q.agentId, m.agentId) && Agrees(q.kind, m.kind)
  }

  function RowCandidate(t: Table, p: Probe, i: nat): (c: Candidate)
    requires i < |t.memories|
  {
    var m := t.memories[i];
    var sim := SimilarityAt(t.num, t.dim, t.units, t.has, i, p.unit);
    Candidate(i, Key(t.ranker.score(m, p.query, p.now, sim), m.createdAt), sim)
  }

  predicate RowMatches(t: Table, p: Probe, i: nat)
    requires i < |t.memories|
  {
    Matches(t.memories[i], p.query, p.now)
  }

  /** The matching rows from lo up to hi. */
  function MatchesIn(t: Table, p: Probe, lo: nat, hi: nat): (cs: seq<Candidate>)
  {
    if hi <= lo || hi > |t.memories| then []
    else
      var rest := MatchesIn(t, p, lo, hi - 1);
      if RowMatches(t, p, hi - 1) then rest + [RowCandidate(t, p, hi - 1)] else rest
  }

  /** All matching rows. */
  function AllMatches(t: Table, p: Probe): (cs: seq<Candidate>) {
    MatchesIn(t, p, 0, |t.memories|)
  }

  /** The matching rows among those listed; numbers that are not rows are passed over. */
  function MatchesOf(t: Table, p: Probe, rows: seq<nat>): (cs: seq<Candidate>) {
    if rows == [] then []
    else
      var i, rest := rows[|rows| - 1], MatchesOf(t, p, rows[..|rows| - 1]);
      if i < |t.memories| && RowMatches(t, p, i) then rest + [RowCandidate(t, p, i)] else rest
  }

  lemma {:induction false} MatchesInSplit(t: Table, p: Probe, lo: nat, mid: nat, hi: nat)
    requires lo <= mid <= hi <= |t.memories|
    ensures MatchesIn(t, p, lo, mid) + MatchesIn(t, p, mid, hi) == MatchesIn(t, p, lo, hi)
  {
    if mid < hi {
      MatchesInSplit(t, p, lo, mid, hi - 1);
      hide RowCandidate;
      hide RowMatches;
      if RowMatches(t, p, hi - 1) {
        ConcatAssoc(MatchesIn(t, p, lo, mid), MatchesIn(t, p, mid, hi - 1), [RowCandidate(t, p, hi - 1)]);
      }
    }
  }

  /** Each matching row once, as its own candidate. */
  ghost predicate RowsOnce(t: Table, p: Probe, cs: seq<Candidate>) {
    && (forall k | 0 <= k < |cs| :: cs[k].idx < |t.memories| && RowMatches(t, p, cs[k].idx) && cs[k] == RowCandidate(t, p, cs[k].idx))
    && (forall j, k | 0 <= j < k < |cs| :: cs[j].idx != cs[k].idx)
  }

  lemma {:induction false} MatchesInRows(t: Table, p: Probe, hi: nat)
    requires hi <= |t.memories|
    ensures var cs := MatchesIn(t, p, 0, hi);
      && RowsOnce(t, p, cs)
      && (forall k | 0 <= k < |cs| :: cs[k].idx < hi)
      && (forall i | 0 <= i < hi && RowMatches(t, p, i) :: RowCandidate(t, p, i) in cs)
  {
    if hi > 0 {
      MatchesInRows(t, p, hi - 1);
      assert RowCandidate(t, p, hi - 1).idx == hi - 1;
      hide Matches;
    }
  }

  lemma {:induction false} MatchesOfRows(t: Table, p: Probe, rows: seq<nat>)
    requires AnnIndex.NoDup(rows)
    ensures RowsOnce(t, p, MatchesOf(t, p, rows))
    ensures forall k | 0 <= k < |MatchesOf(t, p, rows)| :: MatchesOf(t, p, rows)[k].idx in rows
  {
    if rows != [] {
      MatchesOfRows(t, p, rows[..|rows| - 1]);
      hide Matches;
    }
  }

  lemma RowsOnceNoDup(t: Table, p: Probe, cs: seq<Candidate>)
    requires RowsOnce(t, p, cs)
    ensures AnnIndex.NoDup(cs)
  {
    hide RowCandidate;
    hide RowMatches;
  }

  /** Matching rows, each once, are some of all the matching rows. */
  lemma RowsOnceAmongAll(t: Table, p: Probe, cs: seq<Candidate>)
    requires RowsOnce(t, p, cs)
    ensures multiset(cs) <= multiset(AllMatches(t, p))
  {
    MatchesInRows(t, p, |t.memories|);
    RowsOnceNoDup(t, p, cs);
    var all := AllMatches(t, p);
    forall c ensures multiset(cs)[c] <= multiset(all)[c] {
      AnnIndex.NoDupCount(cs, c);
      if c in cs {
        var k :| 0 <= k < |cs| && cs[k] == c;
        assert RowCandidate(t, p, cs[k].idx) in all;
      }
    }
  }

  // ---------------------------------------------------------------------
  // The scan.
  // ---------------------------------------------------------------------

  method ScanRange(t: Table, p: Probe, begin: nat, end: nat) returns (local: seq<Candidate>)
    requires p.query.limit > 0 && end <= |t.memories|
    ensures KeepsTop(local, MatchesIn(t, p, begin, end), p.query.limit)
  {
    local := [];
    KeepsTopEmpty(p.query.limit);
    hide KeepsTop;
    hide RowCandidate;
    var i := begin;
    while i < end
      invariant begin <= i && (i <= end || i == begin)
      invariant KeepsTop(local, MatchesIn(t, p, begin, i), p.query.limit)
    {
      if RowMatches(t, p, i) {
        local := AddCandidate(local, RowCandidate(t, p, i), p.query.limit, MatchesIn(t, p, begin, i));
      }
      i := i + 1;
    }
  }

  method ScanRows(t: Table, p: Probe, rows: seq<nat>) returns (local: seq<Candidate>)
    requires p.query.limit > 0
    ensures KeepsTop(local, MatchesOf(t, p, rows), p.query.limit)
  {
    local := [];
    KeepsTopEmpty(p.query.limit);
    hide KeepsTop;
    hide RowCandidate;
    for k := 0 to |rows|
      invariant KeepsTop(local, MatchesOf(t, p, rows[..k]), p.query.limit)
    {
      var i := rows[k];
      assert rows[..k + 1][..k] == rows[..k];
      if i < |t.memories| && RowMatches(t, p, i) {
        local := AddCandidate(local, RowCandidate(t, p, i), p.query.limit, MatchesOf(t, p, rows[..k]));
      }
    }
    assert rows[..|rows|] == rows;
  }

  function ChunkSize(n: nat, threads: nat): nat
    requires threads > 0
  {
    (n + threads - 1) / threads
  }

  lemma ChunksCover(n: nat, threads: nat)
    requires threads > 0
    ensures threads * ChunkSize(n, threads) >= n
  {
    var m := n + threads - 1;
    assert m == threads * (m / threads) + m % threads;
  }

  function Bound(n: nat, chunk: nat, t: nat): nat {
    Min(n, t * chunk)
  }

  /**
    The scan split into chunks, one heap per thread, then merged.  The threads
    only read the table and each writes its own heap.
   */
  method ParallelScan(t: Table, p: Probe, threads: nat) returns (heap: seq<Candidate>)
    requires p.query.limit > 0 && threads > 0
    ensures KeepsTop(heap, AllMatches(t, p), p.query.limit)
  {
    KeepsTopEmpty(p.query.limit);
    hide KeepsTop;
    var n := |t.memories|;
    var chunk := ChunkSize(n, threads);
    var partials: seq<seq<Candidate>> := [];
    for w := 0 to threads
      invariant |partials| == w
      invariant forall v | 0 <= v < w :: KeepsTop(partials[v], MatchesIn(t, p, v * chunk, Bound(n, chunk, v + 1)), p.query.limit)
    {
      var begin := w * chunk;
      var end := Min(n, begin + chunk);
      assert (w + 1) * chunk == begin + chunk;
      var local := ScanRange(t, p, begin, end);
      partials := partials + [local];
    }
    heap := [];
    for w := 0 to threads
      invariant KeepsTop(heap, MatchesIn(t, p, 0, Bound(n, chunk, w)), p.query.limit)
    {
      ghost var seen := MatchesIn(t, p, 0, Bound(n, chunk, w));
      heap := AddAll(heap, partials[w], p.query.limit, seen);
      MergeChunk(heap, seen, partials[w], MatchesIn(t, p, w * chunk, Bound(n, chunk, w + 1)), p.query.limit);
      NextChunk(t, p, chunk, w);
    }
    ChunksCover(n, threads);
  }

  lemma NextChunk(t: Table, p: Probe, chunk: nat, w: nat)
    ensures var n := |t.memories|;
      MatchesIn(t, p, 0, Bound(n, chunk, w)) + MatchesIn(t, p, w * chunk, Bound(n, chunk, w + 1))
      == MatchesIn(t, p, 0, Bound(n, chunk, w + 1))
  {
    var n := |t.memories|;
    assert (w + 1) * chunk == w * chunk + chunk;
    if w * chunk <= n {
      MatchesInSplit(t, p, 0, w * chunk, Bound(n, chunk, w + 1));
    }
  }

  const PARALLEL_SCAN_MIN_ROWS: nat := 200000
  const PARALLEL_SCAN_ROWS_PER_THREAD: nat := 50000

  function ThreadCount(rows: nat, hardwareThreads: nat): (n: nat)
    ensures n > 0
  {
    if rows < PARALLEL_SCAN_MIN_ROWS then 1
    else
      Min(if hardwareThreads == 0 then 1 else hardwareThreads, rows / PARALLEL_SCAN_ROWS_PER_THREAD)
  }

  /**
    The exact scan, for every number of hardware threads: the keys returned are
    the first `limit` of all matching rows in rank order.
   */
  method Scan(t: Table, p: Probe, hardwareThreads: nat) returns (out: seq<Candidate>)
    requires p.query.limit > 0
    ensures IsTopOf(out, AllMatches(t, p), p.query.limit)
    ensures RowsOnce(t, p, out)
  {
    var heap := ParallelScan(t, p, ThreadCount(|t.memories|, hardwareThreads));
    out := RankSort(heap);
    SortedHeapIsTop(out, heap, AllMatches(t, p), p.query.limit);
    MatchesInRows(t, p, |t.memories|);
    DrawnRows(t, p, out, AllMatches(t, p));
  }

  /** The rows an index proposed, filtered and ranked. */
  method Rerank(t: Table, p: Probe, rows: seq<nat>) returns (out: seq<Candidate>)
    requires p.query.limit > 0 && AnnIndex.NoDup(rows)
    ensures IsTopOf(out, MatchesOf(t, p, rows), p.query.limit)
    ensures RowsOnce(t, p, out)
  {
    var local := ScanRows(t, p, rows);
    KeepsTopEmpty(p.query.limit);
    var heap := AddAll([], local, p.query.limit, []);
    assert [] + local == local;
    MergeChunk(heap, [], local, MatchesOf(t, p, rows), p.query.limit);
    assert [] + MatchesOf(t, p, rows) == MatchesOf(t, p, rows);
    out := RankSort(heap);
    SortedHeapIsTop(out, heap, MatchesOf(t, p, rows), p.query.limit);
    MatchesOfRows(t, p, rows);
    DrawnRows(t, p, out, MatchesOf(t, p, rows));
  }

  lemma DrawnRows(t: Table, p: Probe, out: seq<Candidate>, all: seq<Candidate>)
    requires RowsOnce(t, p, all) && multiset(out) <= multiset(all)
    ensures RowsOnce(t, p, out)
  {
    hide RowCandidate;
    hide RowMatches;
    forall k | 0 <= k < |out| ensures out[k] in all {
      assert out[k] in multiset(out);
      assert out[k] in multiset(all);
    }
    RowsOnceNoDup(t, p, all);
    forall j, k | 0 <= j < k < |out| ensures out[j].idx != out[k].idx {
      if out[j] == out[k] {
        AnnIndex.TwiceCounts(out, j, k);
        AnnIndex.NoDupCount(all, out[j]);
      } else {
        var a :| 0 <= a < |all| && all[a] == out[j];
        var b :| 0 <= b < |all| && all[b] == out[k];
      }
    }
  }

  /** What every search promises: as many matching rows as asked for or as there are, each once, in rank order. */
  ghost predicate Answers(t: Table, p: Probe, out: seq<Candidate>) {
    && RowsOnce(t, p, out)
    && Ranked(KeysOf(out))
    && |out| == Min(p.query.limit, |AllMatches(t, p)|)
  }

  lemma TopAnswers(t: Table, p: Probe, out: seq<Candidate>)
    requires IsTopOf(out, AllMatches(t, p), p.query.limit) && RowsOnce(t, p, out)
    ensures Answers(t, p, out)
  {
    hide RowsOnce;
    SortRanked(KeysOf(AllMatches(t, p)));
    assert |KeysOf(out)| == |out|;
  }

  /** A ranking of proposed rows that is long enough answers the query, whatever was proposed. */
  lemma LongEnoughAnswers(t: Table, p: Probe, rows: seq<nat>, out: seq<Candidate>)
    requires IsTopOf(out, MatchesOf(t, p, rows), p.query.limit) && RowsOnce(t, p, out)
    requires |out| >= Min(p.query.limit, |t.memories|)
    ensures Answers(t, p, out)
  {
    RowsOnceAmongAll(t, p, out);
    SubSize(out, AllMatches(t, p));
    MatchesInSize(t, p, |t.memories|);
    hide RowsOnce;
    hide MatchesOf;
    hide MatchesIn;
    SortRanked(KeysOf(MatchesOf(t, p, rows)));
    assert |KeysOf(out)| == |out|;
  }

  lemma SubSize<T>(a: seq<T>, b: seq<T>)
    requires multiset(a) <= multiset(b)
    ensures |a| <= |b|
  {
    assert multiset(b) == multiset(a) + (multiset(b) - multiset(a));
    assert |multiset(a)| <= |multiset(b)|;
  }

  lemma {:induction false} MatchesInSize(t: Table, p: Probe, hi: nat)
    requires hi <= |t.memories|
    ensures |MatchesIn(t, p, 0, hi)| <= hi
  {
    if hi > 0 {
      MatchesInSize(t, p, hi - 1);
    }
  }

  /** In an exact scan no matching row left out strictly beats a returned one. */
  lemma NothingBetterOmitted(t: Table, p: Probe, out: seq<Candidate>, i: nat, k: nat)
    requires IsTopOf(out, AllMatches(t, p), p.query.limit)
    requires i < |t.memories| && RowMatches(t, p, i) && k < |out|
    requires forall j | 0 <= j < |out| :: out[j].idx != i
    ensures !Beats(RowCandidate(t, p, i).key, out[k].key) && |out| == p.query.limit
  {
    var c := RowCandidate(t, p, i);
    MatchesInRows(t, p, |t.memories|);
    assert c in AllMatches(t, p);
    assert c !in out;
    assert multiset(out)[c] == 0;
    OmittedNeverBeats(out, AllMatches(t, p), p.query.limit, c);
    assert out[k] in out;
  }
}
