/**
  What the Agent Memory store's operations do to its rows, as values: the records
  written, the victim of an eviction, the outcome of an eviction pass, the rows a
  search touches, and the facts the store's invariants rest on.
 */
module StoreSpec {
  import Bytes
  import opened Vectors
  import opened Records
  import opened Ranking
  import opened StoreRows
  import opened UnitMatrix
  import opened Restore
  import opened AnnSync
  import opened MemorySearch
  import AnnIndex

  datatype AnnMode = Off | Auto | SparseOnly | HnswOnly | IvfOnly

  datatype AnnConfig = AnnConfig(mode: AnnMode, minRecords: nat, oversample: nat, index: AnnIndex.Config)

  datatype IdConfig = IdConfig(ownerScoped: bool, nodeId: nat, ringEpoch: nat)

  datatype BuildSnapshot = BuildSnapshot(kind: AnnIndex.Kind, config: AnnIndex.Config, generation: nat, entries: seq<BuildEntry>)

  /** A snapshot handed out, with the rows and the tallies at that moment. */
  datatype Issue = Issue(snapshot: BuildSnapshot, rows: seq<Memory>, dim: nat, removals: nat, increments: nat, publishes: nat)

  datatype StoreError =
    | NonFiniteEmbedding | DimensionMismatch(expected: nat, got: nat) | NegativeTokenCount
    | WrongTenant | PromptRequired | ResponseRequired

  datatype StoreResult = Stored(id: string, evictions: seq<Event>) | Refused(error: StoreError)

  datatype SearchHit = SearchHit(record: Memory, score: real, similarity: real)

  function KindOf(mode: AnnMode): AnnIndex.Kind {
    match mode
    case HnswOnly => AnnIndex.Hnsw
    case IvfOnly => AnnIndex.Ivf
    case _ => AnnIndex.SparseProjection
  }

  /** Swap-with-last removal as the index should see it. */
  lemma ExpectedAfterRemoval(num: Numerics, ms: seq<Memory>, row: nat, key: string, r: nat)
    requires row < |ms|
    ensures var last := |ms| - 1;
      Expected(num, SwapRemove(ms, row), key, r) ==
        if r == last then None
        else if r == row then Expected(num, ms, key, last)
        else Expected(num, ms, key, r)
  {
    hide PartitionKey;
  }

  lemma SwapRemoveEmbeddings(ms: seq<Memory>, row: nat, dim: nat)
    requires row < |ms| && DimsOk(dim, Embeddings(ms))
    ensures SwapRemove(Embeddings(ms), row) == Embeddings(SwapRemove(ms, row))
    ensures DimsOk(dim, Embeddings(SwapRemove(ms, row)))
  {
  }

  lemma NoEmbeddingNotExpected(num: Numerics, ms: seq<Memory>, row: nat)
    requires row < |ms| && ms[row].embedding == []
    ensures forall key: string :: Expected(num, ms, key, row) == None
  {
    hide PartitionKey;
  }

  lemma ExpectedOwnKey(num: Numerics, ms: seq<Memory>, row: nat, key: string)
    requires row < |ms| && key != PartitionKey(ms[row])
    ensures Expected(num, ms, key, row) == None
  {
    hide PartitionKey;
  }

  predicate Evictable(protectPinned: bool, scope: Memory -> bool, m: Memory) {
    scope(m) && !(protectPinned && m.pinned)
  }

  /** Row i is evicted before row j. */
  predicate GoesBefore(ranker: Ranker, now: int, ms: seq<Memory>, i: nat, j: nat)
    requires i < |ms| && j < |ms|
  {
    var a, b := ranker.retention(ms[i], now), ranker.retention(ms[j], now);
    a < b || (a == b && (ms[i].createdAt < ms[j].createdAt || (ms[i].createdAt == ms[j].createdAt && i < j)))
  }

  /** The first row to go: least retention score, then oldest, then first. */
  ghost predicate IsVictim(ranker: Ranker, protectPinned: bool, scope: Memory -> bool, now: int, ms: seq<Memory>, row: nat) {
    && row < |ms| && Evictable(protectPinned, scope, ms[row])
    && forall i | 0 <= i < |ms| && Evictable(protectPinned, scope, ms[i]) :: i == row || GoesBefore(ranker, now, ms, row, i)
  }

  predicate CacheGoesBefore(ranker: Ranker, now: int, cs: seq<Cache>, i: nat, j: nat)
    requires i < |cs| && j < |cs|
  {
    var a, b := ranker.cacheRetention(cs[i], now), ranker.cacheRetention(cs[j], now);
    a < b || (a == b && (cs[i].createdAt < cs[j].createdAt || (cs[i].createdAt == cs[j].createdAt && i < j)))
  }

  ghost predicate IsCacheVictim(ranker: Ranker, scope: Cache -> bool, now: int, cs: seq<Cache>, row: nat) {
    && row < |cs| && scope(cs[row])
    && forall i | 0 <= i < |cs| && scope(cs[i]) :: i == row || CacheGoesBefore(ranker, now, cs, row, i)
  }

  /** What an eviction can change, at one moment. */
  datatype Moment = Moment(
    memories: seq<Memory>, caches: seq<Cache>, evictedMemories: nat, evictedCaches: nat,
    removals: nat, generation: nat, dirty: bool,
    index: Option<(nat, map<string, AnnIndex.Partition>)>, exact: bool)

  /** The rows before are the rows after and those in the events; the tallies say so; without a memory event the index is untouched. */
  ghost predicate EvictionTo(a: Moment, b: Moment, events: seq<Event>) {
    && Conserved(a.memories, a.caches, b.memories, b.caches, events)
    && b.evictedMemories == a.evictedMemories + |MemoriesIn(events)|
    && b.evictedCaches == a.evictedCaches + |CachesIn(events)|
    && b.removals == a.removals + |MemoriesIn(events)|
    && b.generation >= a.generation && (a.dirty ==> b.dirty) && (a.dirty || !b.dirty ==> b.generation == a.generation)
    && (b.exact <==> a.exact || MemoriesIn(events) != [])
    && (MemoriesIn(events) == [] ==>
          b.memories == a.memories && b.generation == a.generation && b.dirty == a.dirty && b.index == a.index)
    && (CachesIn(events) == [] ==> b.caches == a.caches)
  }

  lemma OneRowEvicted(a: Moment, b: Moment, row: nat)
    requires row < |a.memories| && b.memories == SwapRemove(a.memories, row) && b.caches == a.caches
    requires b.evictedMemories == a.evictedMemories + 1 && b.evictedCaches == a.evictedCaches
    requires b.removals == a.removals + 1 && b.generation >= a.generation && (a.dirty ==> b.dirty) && b.exact
    requires a.dirty || !b.dirty ==> b.generation == a.generation
    ensures EvictionTo(a, b, [MemoryEvent(a.memories[row])])
  {
    OneMemoryEvent(a.memories[row]);
    SwapRemoveContents(a.memories, row);
    InOrderSelf(a.caches);
    hide InOrder;
  }

  lemma OneCacheEvicted(a: Moment, b: Moment, row: nat)
    requires row < |a.caches| && b == a.(caches := RemoveAt(a.caches, row), evictedCaches := a.evictedCaches + 1)
    ensures EvictionTo(a, b, [CacheEvent(a.caches[row])])
  {
    hide InOrder;
    OneCacheEvent(a.caches[row]);
    InOrderWithout(a.caches, row);
  }

  lemma RemoveAtCount<T>(p: T -> bool, s: seq<T>, row: nat)
    requires row < |s|
    ensures Count(p, s) == Count(p, RemoveAt(s, row)) + if p(s[row]) then 1 else 0
  {
    CountWithout(p, s, row);
  }

  lemma RemoveAtDims(cs: seq<Cache>, row: nat, dim: nat)
    requires row < |cs| && CacheDims(dim, cs)
    ensures CacheDims(dim, RemoveAt(cs, row))
  {
  }

  lemma NothingEvicted(a: Moment)
    ensures EvictionTo(a, a, [])
    ensures MemoriesIn([]) == [] && CachesIn([]) == []
  {
    InOrderSelf(a.caches);
    hide InOrder;
  }

  lemma OneMemoryEvent(m: Memory)
    ensures MemoriesIn([MemoryEvent(m)]) == [m] && CachesIn([MemoryEvent(m)]) == []
  {
    GatherAppend(MemoryPart, [], MemoryEvent(m));
    GatherAppend(CachePart, [], MemoryEvent(m));
    assert [] + [MemoryEvent(m)] == [MemoryEvent(m)];
  }

  lemma OneCacheEvent(c: Cache)
    ensures MemoriesIn([CacheEvent(c)]) == [] && CachesIn([CacheEvent(c)]) == [c]
  {
    GatherAppend(MemoryPart, [], CacheEvent(c));
    GatherAppend(CachePart, [], CacheEvent(c));
    assert [] + [CacheEvent(c)] == [CacheEvent(c)];
  }

  lemma SwapRemoveCount<T>(p: T -> bool, s: seq<T>, row: nat)
    requires row < |s|
    ensures Count(p, s) == Count(p, SwapRemove(s, row)) + if p(s[row]) then 1 else 0
  {
    SwapRemoveContents(s, row);
    CountSame(p, s, SwapRemove(s, row) + [s[row]]);
    CountConcat(p, SwapRemove(s, row), [s[row]]);
    CountOne(p, s[row]);
  }

  lemma SwapRemoveSize<T>(s: seq<T>, row: nat)
    requires row < |s|
    ensures |SwapRemove(s, row)| == |s| - 1
  {
  }

  /**
    Enforcing a cap: while the count was above it, each event took the row that
    was first to go of the rows then left.
   */
  ghost predicate CapRun(ranker: Ranker, protectPinned: bool, scope: Memory -> bool, cap: nat, now: int, ms: seq<Memory>, events: seq<Event>, ms': seq<Memory>)
    decreases |events|
  {
    if events == [] then ms' == ms
    else
      var n := |events| - 1;
      exists mid, row ::
        && CapRun(ranker, protectPinned, scope, cap, now, ms, events[..n], mid)
        && Evicts(ranker, protectPinned, scope, cap, now, mid, row, events[n], ms')
  }

  ghost predicate Evicts(ranker: Ranker, protectPinned: bool, scope: Memory -> bool, cap: nat, now: int, ms: seq<Memory>, row: nat, e: Event, ms': seq<Memory>) {
    && Count(scope, ms) > cap > 0 && IsVictim(ranker, protectPinned, scope, now, ms, row)
    && e == MemoryEvent(ms[row]) && ms' == SwapRemove(ms, row)
  }

  lemma CapRunNext(ranker: Ranker, protectPinned: bool, scope: Memory -> bool, cap: nat, now: int,
                   ms: seq<Memory>, events: seq<Event>, mid: seq<Memory>, row: nat, e: Event, ms': seq<Memory>)
    requires CapRun(ranker, protectPinned, scope, cap, now, ms, events, mid)
    requires Evicts(ranker, protectPinned, scope, cap, now, mid, row, e, ms')
    ensures CapRun(ranker, protectPinned, scope, cap, now, ms, events + [e], ms')
  {
    hide Evicts;
    var more := events + [e];
    assert more[..|more| - 1] == events && more[|more| - 1] == e;
    assert CapRun(ranker, protectPinned, scope, cap, now, ms, more[..|more| - 1], mid);
  }

  lemma EvictsOne(ranker: Ranker, protectPinned: bool, scope: Memory -> bool, cap: nat, now: int, ms: seq<Memory>, row: nat, e: Event, ms': seq<Memory>)
    requires Evicts(ranker, protectPinned, scope, cap, now, ms, row, e, ms')
    ensures Count(scope, ms') + 1 == Count(scope, ms) > cap > 0 && e.MemoryEvicted? && Evictable(protectPinned, scope, e.memory)
  {
    hide Count;
    SwapRemoveCount(scope, ms, row);
  }

  /** No more is evicted than the cap asks, and nothing protected or out of scope. */
  lemma {:induction false} CapRunIsFair(ranker: Ranker, protectPinned: bool, scope: Memory -> bool, cap: nat, now: int,
                                        ms: seq<Memory>, events: seq<Event>, ms': seq<Memory>)
    requires CapRun(ranker, protectPinned, scope, cap, now, ms, events, ms')
    ensures Count(scope, ms') + |events| == Count(scope, ms)
    ensures events != [] ==> Count(scope, ms') >= cap > 0
    ensures forall e | e in events :: e.MemoryEvicted? && Evictable(protectPinned, scope, e.memory)
    decreases |events|
  {
    hide Evicts;
    hide Count;
    if events != [] {
      var n := |events| - 1;
      var mid, row :| CapRun(ranker, protectPinned, scope, cap, now, ms, events[..n], mid)
        && Evicts(ranker, protectPinned, scope, cap, now, mid, row, events[n], ms');
      CapRunIsFair(ranker, protectPinned, scope, cap, now, ms, events[..n], mid);
      EvictsOne(ranker, protectPinned, scope, cap, now, mid, row, events[n], ms');
      assert events == events[..n] + [events[n]];
    }
  }

  ghost predicate CacheCapRun(ranker: Ranker, scope: Cache -> bool, cap: nat, now: int, cs: seq<Cache>, events: seq<Event>, cs': seq<Cache>)
    decreases |events|
  {
    if events == [] then cs' == cs
    else
      var n := |events| - 1;
      exists mid, row ::
        && CacheCapRun(ranker, scope, cap, now, cs, events[..n], mid)
        && CacheEvicts(ranker, scope, cap, now, mid, row, events[n], cs')
  }

  ghost predicate CacheEvicts(ranker: Ranker, scope: Cache -> bool, cap: nat, now: int, cs: seq<Cache>, row: nat, e: Event, cs': seq<Cache>) {
    && Count(scope, cs) > cap > 0 && IsCacheVictim(ranker, scope, now, cs, row)
    && e == CacheEvent(cs[row]) && cs' == RemoveAt(cs, row)
  }

  lemma NoCacheRun(ranker: Ranker, scope: Cache -> bool, cap: nat, now: int, cs: seq<Cache>)
    ensures CacheCapRun(ranker, scope, cap, now, cs, [], cs)
  {
  }

  lemma CacheVictimGone(ranker: Ranker, scope: Cache -> bool, cap: nat, now: int, cs: seq<Cache>, row: nat, e: Event, cs': seq<Cache>)
    requires row < |cs| && e == CacheEvent(cs[row]) && cs' == RemoveAt(cs, row)
    requires IsCacheVictim(ranker, scope, now, cs, row) && Count(scope, cs) > cap > 0
    ensures CacheEvicts(ranker, scope, cap, now, cs, row, e, cs')
  {
    hide IsCacheVictim;
    hide Count;
  }

  lemma CacheCapMet(cap: nat, scope: Cache -> bool, cs: seq<Cache>)
    requires cap == 0 || Count(scope, cs) <= cap
    ensures CacheCapHolds(cap, scope, cs)
  {
  }

  lemma CacheCapRunNext(ranker: Ranker, scope: Cache -> bool, cap: nat, now: int,
                        cs: seq<Cache>, events: seq<Event>, mid: seq<Cache>, row: nat, e: Event, cs': seq<Cache>)
    requires CacheCapRun(ranker, scope, cap, now, cs, events, mid)
    requires CacheEvicts(ranker, scope, cap, now, mid, row, e, cs')
    ensures CacheCapRun(ranker, scope, cap, now, cs, events + [e], cs')
  {
    hide CacheEvicts;
    var more := events + [e];
    assert more[..|more| - 1] == events && more[|more| - 1] == e;
    assert CacheCapRun(ranker, scope, cap, now, cs, more[..|more| - 1], mid);
  }

  lemma CacheEvictsOne(ranker: Ranker, scope: Cache -> bool, cap: nat, now: int, cs: seq<Cache>, row: nat, e: Event, cs': seq<Cache>)
    requires CacheEvicts(ranker, scope, cap, now, cs, row, e, cs')
    ensures Count(scope, cs') + 1 == Count(scope, cs) > cap > 0 && e.CacheEvicted? && scope(e.cache)
  {
    hide Count;
    RemoveAtCount(scope, cs, row);
  }

  lemma {:induction false} CacheCapRunIsFair(ranker: Ranker, scope: Cache -> bool, cap: nat, now: int,
                                             cs: seq<Cache>, events: seq<Event>, cs': seq<Cache>)
    requires CacheCapRun(ranker, scope, cap, now, cs, events, cs')
    ensures Count(scope, cs') + |events| == Count(scope, cs)
    ensures events != [] ==> Count(scope, cs') >= cap > 0
    ensures forall e | e in events :: e.CacheEvicted? && scope(e.cache)
    decreases |events|
  {
    hide CacheEvicts;
    hide Count;
    if events != [] {
      var n := |events| - 1;
      var mid, row :| CacheCapRun(ranker, scope, cap, now, cs, events[..n], mid)
        && CacheEvicts(ranker, scope, cap, now, mid, row, events[n], cs');
      CacheCapRunIsFair(ranker, scope, cap, now, cs, events[..n], mid);
      CacheEvictsOne(ranker, scope, cap, now, mid, row, events[n], cs');
      assert events == events[..n] + [events[n]];
    }
  }

  /** A cap that is met evicts nothing. */
  lemma MetCapEvictsNothing(ranker: Ranker, protectPinned: bool, scope: Memory -> bool, cap: nat, now: int,
                            ms: seq<Memory>, events: seq<Event>, ms': seq<Memory>)
    requires CapRun(ranker, protectPinned, scope, cap, now, ms, events, ms')
    requires MemoryCapHolds(cap, scope, protectPinned, ms)
    ensures events == []
  {
    if events != [] {
      CapRunIsFair(ranker, protectPinned, scope, cap, now, ms, events, ms');
      FirstVictim(ranker, protectPinned, scope, cap, now, ms, events, ms');
    }
  }

  lemma {:induction false} FirstVictim(ranker: Ranker, protectPinned: bool, scope: Memory -> bool, cap: nat, now: int,
                                       ms: seq<Memory>, events: seq<Event>, ms': seq<Memory>)
    requires CapRun(ranker, protectPinned, scope, cap, now, ms, events, ms') && events != []
    ensures exists row :: IsVictim(ranker, protectPinned, scope, now, ms, row)
    decreases |events|
  {
    var n := |events| - 1;
    var mid, row :| CapRun(ranker, protectPinned, scope, cap, now, ms, events[..n], mid)
      && Evicts(ranker, protectPinned, scope, cap, now, mid, row, events[n], ms');
    if n > 0 {
      FirstVictim(ranker, protectPinned, scope, cap, now, ms, events[..n], mid);
    }
  }

  /** Two evictions in a row are one. */
  lemma EvictionCompose(a: Moment, b: Moment, c: Moment, e1: seq<Event>, e2: seq<Event>)
    requires EvictionTo(a, b, e1) && EvictionTo(b, c, e2)
    ensures EvictionTo(a, c, e1 + e2)
  {
    hide InOrder;
    hide Gather;
    hide Genuine;
    InOrderTwice(c.caches, b.caches, a.caches);
    GatherConcat(MemoryPart, e1, e2);
    GatherConcat(CachePart, e1, e2);
    GenuineConcat(e1, e2);
  }

  lemma GenuineOne(c: Cache)
    ensures Genuine([CacheEvent(c)])
  {
  }

  lemma GenuineConcat(e1: seq<Event>, e2: seq<Event>)
    requires Genuine(e1) && Genuine(e2)
    ensures Genuine(e1 + e2)
  {
  }

  /** Entries split by expiry, with an event for each expired one. */
  ghost predicate SplitBy(cs: seq<Cache>, now: int, kept: seq<Cache>, events: seq<Event>) {
    && Genuine(events) && MemoriesIn(events) == []
    && multiset(cs) == multiset(kept) + multiset(CachesIn(events)) && InOrder(kept, cs)
    && |cs| == |kept| + |CachesIn(events)|
    && (forall c | c in kept :: !Expired(c.expiresAt, now))
    && (CachesIn(events) == [] ==> kept == cs)
  }

  lemma SplitNone(now: int)
    ensures SplitBy([], now, [], [])
  {
  }

  lemma SplitMore(cs: seq<Cache>, c: Cache, now: int, kept: seq<Cache>, events: seq<Event>)
    requires SplitBy(cs, now, kept, events)
    ensures Expired(c.expiresAt, now) ==> SplitBy(cs + [c], now, kept, events + [CacheEvent(c)])
    ensures !Expired(c.expiresAt, now) ==> SplitBy(cs + [c], now, kept + [c], events)
  {
    hide InOrder;
    hide Gather;
    hide Genuine;
    hide Expired;
    InOrderMore(kept, cs, c);
    if Expired(c.expiresAt, now) {
      SplitGone(cs, c, now, kept, events);
    } else {
      assert multiset(cs + [c]) == multiset(cs) + multiset{c} && multiset(kept + [c]) == multiset(kept) + multiset{c};
    }
  }

  lemma SplitGone(cs: seq<Cache>, c: Cache, now: int, kept: seq<Cache>, events: seq<Event>)
    requires SplitBy(cs, now, kept, events)
    ensures SplitBy(cs + [c], now, kept, events + [CacheEvent(c)])
  {
    hide InOrder;
    hide Gather;
    hide Expired;
    hide Genuine;
    InOrderMore(kept, cs, c);
    GatherAppend(MemoryPart, events, CacheEvent(c));
    GatherAppend(CachePart, events, CacheEvent(c));
    GenuineOne(c);
    GenuineConcat(events, [CacheEvent(c)]);
    assert multiset(cs + [c]) == multiset(cs) + multiset{c};
  }

  method SplitExpired(cs: seq<Cache>, now: int) returns (kept: seq<Cache>, events: seq<Event>)
    ensures SplitBy(cs, now, kept, events) && OnlyExpired(events, now)
  {
    kept, events := [], [];
    SplitNone(now);
    hide SplitBy;
    hide Gather;
    assert cs[..0] == [];
    for i := 0 to |cs|
      invariant SplitBy(cs[..i], now, kept, events) && OnlyExpired(events, now)
    {
      SplitMore(cs[..i], cs[i], now, kept, events);
      assert cs[..i + 1] == cs[..i] + [cs[i]];
      if Expired(cs[i].expiresAt, now) {
        events := events + [CacheEvent(cs[i])];
      } else {
        kept := kept + [cs[i]];
      }
    }
    assert cs[..|cs|] == cs;
  }

  lemma CachesExpired(a: Moment, b: Moment, now: int, events: seq<Event>)
    requires SplitBy(a.caches, now, b.caches, events)
    requires b == a.(caches := b.caches, evictedCaches := a.evictedCaches + |a.caches| - |b.caches|)
    ensures EvictionTo(a, b, events)
  {
  }

  lemma KeptDims(cs: seq<Cache>, kept: seq<Cache>, events: seq<Event>, dim: nat, now: int)
    requires SplitBy(cs, now, kept, events) && CacheDims(dim, cs)
    ensures CacheDims(dim, kept) && |kept| <= |cs| && (|kept| == |cs| ==> kept == cs)
    ensures CachesIn(events) == [] ==> kept == cs
    ensures forall c | c in kept :: !Expired(c.expiresAt, now)
  {
    forall c | c in kept ensures c in cs {
      assert c in multiset(cs);
    }
  }

  lemma NoneExpiring<T>(p: T -> bool, s: seq<T>)
    requires Count(p, s) == 0
    ensures forall x | x in s :: !p(x)
  {
    CountPositive(p, s);
  }

  lemma NoMemoryEventNoChange(a: Moment, b: Moment, events: seq<Event>)
    requires EvictionTo(a, b, events)
    ensures events == [] ==> MemoriesIn(events) == [] && CachesIn(events) == [] && b.memories == a.memories
    ensures MemoriesIn(events) == [] ==> b.memories == a.memories
  {
  }

  lemma StillNoneExpired(a: Moment, b: Moment, events: seq<Event>, now: int)
    requires EvictionTo(a, b, events)
    ensures (forall m | m in a.memories :: !Expired(m.expiresAt, now)) ==> forall m | m in b.memories :: !Expired(m.expiresAt, now)
    ensures (forall c | c in a.caches :: !Expired(c.expiresAt, now)) ==> forall c | c in b.caches :: !Expired(c.expiresAt, now)
  {
    FewerRows(a, b, events);
    forall m | m in b.memories ensures m in a.memories {
      assert m in multiset(b.memories);
      assert m in multiset(a.memories);
    }
    forall c | c in b.caches ensures c in a.caches {
      assert c in multiset(b.caches);
      assert c in multiset(a.caches);
    }
  }

  /** Nothing for an eviction pass to do: every cap holds and, if expiry runs on writes, nothing has expired. */
  ghost predicate AtRest(cfg: EvictionConfig, ms: seq<Memory>, cs: seq<Cache>, now: int) {
    && CapsHold(cfg, ms, cs)
    && (cfg.evictExpiredOnWrite ==> NoneExpired(ms, cs, now))
  }

  ghost predicate NoneExpired(ms: seq<Memory>, cs: seq<Cache>, now: int) {
    (forall m | m in ms :: !Expired(m.expiresAt, now)) && (forall c | c in cs :: !Expired(c.expiresAt, now))
  }

  /** Only what has expired. */
  ghost predicate OnlyExpired(events: seq<Event>, now: int) {
    forall e | e in events :: Expired(if e.MemoryEvicted? then e.memory.expiresAt else e.cache.expiresAt, now)
  }

  /** An event carries a row of before the eviction. */
  lemma EventIsOfRow(a: Moment, b: Moment, events: seq<Event>, e: Event)
    requires EvictionTo(a, b, events) && e in events
    ensures if e.MemoryEvicted? then e.memory in a.memories else e.cache in a.caches
  {
    hide Gather;
    hide Genuine;
    hide InOrder;
    EventIsGone(events, e);
    if e.MemoryEvicted? {
      assert e.memory in multiset(a.memories);
    } else {
      assert e.cache in multiset(a.caches);
    }
  }

  lemma NothingExpiredNothingEvicted(a: Moment, b: Moment, events: seq<Event>, now: int)
    requires EvictionTo(a, b, events) && OnlyExpired(events, now) && NoneExpired(a.memories, a.caches, now)
    ensures events == []
  {
    if events != [] {
      EventIsOfRow(a, b, events, events[0]);
    }
  }

  /** An eviction without events changes nothing. */
  lemma NoEventsNoChange(a: Moment, b: Moment)
    requires EvictionTo(a, b, [])
    ensures b.memories == a.memories && b.caches == a.caches
  {
  }

  ghost predicate QuotasHold(quotas: seq<TenantQuota>, protectPinned: bool, ms: seq<Memory>, cs: seq<Cache>) {
    forall q | q in quotas ::
      MemoryCapHolds(q.maxMemories, MemoryInScope(q), protectPinned, ms) && CacheCapHolds(q.maxCaches, CacheInScope(q), cs)
  }

  lemma FewerRows(a: Moment, b: Moment, events: seq<Event>)
    requires EvictionTo(a, b, events)
    ensures multiset(b.memories) <= multiset(a.memories) && multiset(b.caches) <= multiset(a.caches)
  {
  }

  /** A later eviction never breaks an earlier quota. */
  lemma QuotasKept(quotas: seq<TenantQuota>, protectPinned: bool, a: Moment, b: Moment, events: seq<Event>)
    requires EvictionTo(a, b, events) && QuotasHold(quotas, protectPinned, a.memories, a.caches)
    ensures QuotasHold(quotas, protectPinned, b.memories, b.caches)
  {
    FewerRows(a, b, events);
    hide EvictionTo;
    hide MemoryCapHolds;
    hide CacheCapHolds;
    forall q | q in quotas
      ensures MemoryCapHolds(q.maxMemories, MemoryInScope(q), protectPinned, b.memories) && CacheCapHolds(q.maxCaches, CacheInScope(q), b.caches)
    {
      MemoryCapKept(q.maxMemories, MemoryInScope(q), protectPinned, a.memories, b.memories);
      CacheCapKept(q.maxCaches, CacheInScope(q), a.caches, b.caches);
    }
  }

  lemma CapsHoldParts(cfg: EvictionConfig, ms: seq<Memory>, cs: seq<Cache>)
    ensures CapsHold(cfg, ms, cs) <==>
      && QuotasHold(cfg.quotas, cfg.protectPinned, ms, cs)
      && MemoryCapHolds(cfg.maxMemories, Everything(), cfg.protectPinned, ms) && CacheCapHolds(cfg.maxCaches, Everything(), cs)
  {
    hide MemoryCapHolds;
    hide CacheCapHolds;
  }

  lemma QuotaHolds(quotas: seq<TenantQuota>, i: nat, protectPinned: bool, ms: seq<Memory>, cs: seq<Cache>)
    requires i < |quotas| && QuotasHold(quotas, protectPinned, ms, cs)
    ensures MemoryCapHolds(quotas[i].maxMemories, MemoryInScope(quotas[i]), protectPinned, ms)
    ensures CacheCapHolds(quotas[i].maxCaches, CacheInScope(quotas[i]), cs)
  {
    hide MemoryCapHolds;
    hide CacheCapHolds;
    assert quotas[i] in quotas;
  }

  lemma QuotaAdded(quotas: seq<TenantQuota>, i: nat, protectPinned: bool, a: Moment, b: Moment, events: seq<Event>)
    requires i < |quotas| && QuotasHold(quotas[..i], protectPinned, a.memories, a.caches)
    requires EvictionTo(a, b, events)
    requires MemoryCapHolds(quotas[i].maxMemories, MemoryInScope(quotas[i]), protectPinned, b.memories)
    requires CacheCapHolds(quotas[i].maxCaches, CacheInScope(quotas[i]), b.caches)
    ensures QuotasHold(quotas[..i + 1], protectPinned, b.memories, b.caches)
  {
    hide EvictionTo;
    hide MemoryCapHolds;
    hide CacheCapHolds;
    QuotasKept(quotas[..i], protectPinned, a, b, events);
    assert quotas[..i + 1] == quotas[..i] + [quotas[i]];
  }

  /** Until the dimension is known no row has an embedding, so a zeroed matrix of any width is exact. */
  lemma LateDimension(num: Numerics, ms: seq<Memory>, cs: seq<Cache>, dim: nat)
    requires DimsOk(0, Embeddings(ms)) && CacheDims(0, cs)
    ensures DimsOk(dim, Embeddings(ms)) && CacheDims(dim, cs)
    ensures Exact(num, dim, Embeddings(ms), Zeros(|ms| * dim), seq(|ms|, _ => false))
  {
    NoDimension(num, Embeddings(ms), dim);
  }

  lemma AppendedEmbeddings(ms: seq<Memory>, m: Memory, dim: nat)
    requires DimsOk(dim, Embeddings(ms)) && (m.embedding == [] || |m.embedding| == dim)
    ensures Embeddings(ms + [m]) == Embeddings(ms) + [m.embedding] && DimsOk(dim, Embeddings(ms + [m]))
  {
  }

  lemma UpdatedEmbeddings(ms: seq<Memory>, row: nat, m: Memory, dim: nat)
    requires row < |ms| && DimsOk(dim, Embeddings(ms)) && (m.embedding == [] || |m.embedding| == dim)
    ensures Embeddings(ms[row := m]) == Embeddings(ms)[row := m.embedding] && DimsOk(dim, Embeddings(ms[row := m]))
  {
  }

  /** Same tenant, namespace and embedding: nothing the index depends on. */
  predicate SameCandidate(a: Memory, b: Memory) {
    a.tenantId == b.tenantId && a.namespaceId == b.namespaceId && a.embedding == b.embedding
  }

  lemma SameCandidateRows(num: Numerics, ms: seq<Memory>, row: nat, m: Memory)
    requires row < |ms| && SameCandidate(ms[row], m)
    ensures forall key: string, r: nat :: Expected(num, ms[row := m], key, r) == Expected(num, ms, key, r)
    ensures BuildEntries(ms[row := m]) == BuildEntries(ms)
  {
    SameCandidateEntries(ms, row, m);
  }

  lemma {:induction false} SameCandidateEntries(ms: seq<Memory>, row: nat, m: Memory)
    requires row < |ms| && SameCandidate(ms[row], m)
    ensures BuildEntries(ms[row := m]) == BuildEntries(ms)
  {
    hide PartitionKey;
    var n := |ms| - 1;
    if row < n {
      SameCandidateEntries(ms[..n], row, m);
      assert ms[row := m][..n] == ms[..n][row := m];
    } else {
      assert ms[row := m][..n] == ms[..n];
      SameCandidateKey(ms[row], m);
    }
  }

  lemma SameCandidateKey(a: Memory, b: Memory)
    requires SameCandidate(a, b)
    ensures PartitionKey(a) == PartitionKey(b)
  {
  }

  /** A pass that leaves as many rows as it found removed none. */
  lemma SameSizeSameRows(a: Moment, b: Moment, events: seq<Event>)
    requires EvictionTo(a, b, events)
    ensures a.dirty || !b.dirty ==> b.generation == a.generation
    ensures |b.memories| + |MemoriesIn(events)| == |a.memories|
    ensures |b.memories| == |a.memories| ==>
      b.memories == a.memories && b.generation == a.generation && b.dirty == a.dirty && b.index == a.index && b.removals == a.removals
  {
    SameSize(a.memories, b.memories + MemoriesIn(events));
  }

  /** mem_N, or mem_NODE_EPOCH_N when ids are scoped to their owner. */
  function AutoId(prefix: string, cfg: IdConfig, counter: nat): string {
    if cfg.ownerScoped then prefix + "_" + Decimal(cfg.nodeId) + "_" + Decimal(cfg.ringEpoch) + "_" + Decimal(counter)
    else prefix + "_" + Decimal(counter)
  }

  /** A record with its id and the defaults filled in. */
  function Completed(record: Memory, id: string, clock: int): (m: Memory)
    ensures m.memoryId == id && m.embedding == record.embedding && m.tenantId == record.tenantId
  {
    var created := if record.createdAt == 0 then clock else record.createdAt;
    record.(memoryId := id, namespaceId := OrDefault(record.namespaceId), createdAt := created,
            lastAccessed := if record.lastAccessed == 0 then created else record.lastAccessed,
            tokenCount := if record.tokenCount == 0 then (|record.content| + 3) / 4 else record.tokenCount)
  }

  /** The rows with a record written in place, or appended if its id is new. */
  function Written(ms: seq<Memory>, ix: map<string, nat>, m: Memory): seq<Memory> {
    if m.memoryId in ix && ix[m.memoryId] < |ms| then ms[ix[m.memoryId] := m] else ms + [m]
  }

  /** An empty index of the kind asked for; the graph backend is not built in. */
  method NewIndex(num: Numerics, kind: AnnIndex.Kind, config: AnnIndex.Config) returns (index: AnnIndex.Index?)
    ensures index == null <==> kind == AnnIndex.Hnsw
    ensures index != null ==> fresh(index) && index.Valid() && index.num == num
  {
    index := null;
    if kind != AnnIndex.Hnsw {
      index := new AnnIndex.Index(num, kind, config);
    }
  }

  /** Quotas that name a tenant and limit something. */
  function EffectiveQuotas(quotas: seq<TenantQuota>): (r: seq<TenantQuota>)
    ensures forall q :: q in r <==> q in quotas && q.tenantId != "" && !(q.maxMemories == 0 && q.maxCaches == 0)
  {
    if quotas == [] then []
    else
      var q, rest := quotas[|quotas| - 1], EffectiveQuotas(quotas[..|quotas| - 1]);
      assert quotas == quotas[..|quotas| - 1] + [q];
      if q.tenantId == "" || (q.maxMemories == 0 && q.maxCaches == 0) then rest else rest + [q]
  }

  /** A cache entry with its id and the defaults filled in. */
  function CacheCompleted(entry: Cache, id: string, clock: int): (c: Cache)
    ensures c.embedding == entry.embedding
  {
    var created := if entry.createdAt == 0 then clock else entry.createdAt;
    entry.(cacheId := id, namespaceId := OrDefault(entry.namespaceId), createdAt := created,
           lastAccessed := if entry.lastAccessed == 0 then created else entry.lastAccessed)
  }

  function CacheWritten(cs: seq<Cache>, ix: map<string, nat>, c: Cache): seq<Cache> {
    if CacheKey(c) in ix && ix[CacheKey(c)] < |cs| then cs[ix[CacheKey(c)] := c] else cs + [c]
  }

  lemma CacheRowWritten(cs: seq<Cache>, ix: map<string, nat>, c: Cache, dim: nat)
    requires CacheIndexOk(cs, ix) && CacheDims(dim, cs) && (c.embedding == [] || |c.embedding| == dim)
    ensures CacheDims(dim, CacheWritten(cs, ix, c))
    ensures CacheKey(c) in ix ==> ix[CacheKey(c)] < |cs| && CacheIndexOk(cs[ix[CacheKey(c)] := c], ix)
    ensures CacheKey(c) !in ix ==> CacheIndexOk(cs + [c], ix[CacheKey(c) := |cs|])
  {
    hide CacheKey;
  }

  predicate CacheOwnedByOther(cs: seq<Cache>, ix: map<string, nat>, c: Cache) {
    var key := CacheKey(c);
    key in ix && ix[key] < |cs| && cs[ix[key]].tenantId != "" && c.tenantId != "" && cs[ix[key]].tenantId != c.tenantId
  }

  /** A matrix laid out for no dimension, read with one: right only if it has no rows. */
  lemma UnresizedMatrix(num: Numerics, es: seq<Vec>, units: seq<Float>, has: seq<bool>, dim: nat)
    requires Sound(num, 0, es, units, has) && dim > 0
    ensures Sound(num, dim, es, units, has)
    ensures Exact(num, 0, es, units, has)
    ensures Exact(num, dim, es, units, has) <==> es == []
  {
    FlatSize(num, 0, es);
    FlatSize(num, dim, es);
    assert |es| > 0 ==> |es| * dim > 0;
  }

  lemma ConservedSize(ms: seq<Memory>, ms': seq<Memory>, events: seq<Event>)
    requires multiset(ms) == multiset(ms') + multiset(MemoriesIn(events))
    ensures |ms| == |ms'| + |MemoriesIn(events)|
  {
    SameSize(ms, ms' + MemoriesIn(events));
  }

  lemma WrittenInPlace(ms: seq<Memory>, ix: map<string, nat>, m: Memory)
    requires m.memoryId in ix && ix[m.memoryId] < |ms|
    ensures Written(ms, ix, m) == ms[ix[m.memoryId] := m]
  {
  }

  lemma FitsMeans(dim: nat, v: Vec)
    requires Fits(dim, v)
    ensures v == [] || |v| == DimWith(dim, v)
  {
  }

  predicate OwnedByOther(ms: seq<Memory>, ix: map<string, nat>, id: string, tenantId: string) {
    id in ix && ix[id] < |ms| && ms[ix[id]].tenantId != "" && ms[ix[id]].tenantId != tenantId
  }

  // ---------------------------------------------------------------------
  // Searching touches rows.
  // ---------------------------------------------------------------------


  function Touch(m: Memory, now: int): Memory {
    m.(accessCount := (m.accessCount + 1) % Bytes.TWO_64, lastAccessed := now)
  }

  /** The rows listed, touched one after the other. */
  function TouchAll(ms: seq<Memory>, out: seq<Candidate>, now: int): seq<Memory> {
    if out == [] then ms
    else
      var ms', i := TouchAll(ms, out[..|out| - 1], now), out[|out| - 1].idx;
      if i < |ms'| then ms'[i := Touch(ms'[i], now)] else ms'
  }

  /** The rows after a search that returned `out`. */
  function AfterSearch(ms: seq<Memory>, q: Query, out: seq<Candidate>, now: int): seq<Memory> {
    if q.updateAccess then TouchAll(ms, out, now) else ms
  }

  predicate Alike(a: Memory, b: Memory) {
    b == a.(accessCount := b.accessCount, lastAccessed := b.lastAccessed)
  }

  /** The same rows but for when and how often each was read. */
  ghost predicate RowsAlike(a: seq<Memory>, b: seq<Memory>) {
    |a| == |b| && forall i | 0 <= i < |a| :: Alike(a[i], b[i])
  }

  /** Each returned row is touched once, and no other. */
  lemma {:induction false} TouchAllRows(ms: seq<Memory>, out: seq<Candidate>, now: int)
    requires forall j, k | 0 <= j < k < |out| :: out[j].idx != out[k].idx
    ensures var ms' := TouchAll(ms, out, now);
      && |ms'| == |ms|
      && (forall k | 0 <= k < |out| && out[k].idx < |ms| :: ms'[out[k].idx] == Touch(ms[out[k].idx], now))
      && (forall i | 0 <= i < |ms| && (forall k | 0 <= k < |out| :: out[k].idx != i) :: ms'[i] == ms[i])
  {
    if out != [] {
      var n := |out| - 1;
      forall j, k | 0 <= j < k < n ensures out[..n][j].idx != out[..n][k].idx {
        assert out[..n][j] == out[j] && out[..n][k] == out[k];
      }
      TouchAllRows(ms, out[..n], now);
      hide Touch;
      var mid, ms' := TouchAll(ms, out[..n], now), TouchAll(ms, out, now);
      hide TouchAll;
      assert forall k | 0 <= k < n :: out[..n][k] == out[k];
      forall k | 0 <= k < |out| && out[k].idx < |ms| ensures ms'[out[k].idx] == Touch(ms[out[k].idx], now) {
        assert k < n ==> out[..n][k] == out[k];
      }
    }
  }

  lemma NothingTouched(ms: seq<Memory>, now: int)
    ensures TouchAll(ms, [], now) == ms
  {
  }

  lemma TouchedAlike(ms: seq<Memory>, row: nat, now: int)
    requires row < |ms|
    ensures RowsAlike(ms, ms[row := Touch(ms[row], now)])
  {
  }

  lemma AlikeIndex(a: seq<Memory>, b: seq<Memory>, ix: map<string, nat>)
    requires RowsAlike(a, b) && IndexOk(a, ix)
    ensures IndexOk(b, ix) && Embeddings(a) == Embeddings(b)
  {
  }

  lemma {:induction false} AlikeCount(a: seq<Memory>, b: seq<Memory>)
    requires RowsAlike(a, b)
    ensures Count(ExpiringMemory, a) == Count(ExpiringMemory, b)
  {
    if a != [] {
      AlikeCount(a[..|a| - 1], b[..|b| - 1]);
      assert Alike(a[|a| - 1], b[|a| - 1]);
    }
  }

  lemma {:induction false} AlikeEntries(a: seq<Memory>, b: seq<Memory>)
    requires RowsAlike(a, b)
    ensures BuildEntries(a) == BuildEntries(b)
  {
    if a != [] {
      AlikeEntries(a[..|a| - 1], b[..|b| - 1]);
      assert Alike(a[|a| - 1], b[|a| - 1]);
    }
  }

  lemma AlikeSameIndex(num: Numerics, a: seq<Memory>, b: seq<Memory>)
    requires RowsAlike(a, b)
    ensures BuildEntries(a) == BuildEntries(b)
    ensures forall key: string, row: nat :: Expected(num, a, key, row) == Expected(num, b, key, row)
  {
    AlikeEntries(a, b);
    SameEntriesSameIndex(num, a, b);
  }

  function HitOf(ms: seq<Memory>, c: Candidate): SearchHit
    requires c.idx < |ms|
  {
    SearchHit(ms[c.idx], c.key.score, c.similarity)
  }

  ghost predicate HitsOf(ms: seq<Memory>, out: seq<Candidate>, hits: seq<SearchHit>) {
    |hits| == |out| && forall k | 0 <= k < |out| :: out[k].idx < |ms| && hits[k] == HitOf(ms, out[k])
  }

  /** Whether a query is put to the index at all. */
  predicate WantsIndex(cfg: AnnConfig, q: Query, rows: nat) {
    && cfg.mode != Off && !q.forceScan && q.embedding != [] && q.tenantId != "" && q.namespaceId != ""
    && (cfg.mode == Auto ==> rows >= cfg.minRecords)
  }

  /** How many rows the index is asked for; the product is taken in 64 bits. */
  function CandidateLimit(limit: nat, oversample: nat): (n: nat)
    ensures n >= limit
  {
    var product := limit * (if oversample == 0 then 1 else oversample) % Bytes.TWO_64;
    if product > limit then product else limit
  }

  // ---------------------------------------------------------------------
  // Loading.
  // ---------------------------------------------------------------------

  const DEFAULT_INDEX_CONFIG: AnnIndex.Config := AnnIndex.Config(8, 12, 2, 50000, 256, 8)
  const DEFAULT_ANN_CONFIG: AnnConfig := AnnConfig(Off, 50000, 8, DEFAULT_INDEX_CONFIG)
  const DEFAULT_ID_CONFIG: IdConfig := IdConfig(false, 0, 0)
  const DEFAULT_EVICTION_CONFIG: EvictionConfig := EvictionConfig(0, 0, true, true, [])

  /** What a snapshot holds. */
  datatype Contents = Contents(dim: nat, nextMemoryId: nat, nextCacheId: nat, memories: seq<Memory>, caches: seq<Cache>)

  ghost predicate Loadable(c: Contents) {
    MemoryDims(c.dim, c.memories) && Distinct(IdOf, c.memories) && CacheDims(c.dim, c.caches)
  }

  lemma LoadableMeans(c: Contents)
    ensures Loadable(c) <==> MemoryDims(c.dim, c.memories) && Distinct(IdOf, c.memories) && CacheDims(c.dim, c.caches)
  {
  }

  lemma NothingToLoad()
    ensures DEFAULT_ANN_CONFIG.mode == Off
    ensures Loadable(Contents(0, 1, 1, [], [])) && IndexOk([], map[]) && CacheIndexOk([], map[])
  {
  }

  lemma EmptyRows(num: Numerics)
    ensures Exact(num, 0, Embeddings([]), [], []) && Sound(num, 0, Embeddings([]), [], [])
  {
    assert Embeddings([]) == [];
  }

  lemma DimsOfAll(dim: nat, ms: seq<Memory>)
    ensures MemoryDims(dim, ms) <==> DimsOk(dim, Embeddings(ms))
  {
    forall m | m in ms && DimsOk(dim, Embeddings(ms)) ensures m.embedding == [] || |m.embedding| == dim {
      var i :| 0 <= i < |ms| && ms[i] == m;
      assert Embeddings(ms)[i] == m.embedding;
    }
  }

  /** The id index of loaded memories, unless a dimension is wrong or an id occurs twice. */
  method IndexLoaded(ms: seq<Memory>, dim: nat) returns (ix: Option<map<string, nat>>)
    ensures ix.Some? <==> MemoryDims(dim, ms) && Distinct(IdOf, ms)
    ensures ix.Some? ==> IndexOk(ms, ix.value)
  {
    var index: map<string, nat> := map[];
    for i := 0 to |ms|
      invariant MemoryDims(dim, ms[..i]) && IndexOk(ms[..i], index)
    {
      assert ms[i] in ms;
      if ms[i].embedding != [] && |ms[i].embedding| != dim { return None; }
      if ms[i].memoryId in index {
        assert ms[..i][index[ms[i].memoryId]].memoryId == IdOf(ms[i]);
        return None;
      }
      AppendIndex(ms[..i], index, ms[i]);
      assert ms[..i + 1] == ms[..i] + [ms[i]];
      index := index[ms[i].memoryId := i];
    }
    assert ms[..|ms|] == ms;
    return Some(index);
  }

  method CheckLoadedCaches(cs: seq<Cache>, dim: nat) returns (ok: bool)
    ensures ok <==> CacheDims(dim, cs)
  {
    for i := 0 to |cs|
      invariant CacheDims(dim, cs[..i])
    {
      assert cs[i] in cs;
      if cs[i].embedding != [] && |cs[i].embedding| != dim { return false; }
      assert cs[..i + 1] == cs[..i] + [cs[i]];
    }
    assert cs[..|cs|] == cs;
    return true;
  }

  // ---------------------------------------------------------------------
  // Looking up the prompt cache.
  // ---------------------------------------------------------------------

  datatype Lookup = Lookup(tenantId: string, namespaceId: string, prompt: string, embedding: Vec, threshold: real, now: int)

  datatype LookupResult = Miss | CacheHit(exact: bool, score: real, entry: Cache)

  function TouchCache(c: Cache, now: int): Cache {
    c.(accessCount := (c.accessCount + 1) % Bytes.TWO_64, lastAccessed := now)
  }

  /** A live entry of the lookup's tenant and namespace. */
  predicate InReach(l: Lookup, c: Cache) {
    c.tenantId == l.tenantId && c.namespaceId == OrDefault(l.namespaceId) && !Expired(c.expiresAt, l.now)
  }

  predicate Similar(sim: (Vec, Vec) -> real, l: Lookup, c: Cache) {
    InReach(l, c) && sim(l.embedding, c.embedding) >= l.threshold
  }

  /** The most similar entry in reach, the first of equals. */
  ghost predicate IsMostSimilar(sim: (Vec, Vec) -> real, l: Lookup, cs: seq<Cache>, row: nat) {
    && row < |cs| && Similar(sim, l, cs[row])
    && (forall j | 0 <= j < |cs| && Similar(sim, l, cs[j]) :: sim(l.embedding, cs[j].embedding) <= sim(l.embedding, cs[row].embedding))
    && (forall j | 0 <= j < row && Similar(sim, l, cs[j]) :: sim(l.embedding, cs[j].embedding) < sim(l.embedding, cs[row].embedding))
  }

  method FindSimilar(sim: (Vec, Vec) -> real, l: Lookup, cs: seq<Cache>) returns (best: Option<nat>)
    ensures best.None? ==> forall c | c in cs :: !Similar(sim, l, c)
    ensures best.Some? ==> IsMostSimilar(sim, l, cs, best.value)
  {
    best := None;
    for i := 0 to |cs|
      invariant best.None? ==> forall j | 0 <= j < i :: !Similar(sim, l, cs[j])
      invariant best.Some? ==> best.value < i && IsMostSimilar(sim, l, cs[..i], best.value)
    {
      assert cs[..i + 1] == cs[..i] + [cs[i]];
      if InReach(l, cs[i]) {
        var s := sim(l.embedding, cs[i].embedding);
        if s >= l.threshold && (best.None? || s > sim(l.embedding, cs[best.value].embedding)) {
          best := Some(i);
        }
      }
    }
    assert cs[..|cs|] == cs;
  }

  lemma SimilarRow(sim: (Vec, Vec) -> real, l: Lookup, cs: seq<Cache>, row: nat)
    requires IsMostSimilar(sim, l, cs, row)
    ensures row < |cs| && cs[row] in cs && Similar(sim, l, cs[row])
  {
  }

  function KeyOfLookup(l: Lookup): string {
    ScopedKey(l.tenantId, OrDefault(l.namespaceId), l.prompt)
  }

  /** The lookup's own key has a live entry. */
  predicate LiveKey(l: Lookup, cs: seq<Cache>, ix: map<string, nat>) {
    var key := KeyOfLookup(l);
    key in ix && ix[key] < |cs| && !Expired(cs[ix[key]].expiresAt, l.now)
  }

  /** The first row whose id is that of row `row`. */
  method FirstWithId(cs: seq<Cache>, row: nat) returns (first: nat)
    requires row < |cs|
    ensures first <= row && cs[first].cacheId == cs[row].cacheId
    ensures forall j | 0 <= j < first :: cs[j].cacheId != cs[row].cacheId
    ensures first == row <==> forall j | 0 <= j < row :: cs[j].cacheId != cs[row].cacheId
  {
    first := 0;
    while cs[first].cacheId != cs[row].cacheId
      invariant first <= row && forall j | 0 <= j < first :: cs[j].cacheId != cs[row].cacheId
      decreases row - first
    {
      first := first + 1;
    }
  }

  /**
    What a lookup found: the entry with the prompt's key if it is live, else the
    most similar entry `found`, answered by the first row `row` with its id.  That
    is the similar entry itself exactly when no earlier row shares its id.
   */
  ghost predicate Answered(sim: (Vec, Vec) -> real, l: Lookup, cs: seq<Cache>, ix: map<string, nat>, exact: bool, score: real, row: nat, found: nat) {
    && row <= found < |cs|
    && (exact <==> LiveKey(l, cs, ix))
    && (exact ==> row == found == ix[KeyOfLookup(l)] && score == 1.0)
    && (!exact ==>
          && IsMostSimilar(sim, l, cs, found) && score == sim(l.embedding, cs[found].embedding)
          && cs[row].cacheId == cs[found].cacheId
          && (row == found <==> forall j | 0 <= j < found :: cs[j].cacheId != cs[found].cacheId))
  }

  lemma AnsweredRow(sim: (Vec, Vec) -> real, l: Lookup, cs: seq<Cache>, ix: map<string, nat>, exact: bool, score: real, row: nat, found: nat)
    requires Answered(sim, l, cs, ix, exact, score, row, found)
    ensures row < |cs|
  {
  }

  method Decide(sim: (Vec, Vec) -> real, l: Lookup, cs: seq<Cache>, ix: map<string, nat>)
    returns (hit: Option<(bool, real, nat)>, ghost found: nat)
    requires forall k | k in ix :: ix[k] < |cs|
    ensures hit.None? <==> !LiveKey(l, cs, ix) && forall c | c in cs :: !Similar(sim, l, c)
    ensures hit.Some? ==> Answered(sim, l, cs, ix, hit.value.0, hit.value.1, hit.value.2, found)
  {
    hide KeyOfLookup;
    hide IsMostSimilar;
    hide Similar;
    found := 0;
    var key := KeyOfLookup(l);
    if key in ix && !Expired(cs[ix[key]].expiresAt, l.now) {
      return Some((true, 1.0, ix[key])), ix[key];
    }
    var best := FindSimilar(sim, l, cs);
    if best.None? { return None, found; }
    SimilarRow(sim, l, cs, best.value);
    var row := FirstWithId(cs, best.value);
    return Some((false, sim(l.embedding, cs[best.value].embedding), row)), best.value;
  }

  lemma {:induction false} TouchedCacheCount(cs: seq<Cache>, row: nat, now: int)
    requires row < |cs|
    ensures Count(ExpiringCache, cs[row := TouchCache(cs[row], now)]) == Count(ExpiringCache, cs)
  {
    CountUpdate(ExpiringCache, cs, row, TouchCache(cs[row], now));
  }

  lemma TouchedCacheIndex(cs: seq<Cache>, ix: map<string, nat>, row: nat, now: int, dim: nat)
    requires row < |cs| && CacheIndexOk(cs, ix) && CacheDims(dim, cs)
    ensures CacheIndexOk(cs[row := TouchCache(cs[row], now)], ix) && CacheDims(dim, cs[row := TouchCache(cs[row], now)])
  {
    SameCacheKey(cs[row], now);
    hide CacheKey;
    hide TouchCache;
    assert TouchCache(cs[row], now).embedding == cs[row].embedding;
    assert cs[row] in cs;
  }

  lemma SameCacheKey(c: Cache, now: int)
    ensures CacheKey(TouchCache(c, now)) == CacheKey(c) && TouchCache(c, now).embedding == c.embedding
  {
  }
}
