/**
  The Agent Memory store: rows, their id index, the unit matrix, the expiry and
  eviction counters, the prompt cache, and the nearest-neighbour index that is
  maintained step by step or rebuilt off-lock under a generation check.

  One call of a method is one critical section of the store's mutex.
 */
module MemoryStore {
  import opened Vectors
  import opened Records
  import opened Ranking
  import opened StoreRows
  import opened UnitMatrix
  import opened Restore
  import opened AnnSync
  import opened MemorySearch
  import opened StoreSpec
  import AnnIndex

  class AgentMemoryStore {
    const num: Numerics
    const ranker: Ranker

    var embeddingDim: nat
    var nextMemoryId: nat
    var nextCacheId: nat
    var evictedMemories: nat
    var evictedCaches: nat
    var expiringMemories: nat
    var expiringCaches: nat
    var idConfig: IdConfig
    var evictionConfig: EvictionConfig
    var annConfig: AnnConfig
    var ann: AnnIndex.Index?
    var units: seq<Float>
    var hasEmbedding: seq<bool>
    var annDirty: bool
    var annGeneration: nat
    var annRebuilds: nat
    var annSearches: nat
    var annFallbacks: nat
    var memories: seq<Memory>
    var memoryIndex: map<string, nat>
    var caches: seq<Cache>
    var cacheIndex: map<string, nat>

    /** Tallies: rows removed, index entries changed in place, builds published. */
    ghost var removals: nat
    ghost var increments: nat
    ghost var publishes: nat
    ghost var issued: set<Issue>
    /** The build published last was of the rows as they were when it was published. */
    ghost var faithful: bool

    // -------------------------------------------------------------------
    // What always holds.
    // -------------------------------------------------------------------

    ghost predicate RowsValid()
      reads this`memories, this`memoryIndex, this`caches, this`cacheIndex, this`embeddingDim, this`units, this`hasEmbedding
    {
      && IndexOk(memories, memoryIndex)
      && CacheIndexOk(caches, cacheIndex)
      && DimsOk(embeddingDim, Embeddings(memories))
      && CacheDims(embeddingDim, caches)
      && Sound(num, embeddingDim, Embeddings(memories), units, hasEmbedding)
    }

    ghost predicate CountersValid()
      reads this`memories, this`caches, this`expiringMemories, this`expiringCaches
    {
      && expiringMemories == Count(ExpiringMemory, memories)
      && expiringCaches == Count(ExpiringCache, caches)
    }

    /** A snapshot's tallies are behind, and until its generation passes the store stays as it found it. */
    ghost predicate IssueInPast(i: Issue)
      reads this`annGeneration, this`removals, this`increments, this`publishes, this`annConfig, this`annDirty
    {
      && i.snapshot.generation <= annGeneration
      && i.removals <= removals && i.increments <= increments && i.publishes <= publishes
      && i.snapshot.entries == BuildEntries(i.rows) && DimsOk(i.dim, Embeddings(i.rows))
      && (i.snapshot.generation == annGeneration ==>
            && annConfig.mode != Off && i.snapshot.kind == KindOf(annConfig.mode)
            && (i.publishes == publishes ==> annDirty && i.increments == increments))
    }

    /** With no newer generation and no row removed or index entry changed since, the snapshot is of the rows given. */
    ghost predicate IssueCurrent(i: Issue, rows: seq<Memory>)
      reads this`annGeneration, this`removals, this`increments
    {
      i.snapshot.generation == annGeneration && i.removals == removals && i.increments == increments ==>
        BuildEntries(i.rows) == BuildEntries(rows)
    }

    ghost predicate AnnValid()
      reads this`ann, this`annDirty, this`annConfig, this`annGeneration, this`removals, this`increments, this`publishes, this`issued, ann
    {
      && (ann != null ==> ann.Valid() && ann.num == num)
      && (!annDirty ==> ann != null && annConfig.mode != Off)
      && forall i | i in issued :: IssueInPast(i)
    }

    /** A clean index, and every snapshot not yet overtaken, is right for the rows given. */
    ghost predicate AnnCurrentFor(rows: seq<Memory>)
      reads this`ann, this`annDirty, this`faithful, this`annGeneration, this`removals, this`increments, this`issued, ann
    {
      && (!annDirty && faithful ==> ann != null && InStep(ann, num, rows))
      && forall i | i in issued :: IssueCurrent(i, rows)
    }

    ghost predicate AnnCurrent()
      reads this`ann, this`annDirty, this`faithful, this`memories, this`annGeneration, this`removals, this`increments, this`issued, ann
    {
      AnnCurrentFor(memories)
    }

    ghost predicate Valid()
      reads this`memories, this`memoryIndex, this`caches, this`cacheIndex, this`embeddingDim, this`units, this`hasEmbedding,
            this`expiringMemories, this`expiringCaches, this`ann, this`annDirty, this`annConfig, this`annGeneration, this`faithful,
            this`removals, this`increments, this`publishes, this`issued, ann
    {
      RowsValid() && CountersValid() && AnnValid() && AnnCurrent()
    }

    /** Every row of the unit matrix is the normalisation of that row's embedding. */
    ghost predicate UnitsExact()
      reads this`memories, this`embeddingDim, this`units, this`hasEmbedding
    {
      Exact(num, embeddingDim, Embeddings(memories), units, hasEmbedding)
    }

    // -------------------------------------------------------------------
    // Removing a row.
    // -------------------------------------------------------------------

    method MarkAnnDirty()
      requires AnnValid()
      modifies this`annDirty, this`annGeneration
      ensures annDirty && annGeneration == old(annGeneration) + 1
      ensures AnnValid() && AnnCurrent()
    {
      annDirty := true;
      annGeneration := annGeneration + 1;
    }

    /** Drops the row's index entry and renumbers the last row's, as far as the index knows them. */
    method RemoveFromAnn(row: nat) returns (maintained: bool)
      requires ann != null && ann.Valid() && row < |memories|
      modifies ann
      ensures ann.Valid()
      ensures maintained && old(InStep(ann, num, memories)) ==> InStep(ann, num, SwapRemove(memories, row))
    {
      hide PartitionKey;
      hide Expected;
      hide SwapRemove;
      hide AnnIndex.Index.Valid;
      hide AnnIndex.LookupIn;
      var last := |memories| - 1;
      var keyGone, keyMoved := PartitionKey(memories[row]), PartitionKey(memories[last]);
      maintained := true;
      if memories[row].embedding != [] {
        maintained := ann.Remove(keyGone, row);
      }
      if row != last && maintained && memories[last].embedding != [] {
        maintained := ann.UpdateRowId(keyMoved, last, row);
      }
      if maintained && old(InStep(ann, num, memories)) {
        forall key: string, r: nat
          ensures ann.Lookup(key, r) == Expected(num, SwapRemove(memories, row), key, r)
        {
          assert old(ann.Lookup(key, r)) == Expected(num, memories, key, r);
          assert old(ann.Lookup(key, last)) == Expected(num, memories, key, last);
          ExpectedAfterRemoval(num, memories, row, key, r);
          if memories[row].embedding == [] { NoEmbeddingNotExpected(num, memories, row); }
          if memories[last].embedding == [] { NoEmbeddingNotExpected(num, memories, last); }
          if key != keyGone { ExpectedOwnKey(num, memories, row, key); }
          if key != keyMoved { ExpectedOwnKey(num, memories, last, key); }
        }
      }
    }

    /** The row out of the row vector, the id index and the unit matrix. */
    method DropRow(row: nat)
      requires RowsValid() && row < |memories|
      modifies this`memories, this`memoryIndex, this`units, this`hasEmbedding
      ensures RowsValid() && UnitsExact()
      ensures memories == SwapRemove(old(memories), row)
    {
      hide Exact;
      hide Sound;
      hide IndexOk;
      hide CacheIndexOk;
      hide DimsOk;
      hide CacheDims;
      hide SwapRemove;
      units, hasEmbedding := RemoveUnit(num, embeddingDim, Embeddings(memories), units, hasEmbedding, row);
      SwapRemoveEmbeddings(memories, row, embeddingDim);
      SwapRemoveIndex(memories, memoryIndex, row);
      memoryIndex := memoryIndex[memories[|memories| - 1].memoryId := row] - {memories[row].memoryId};
      memories := SwapRemove(memories, row);
      ExactIsSound(num, embeddingDim, Embeddings(memories), units, hasEmbedding);
    }

    method RemoveMemoryRow(row: nat)
      requires RowsValid() && AnnValid() && row < |memories|
      modifies this`memories, this`memoryIndex, this`units, this`hasEmbedding, this`annDirty, this`annGeneration, this`removals, ann
      ensures RowsValid() && AnnValid() && UnitsExact()
      ensures memories == SwapRemove(old(memories), row)
      ensures old(AnnCurrent()) ==> AnnCurrent()
      ensures removals == old(removals) + 1
      ensures annGeneration >= old(annGeneration) && (old(annDirty) ==> annDirty && annGeneration == old(annGeneration))
      ensures !annDirty ==> annGeneration == old(annGeneration)
    {
      hide Exact;
      hide Sound;
      hide IndexOk;
      hide CacheIndexOk;
      hide DimsOk;
      hide CacheDims;
      hide InStep;
      hide BuildEntries;
      hide AnnIndex.Index.Valid;
      hide SwapRemove;
      var canMaintain := annConfig.mode != Off && ann != null && !annDirty;
      var maintained := true;
      if canMaintain {
        maintained := RemoveFromAnn(row);
      }
      DropRow(row);
      removals := removals + 1;
      if canMaintain && !maintained {
        MarkAnnDirty();
      }
    }

    // -------------------------------------------------------------------
    // Eviction.
    // -------------------------------------------------------------------

    ghost function Now(): Moment
      reads this, ann
    {
      Moment(memories, caches, evictedMemories, evictedCaches, removals, annGeneration, annDirty,
             if ann == null then None else Some((ann.dimension, ann.partitions)), UnitsExact())
    }

    /** The candidate with the least retention score, then the oldest, then the first. */
    method FindVictim(scope: Memory -> bool, now: int) returns (victim: Option<nat>)
      ensures victim.None? ==> forall m | m in memories && scope(m) :: evictionConfig.protectPinned && m.pinned
      ensures victim.Some? ==>
        victim.value < |memories| && IsVictim(ranker, evictionConfig.protectPinned, scope, now, memories, victim.value)
    {
      victim := None;
      for i := 0 to |memories|
        invariant victim.None? ==> forall j | 0 <= j < i :: !Evictable(evictionConfig.protectPinned, scope, memories[j])
        invariant victim.Some? ==> victim.value < i && Evictable(evictionConfig.protectPinned, scope, memories[victim.value])
        invariant victim.Some? ==> forall j | 0 <= j < i && Evictable(evictionConfig.protectPinned, scope, memories[j]) ::
          j == victim.value || GoesBefore(ranker, now, memories, victim.value, j)
      {
        var m := memories[i];
        if Evictable(evictionConfig.protectPinned, scope, m) {
          var score := ranker.retention(m, now);
          if victim.None? || score < ranker.retention(memories[victim.value], now)
             || (score == ranker.retention(memories[victim.value], now) && m.createdAt < memories[victim.value].createdAt)
          {
            victim := Some(i);
          }
        }
      }
    }

    /** Removes a row as an eviction. */
    method EvictRow(row: nat) returns (events: seq<Event>)
      requires RowsValid() && CountersValid() && AnnValid() && row < |memories|
      modifies this`memories, this`memoryIndex, this`units, this`hasEmbedding, this`annDirty, this`annGeneration,
               this`removals, this`expiringMemories, this`evictedMemories, ann
      ensures RowsValid() && CountersValid() && AnnValid()
      ensures old(AnnCurrent()) ==> AnnCurrent()
      ensures EvictionTo(old(Now()), Now(), events) && events == [MemoryEvent(old(memories)[row])]
      ensures memories == SwapRemove(old(memories), row)
    {
      hide RowsValid;
      hide AnnValid;
      hide AnnCurrent;
      hide UnitsExact;
      hide SwapRemove;
      hide Count;
      hide EvictionTo;
      var m := memories[row];
      events := [MemoryEvent(m)];
      SwapRemoveCount(ExpiringMemory, memories, row);
      if HasExpiry(m.expiresAt) && expiringMemories > 0 {
        expiringMemories := expiringMemories - 1;
      }
      RemoveMemoryRow(row);
      evictedMemories := evictedMemories + 1;
      OneRowEvicted(old(Now()), Now(), row);
    }

    /** Evicts one memory in scope, if any is not protected. */
    method EvictOneMemory(scope: Memory -> bool, now: int) returns (events: seq<Event>, ghost row: nat)
      requires RowsValid() && CountersValid() && AnnValid()
      modifies this`memories, this`memoryIndex, this`units, this`hasEmbedding, this`annDirty, this`annGeneration,
               this`removals, this`expiringMemories, this`evictedMemories, ann
      ensures RowsValid() && CountersValid() && AnnValid()
      ensures old(AnnCurrent()) ==> AnnCurrent()
      ensures EvictionTo(old(Now()), Now(), events)
      ensures events == [] ==> memories == old(memories) && forall m | m in memories && scope(m) :: evictionConfig.protectPinned && m.pinned
      ensures events != [] ==>
        && row < |old(memories)| && events == [MemoryEvent(old(memories)[row])] && memories == SwapRemove(old(memories), row)
        && IsVictim(ranker, evictionConfig.protectPinned, scope, now, old(memories), row)
    {
      hide RowsValid;
      hide AnnValid;
      hide AnnCurrent;
      hide CountersValid;
      hide IsVictim;
      hide EvictionTo;
      row := 0;
      var victim := FindVictim(scope, now);
      if victim.None? {
        NothingEvicted(Now());
        events := [];
      } else {
        row := victim.value;
        events := EvictRow(victim.value);
      }
    }

    /** Evicts until a cap on the memories in scope is met or only protected ones are left. */
    method EnforceMemoryCap(cap: nat, scope: Memory -> bool, now: int) returns (events: seq<Event>)
      requires RowsValid() && CountersValid() && AnnValid()
      modifies this`memories, this`memoryIndex, this`units, this`hasEmbedding, this`annDirty, this`annGeneration,
               this`removals, this`expiringMemories, this`evictedMemories, ann
      ensures RowsValid() && CountersValid() && AnnValid()
      ensures old(AnnCurrent()) ==> AnnCurrent()
      ensures EvictionTo(old(Now()), Now(), events)
      ensures MemoryCapHolds(cap, scope, evictionConfig.protectPinned, memories)
      ensures CapRun(ranker, evictionConfig.protectPinned, scope, cap, now, old(memories), events, memories)
    {
      hide RowsValid;
      hide AnnValid;
      hide AnnCurrent;
      hide CountersValid;
      hide UnitsExact;
      hide IsVictim;
      hide EvictionTo;
      hide SwapRemove;
      hide Count;
      events := [];
      NothingEvicted(Now());
      assert CapRun(ranker, evictionConfig.protectPinned, scope, cap, now, memories, [], memories);
      hide CapRun;
      var counted := CountMatching(scope, memories);
      while cap > 0 && counted > cap
        invariant counted == Count(scope, memories)
        invariant RowsValid() && CountersValid() && AnnValid()
        invariant old(AnnCurrent()) ==> AnnCurrent()
        invariant EvictionTo(old(Now()), Now(), events)
        invariant CapRun(ranker, evictionConfig.protectPinned, scope, cap, now, old(memories), events, memories)
        decreases |memories|
      {
        ghost var mid := Now();
        var more, row := EvictOneMemory(scope, now);
        EvictionCompose(old(Now()), mid, Now(), events, more);
        if more == [] {
          assert events + more == events;
          break;
        }
        SwapRemoveSize(mid.memories, row);
        CapRunNext(ranker, evictionConfig.protectPinned, scope, cap, now, old(memories), events, mid.memories, row, more[0], memories);
        events := events + more;
        counted := CountMatching(scope, memories);
      }
    }

    /** The cache entry in scope with the least retention score, then the oldest, then the first. */
    method FindCacheVictim(scope: Cache -> bool, now: int) returns (victim: Option<nat>)
      ensures victim.None? ==> forall c | c in caches :: !scope(c)
      ensures victim.Some? ==> victim.value < |caches| && IsCacheVictim(ranker, scope, now, caches, victim.value)
    {
      victim := None;
      for i := 0 to |caches|
        invariant victim.None? ==> forall j | 0 <= j < i :: !scope(caches[j])
        invariant victim.Some? ==> victim.value < i && scope(caches[victim.value])
        invariant victim.Some? ==> forall j | 0 <= j < i && scope(caches[j]) ::
          j == victim.value || CacheGoesBefore(ranker, now, caches, victim.value, j)
      {
        var c := caches[i];
        if scope(c) {
          var score := ranker.cacheRetention(c, now);
          if victim.None? || score < ranker.cacheRetention(caches[victim.value], now)
             || (score == ranker.cacheRetention(caches[victim.value], now) && c.createdAt < caches[victim.value].createdAt)
          {
            victim := Some(i);
          }
        }
      }
    }

    /** Removes a cache row as an eviction; later rows move up. */
    method EvictCacheRow(row: nat) returns (events: seq<Event>)
      requires RowsValid() && CountersValid() && row < |caches|
      modifies this`caches, this`cacheIndex, this`expiringCaches, this`evictedCaches
      ensures RowsValid() && CountersValid()
      ensures EvictionTo(old(Now()), Now(), events) && events == [CacheEvent(old(caches)[row])]
      ensures caches == RemoveAt(old(caches), row)
    {
      hide RowsValid;
      hide UnitsExact;
      hide Count;
      hide EvictionTo;
      var c := caches[row];
      events := [CacheEvent(c)];
      ghost var before := Now();
      if HasExpiry(c.expiresAt) && expiringCaches > 0 {
        expiringCaches := expiringCaches - 1;
      }
      evictedCaches := evictedCaches + 1;
      EraseCacheRow(row);
      OneCacheEvicted(before, Now(), row);
    }

    /** Takes a cache row out; later rows move up and the key index is rebuilt. */
    method EraseCacheRow(row: nat)
      requires RowsValid() && row < |caches|
      modifies this`caches, this`cacheIndex
      ensures RowsValid()
      ensures caches == RemoveAt(old(caches), row)
      ensures Count(ExpiringCache, caches) == Count(ExpiringCache, old(caches)) - if HasExpiry(old(caches)[row].expiresAt) then 1 else 0
    {
      hide Sound;
      hide IndexOk;
      hide CacheIndexOk;
      hide DimsOk;
      hide CacheDims;
      hide Count;
      RemoveAtCount(ExpiringCache, caches, row);
      RemoveAtDims(caches, row, embeddingDim);
      caches := RemoveAt(caches, row);
      cacheIndex := RebuildCacheIndex(caches);
    }

    /** Evicts one cache entry in scope. */
    method EvictOneCache(scope: Cache -> bool, now: int) returns (events: seq<Event>, ghost row: nat)
      requires RowsValid() && CountersValid() && Count(scope, caches) > 0
      modifies this`caches, this`cacheIndex, this`expiringCaches, this`evictedCaches
      ensures RowsValid() && CountersValid()
      ensures EvictionTo(old(Now()), Now(), events)
      ensures row < |old(caches)| && events == [CacheEvent(old(caches)[row])] && caches == RemoveAt(old(caches), row)
      ensures |caches| < |old(caches)|
      ensures IsCacheVictim(ranker, scope, now, old(caches), row)
    {
      hide *;
      var victim := FindCacheVictim(scope, now);
      CountPositive(scope, caches);
      row := victim.value;
      events := EvictCacheRow(victim.value);
    }

    /** Evicts until a cap on the cache entries in scope is met. */
    method EnforceCacheCap(cap: nat, scope: Cache -> bool, now: int) returns (events: seq<Event>)
      requires RowsValid() && CountersValid()
      modifies this`caches, this`cacheIndex, this`expiringCaches, this`evictedCaches
      ensures RowsValid() && CountersValid()
      ensures EvictionTo(old(Now()), Now(), events)
      ensures CacheCapHolds(cap, scope, caches)
      ensures CacheCapRun(ranker, scope, cap, now, old(caches), events, caches)
    {
      NothingEvicted(Now());
      NoCacheRun(ranker, scope, cap, now, caches);
      hide *;
      events := [];
      var counted := CountMatching(scope, caches);
      while cap > 0 && counted > cap
        invariant counted == Count(scope, caches)
        invariant RowsValid() && CountersValid()
        invariant EvictionTo(old(Now()), Now(), events)
        invariant CacheCapRun(ranker, scope, cap, now, old(caches), events, caches)
        decreases |caches|
      {
        ghost var mid, rows := Now(), caches;
        var more, row := EvictOneCache(scope, now);
        EvictionCompose(old(Now()), mid, Now(), events, more);
        CacheVictimGone(ranker, scope, cap, now, rows, row, more[0], caches);
        CacheCapRunNext(ranker, scope, cap, now, old(caches), events, rows, row, more[0], caches);
        events := events + more;
        counted := CountMatching(scope, caches);
      }
      CacheCapMet(cap, scope, caches);
    }

    /** A cap on memories, then one on cache entries. */
    method EnforceCaps(maxMemories: nat, scope: Memory -> bool, maxCaches: nat, cacheScope: Cache -> bool, now: int) returns (events: seq<Event>)
      requires RowsValid() && CountersValid() && AnnValid()
      modifies this`memories, this`memoryIndex, this`units, this`hasEmbedding, this`annDirty, this`annGeneration,
               this`removals, this`expiringMemories, this`evictedMemories, ann,
               this`caches, this`cacheIndex, this`expiringCaches, this`evictedCaches
      ensures RowsValid() && CountersValid() && AnnValid()
      ensures old(AnnCurrent()) ==> AnnCurrent()
      ensures EvictionTo(old(Now()), Now(), events)
      ensures MemoryCapHolds(maxMemories, scope, evictionConfig.protectPinned, memories) && CacheCapHolds(maxCaches, cacheScope, caches)
      ensures MemoryCapHolds(maxMemories, scope, evictionConfig.protectPinned, old(memories)) && CacheCapHolds(maxCaches, cacheScope, old(caches)) ==>
                events == []
    {
      hide *;
      var e1 := EnforceMemoryCap(maxMemories, scope, now);
      ghost var mid := Now();
      var e2 := EnforceCacheCap(maxCaches, cacheScope, now);
      EvictionCompose(old(Now()), mid, Now(), e1, e2);
      MetCapsEvictNothing(maxMemories, scope, maxCaches, cacheScope, now, old(memories), e1, memories, old(caches), e2);
      events := e1 + e2;
    }

    lemma MetCapsEvictNothing(maxMemories: nat, scope: Memory -> bool, maxCaches: nat, cacheScope: Cache -> bool, now: int,
                              ms: seq<Memory>, e1: seq<Event>, ms': seq<Memory>, cs: seq<Cache>, e2: seq<Event>)
      requires CapRun(ranker, evictionConfig.protectPinned, scope, maxMemories, now, ms, e1, ms')
      requires CacheCapRun(ranker, cacheScope, maxCaches, now, cs, e2, caches)
      ensures MemoryCapHolds(maxMemories, scope, evictionConfig.protectPinned, ms) && CacheCapHolds(maxCaches, cacheScope, cs) ==> e1 + e2 == []
    {
      hide CapRun;
      hide CacheCapRun;
      if MemoryCapHolds(maxMemories, scope, evictionConfig.protectPinned, ms) && CacheCapHolds(maxCaches, cacheScope, cs) {
        MetCapEvictsNothing(ranker, evictionConfig.protectPinned, scope, maxMemories, now, ms, e1, ms');
        CacheCapRunIsFair(ranker, cacheScope, maxCaches, now, cs, e2, caches);
      }
    }

    /** Every tenant quota in turn, then the global caps. */
    method EnforceEviction(now: int) returns (events: seq<Event>)
      requires RowsValid() && CountersValid() && AnnValid()
      modifies this`memories, this`memoryIndex, this`units, this`hasEmbedding, this`annDirty, this`annGeneration,
               this`removals, this`expiringMemories, this`evictedMemories, ann,
               this`caches, this`cacheIndex, this`expiringCaches, this`evictedCaches
      ensures RowsValid() && CountersValid() && AnnValid()
      ensures old(AnnCurrent()) ==> AnnCurrent()
      ensures EvictionTo(old(Now()), Now(), events)
      ensures CapsHold(evictionConfig, memories, caches)
      ensures CapsHold(evictionConfig, old(memories), old(caches)) ==> events == []
    {
      hide RowsValid;
      hide AnnValid;
      hide AnnCurrent;
      hide CountersValid;
      hide EvictionTo;
      hide UnitsExact;
      hide MemoryCapHolds;
      hide CacheCapHolds;
      hide CapsHold;
      events := [];
      NothingEvicted(Now());
      CapsHoldParts(evictionConfig, memories, caches);
      var quotas := evictionConfig.quotas;
      assert quotas[..0] == [];
      assert QuotasHold([], evictionConfig.protectPinned, memories, caches);
      hide QuotasHold;
      ghost var idle := CapsHold(evictionConfig, memories, caches);
      for i := 0 to |quotas|
        invariant RowsValid() && CountersValid() && AnnValid()
        invariant old(AnnCurrent()) ==> AnnCurrent()
        invariant EvictionTo(old(Now()), Now(), events)
        invariant QuotasHold(quotas[..i], evictionConfig.protectPinned, memories, caches)
        invariant idle ==> events == []
      {
        var q := quotas[i];
        ghost var mid := Now();
        if idle {
          NoEventsNoChange(old(Now()), mid);
          QuotaHolds(quotas, i, evictionConfig.protectPinned, memories, caches);
        }
        var more := EnforceCaps(q.maxMemories, MemoryInScope(q), q.maxCaches, CacheInScope(q), now);
        QuotaAdded(quotas, i, evictionConfig.protectPinned, mid, Now(), more);
        EvictionCompose(old(Now()), mid, Now(), events, more);
        events := events + more;
      }
      assert quotas[..|quotas|] == quotas;
      ghost var mid := Now();
      if idle { NoEventsNoChange(old(Now()), mid); }
      var more := EnforceCaps(evictionConfig.maxMemories, Everything(), evictionConfig.maxCaches, Everything(), now);
      QuotasKept(quotas, evictionConfig.protectPinned, mid, Now(), more);
      CapsHoldParts(evictionConfig, memories, caches);
      EvictionCompose(old(Now()), mid, Now(), events, more);
      events := events + more;
    }

    /** Expired memories out, each swapped with the last row; a row swapped in is looked at next. */
    method ExpireMemories(now: int) returns (events: seq<Event>)
      requires RowsValid() && AnnValid()
      modifies this`memories, this`memoryIndex, this`units, this`hasEmbedding, this`annDirty, this`annGeneration,
               this`removals, this`evictedMemories, ann
      ensures RowsValid() && AnnValid()
      ensures old(AnnCurrent()) ==> AnnCurrent()
      ensures EvictionTo(old(Now()), Now(), events) && OnlyExpired(events, now)
      ensures forall m | m in memories :: !Expired(m.expiresAt, now)
    {
      hide RowsValid;
      hide AnnValid;
      hide AnnCurrent;
      hide EvictionTo;
      hide UnitsExact;
      hide SwapRemove;
      events := [];
      var row, removed := 0, 0;
      NothingEvicted(Now());
      while row < |memories|
        invariant row <= |memories|
        invariant RowsValid() && AnnValid()
        invariant old(AnnCurrent()) ==> AnnCurrent()
        invariant EvictionTo(old(Now()), Now().(evictedMemories := evictedMemories + removed), events)
        invariant forall j | 0 <= j < row :: !Expired(memories[j].expiresAt, now)
        invariant evictedMemories == old(evictedMemories) && OnlyExpired(events, now)
        decreases |memories| - row
      {
        if !Expired(memories[row].expiresAt, now) {
          row := row + 1;
        } else {
          ghost var mid := Now().(evictedMemories := evictedMemories + removed);
          var e := MemoryEvent(memories[row]);
          RemoveMemoryRow(row);
          removed := removed + 1;
          OneRowEvicted(mid, Now().(evictedMemories := evictedMemories + removed), row);
          EvictionCompose(old(Now()), mid, Now().(evictedMemories := evictedMemories + removed), events, [e]);
          events := events + [e];
        }
      }
      evictedMemories := evictedMemories + removed;
    }

    /** Expired cache entries out; the others keep their order. */
    method ExpireCaches(now: int) returns (events: seq<Event>)
      requires RowsValid()
      modifies this`caches, this`cacheIndex, this`evictedCaches
      ensures RowsValid()
      ensures EvictionTo(old(Now()), Now(), events) && OnlyExpired(events, now)
      ensures CachesIn(events) == [] ==> caches == old(caches)
      ensures forall c | c in caches :: !Expired(c.expiresAt, now)
    {
      hide UnitsExact;
      hide SplitBy;
      hide EvictionTo;
      hide Gather;
      hide Sound;
      hide IndexOk;
      hide CacheIndexOk;
      hide DimsOk;
      hide CacheDims;
      ghost var before := Now();
      var kept;
      kept, events := SplitExpired(caches, now);
      KeptDims(caches, kept, events, embeddingDim, now);
      var removed := |caches| - |kept|;
      caches := kept;
      if removed > 0 {
        evictedCaches := evictedCaches + removed;
        cacheIndex := RebuildCacheIndex(caches);
      }
      CachesExpired(before, Now(), now, events);
    }

    method EvictExpired(now: int) returns (events: seq<Event>)
      requires RowsValid() && CountersValid() && AnnValid()
      modifies this`memories, this`memoryIndex, this`units, this`hasEmbedding, this`annDirty, this`annGeneration,
               this`removals, this`expiringMemories, this`evictedMemories, ann,
               this`caches, this`cacheIndex, this`expiringCaches, this`evictedCaches
      ensures RowsValid() && CountersValid() && AnnValid()
      ensures old(AnnCurrent()) ==> AnnCurrent()
      ensures EvictionTo(old(Now()), Now(), events) && OnlyExpired(events, now)
      ensures forall m | m in memories :: !Expired(m.expiresAt, now)
      ensures forall c | c in caches :: !Expired(c.expiresAt, now)
    {
      hide RowsValid;
      hide AnnValid;
      hide AnnCurrent;
      hide EvictionTo;
      hide UnitsExact;
      hide Count;
      hide Genuine;
      hide Gather;
      var e1 := ExpireMemoriesIfAny(now);
      ghost var mid := Now();
      var e2 := ExpireCachesIfAny(now);
      EvictionCompose(old(Now()), mid, Now(), e1, e2);
      NoMemoryEventNoChange(old(Now()), mid, e1);
      NoMemoryEventNoChange(mid, Now(), e2);
      StillNoneExpired(mid, Now(), e2, now);
      events := e1 + e2;
      if e1 != [] || e2 != [] {
        RebuildExpiryCounts();
      }
    }

    method RebuildExpiryCounts()
      modifies this`expiringMemories, this`expiringCaches
      ensures CountersValid()
      ensures Now() == old(Now()) && RowsValid() == old(RowsValid())
      ensures AnnValid() == old(AnnValid()) && AnnCurrent() == old(AnnCurrent())
    {
      hide RowsValid;
      hide AnnValid;
      hide AnnCurrent;
      hide UnitsExact;
      hide Count;
      expiringMemories := CountMatching(ExpiringMemory, memories);
      expiringCaches := CountMatching(ExpiringCache, caches);
    }

    /** The scan is skipped when the counter says no memory can expire. */
    method ExpireMemoriesIfAny(now: int) returns (events: seq<Event>)
      requires RowsValid() && CountersValid() && AnnValid()
      modifies this`memories, this`memoryIndex, this`units, this`hasEmbedding, this`annDirty, this`annGeneration,
               this`removals, this`evictedMemories, ann
      ensures RowsValid() && AnnValid()
      ensures old(AnnCurrent()) ==> AnnCurrent()
      ensures EvictionTo(old(Now()), Now(), events) && OnlyExpired(events, now)
      ensures forall m | m in memories :: !Expired(m.expiresAt, now)
    {
      hide RowsValid;
      hide AnnValid;
      hide AnnCurrent;
      hide EvictionTo;
      if expiringMemories > 0 {
        events := ExpireMemories(now);
      } else {
        NoneExpiring(ExpiringMemory, memories);
        events := [];
        NothingEvicted(Now());
      }
    }

    method ExpireCachesIfAny(now: int) returns (events: seq<Event>)
      requires RowsValid() && expiringCaches == Count(ExpiringCache, caches)
      modifies this`caches, this`cacheIndex, this`evictedCaches
      ensures RowsValid()
      ensures EvictionTo(old(Now()), Now(), events) && OnlyExpired(events, now)
      ensures events == [] ==> caches == old(caches)
      ensures forall c | c in caches :: !Expired(c.expiresAt, now)
      ensures AnnValid() == old(AnnValid()) && AnnCurrent() == old(AnnCurrent())
    {
      hide RowsValid;
      hide EvictionTo;
      hide AnnValid;
      hide AnnCurrent;
      if expiringCaches > 0 {
        events := ExpireCaches(now);
      } else {
        NoneExpiring(ExpiringCache, caches);
        events := [];
        NothingEvicted(Now());
      }
    }

    /** The eviction pass of a write. */
    method EvictionPass(now: int) returns (events: seq<Event>)
      requires RowsValid() && CountersValid() && AnnValid()
      modifies this`memories, this`memoryIndex, this`units, this`hasEmbedding, this`annDirty, this`annGeneration,
               this`removals, this`expiringMemories, this`evictedMemories, ann,
               this`caches, this`cacheIndex, this`expiringCaches, this`evictedCaches
      ensures RowsValid() && CountersValid() && AnnValid()
      ensures old(AnnCurrent()) ==> AnnCurrent()
      ensures EvictionTo(old(Now()), Now(), events)
      ensures AtRest(evictionConfig, memories, caches, now)
      ensures AtRest(evictionConfig, old(memories), old(caches), now) ==> events == []
    {
      hide RowsValid;
      hide AnnValid;
      hide AnnCurrent;
      hide CountersValid;
      hide EvictionTo;
      hide UnitsExact;
      hide CapsHold;
      events := [];
      NothingEvicted(Now());
      if evictionConfig.evictExpiredOnWrite {
        events := EvictExpired(now);
        if NoneExpired(old(memories), old(caches), now) {
          NothingExpiredNothingEvicted(old(Now()), Now(), events, now);
        }
      }
      ghost var mid := Now();
      if events == [] { NoEventsNoChange(old(Now()), mid); }
      var more := EnforceEviction(now);
      EvictionCompose(old(Now()), mid, Now(), events, more);
      StillNoneExpired(mid, Now(), more, now);
      events := events + more;
    }

    // -------------------------------------------------------------------
    // Writing a row.
    // -------------------------------------------------------------------

    /** Checks an embedding; the first one accepted fixes the store's dimension. */
    method ValidateEmbedding(v: Vec) returns (error: Option<StoreError>)
      modifies this`embeddingDim
      ensures error.None? <==> Fits(old(embeddingDim), v)
      ensures embeddingDim == if error.None? then DimWith(old(embeddingDim), v) else old(embeddingDim)
    {
      if v == [] { return None; }
      for i := 0 to |v|
        invariant forall j | 0 <= j < i :: v[j].Fin?
      {
        if v[i].NonFinite? {
          assert v[i] in v;
          return Some(NonFiniteEmbedding);
        }
      }
      if embeddingDim != 0 && |v| != embeddingDim { return Some(DimensionMismatch(embeddingDim, |v|)); }
      if embeddingDim == 0 { embeddingDim := |v|; }
      return None;
    }

    /** Checks an embedding, and lays out the unit matrix when the dimension becomes known late. */
    method AcceptEmbedding(v: Vec) returns (error: Option<StoreError>)
      requires RowsValid()
      modifies this`embeddingDim, this`units, this`hasEmbedding
      ensures RowsValid()
      ensures error.None? <==> Fits(old(embeddingDim), v)
      ensures embeddingDim == if error.None? then DimWith(old(embeddingDim), v) else old(embeddingDim)
      ensures old(UnitsExact()) ==> UnitsExact()
    {
      hide Exact;
      hide Sound;
      hide IndexOk;
      hide CacheIndexOk;
      hide Zeros;
      var dim0 := embeddingDim;
      error := ValidateEmbedding(v);
      if dim0 == 0 && embeddingDim != 0 {
        LateDimension(num, memories, caches, embeddingDim);
        units, hasEmbedding := Zeros(|memories| * embeddingDim), seq(|memories|, _ => false);
        ExactIsSound(num, embeddingDim, Embeddings(memories), units, hasEmbedding);
      }
    }

    method AppendRow(m: Memory)
      requires RowsValid() && CountersValid() && m.memoryId !in memoryIndex && (m.embedding == [] || |m.embedding| == embeddingDim)
      modifies this`memories, this`memoryIndex, this`units, this`hasEmbedding, this`expiringMemories
      ensures RowsValid() && CountersValid()
      ensures memories == old(memories) + [m]
      ensures old(UnitsExact()) ==> UnitsExact()
      ensures m.memoryId in memoryIndex && memoryIndex[m.memoryId] == |old(memories)|
    {
      hide Exact;
      hide Sound;
      hide IndexOk;
      hide CacheIndexOk;
      hide CacheDims;
      hide Count;
      AppendedEmbeddings(memories, m, embeddingDim);
      AppendIndex(memories, memoryIndex, m);
      CountConcat(ExpiringMemory, memories, [m]);
      CountOne(ExpiringMemory, m);
      units, hasEmbedding := AppendUnit(num, embeddingDim, Embeddings(memories), units, hasEmbedding, m.embedding);
      memoryIndex := memoryIndex[m.memoryId := |memories|];
      memories := memories + [m];
      if HasExpiry(m.expiresAt) {
        expiringMemories := expiringMemories + 1;
      }
    }

    method UpdateRow(row: nat, m: Memory)
      requires RowsValid() && CountersValid() && row < |memories| && m.memoryId == memories[row].memoryId
      requires m.embedding == [] || |m.embedding| == embeddingDim
      modifies this`memories, this`units, this`hasEmbedding, this`expiringMemories
      ensures RowsValid() && CountersValid() && UnitsExact()
      ensures memories == old(memories)[row := m]
    {
      hide Exact;
      hide Sound;
      hide IndexOk;
      hide CacheIndexOk;
      hide CacheDims;
      hide Count;
      UpdatedEmbeddings(memories, row, m, embeddingDim);
      UpdateIndex(memories, memoryIndex, row, m);
      CountUpdate(ExpiringMemory, memories, row, m);
      units, hasEmbedding := SetUnit(num, embeddingDim, Embeddings(memories), units, hasEmbedding, row, m.embedding);
      var had, has := HasExpiry(memories[row].expiresAt), HasExpiry(m.expiresAt);
      memories := memories[row := m];
      ExactIsSound(num, embeddingDim, Embeddings(memories), units, hasEmbedding);
      if had != has {
        if has {
          expiringMemories := expiringMemories + 1;
        } else if expiringMemories > 0 {
          expiringMemories := expiringMemories - 1;
        }
      }
    }

    // -------------------------------------------------------------------
    // The index after a write.
    // -------------------------------------------------------------------

    /** Indexes the last row, if it has an embedding. */
    method AddToAnn(row: nat) returns (ok: bool)
      requires ann != null && ann.Valid() && ann.num == num && row + 1 == |memories|
      modifies ann
      ensures ann.Valid()
      ensures ok && old(InStep(ann, num, memories[..row])) ==> InStep(ann, num, memories)
    {
      hide PartitionKey;
      hide AnnIndex.Index.Valid;
      hide AnnIndex.LookupIn;
      var m := memories[row];
      ok := true;
      if m.embedding != [] {
        ok := ann.Add(PartitionKey(m), row, m.embedding);
      }
      if ok && old(InStep(ann, num, memories[..row])) {
        forall key: string, r: nat ensures ann.Lookup(key, r) == Expected(num, memories, key, r) {
          assert old(ann.Lookup(key, r)) == Expected(num, memories[..row], key, r);
        }
      }
    }

    /** Re-indexes a row whose record changed from `was`. */
    method ReplaceInAnn(row: nat, was: Memory) returns (ok: bool)
      requires ann != null && ann.Valid() && ann.num == num && row < |memories|
      modifies ann
      ensures ann.Valid()
      ensures ok && old(InStep(ann, num, memories[row := was])) ==> InStep(ann, num, memories)
    {
      hide PartitionKey;
      hide AnnIndex.Index.Valid;
      hide AnnIndex.LookupIn;
      var m := memories[row];
      ok := true;
      if was.embedding != [] {
        ok := ann.Remove(PartitionKey(was), row);
      }
      if ok && m.embedding != [] {
        ok := ann.Add(PartitionKey(m), row, m.embedding);
      }
      if ok && old(InStep(ann, num, memories[row := was])) {
        forall key: string, r: nat ensures ann.Lookup(key, r) == Expected(num, memories, key, r) {
          assert old(ann.Lookup(key, r)) == Expected(num, memories[row := was], key, r);
        }
      }
    }

    /** Notes an index entry changed in place: snapshots taken before are overtaken. */
    ghost method NoteIncrement()
      requires AnnValid() && !annDirty
      modifies this`increments
      ensures AnnValid()
      ensures forall i | i in issued :: !(i.snapshot.generation == annGeneration && i.removals == removals && i.increments == increments)
    {
      hide AnnIndex.Index.Valid;
      increments := increments + 1;
    }

    /** After an append that evicted nothing: the index learns the row, or goes dirty. */
    method SyncAppended(row: nat)
      requires AnnValid() && !annDirty && row + 1 == |memories| && AnnCurrentFor(memories[..row])
      modifies this`annDirty, this`annGeneration, this`increments, ann
      ensures AnnValid() && AnnCurrent()
      ensures !annDirty ==> annGeneration == old(annGeneration)
    {
      hide InStep;
      hide AnnIndex.Index.Valid;
      var ok := AddToAnn(row);
      NoteIncrement();
      if !ok {
        MarkAnnDirty();
      }
    }

    /** After an update that evicted nothing: the index learns the new record, or goes dirty. */
    method SyncUpdated(row: nat, was: Memory)
      requires AnnValid() && !annDirty && row < |memories| && AnnCurrentFor(memories[row := was])
      modifies this`annDirty, this`annGeneration, this`increments, ann
      ensures AnnValid() && AnnCurrent()
      ensures !annDirty ==> annGeneration == old(annGeneration)
    {
      hide InStep;
      hide AnnIndex.Index.Valid;
      var ok := ReplaceInAnn(row, was);
      NoteIncrement();
      if !ok {
        MarkAnnDirty();
      }
    }

    /** An update of ranking or metadata only leaves the index as it is. */
    lemma MetadataUpdateKeepsAnn(row: nat, was: Memory)
      requires row < |memories| && AnnCurrentFor(memories[row := was]) && SameCandidate(was, memories[row])
      ensures AnnCurrent()
    {
      SameCandidateRows(num, memories[row := was], row, memories[row]);
      assert memories[row := was][row := memories[row]] == memories;
    }

    /**
      The outcome of an eviction pass that started from the rows given: they are
      the rows kept and those in the events, the pass leaves nothing for another to
      do and did nothing if there was nothing to do, and the eviction counters moved
      with the events.
     */
    ghost predicate Settled(rows: seq<Memory>, cacheRows: seq<Cache>, evictedM: nat, evictedC: nat, events: seq<Event>, now: int)
      reads this`memories, this`caches, this`evictionConfig, this`evictedMemories, this`evictedCaches
    {
      && Conserved(rows, cacheRows, memories, caches, events)
      && AtRest(evictionConfig, memories, caches, now)
      && (AtRest(evictionConfig, rows, cacheRows, now) ==> events == [])
      && (events == [] ==> memories == rows && caches == cacheRows)
      && evictedMemories == evictedM + |MemoriesIn(events)| && evictedCaches == evictedC + |CachesIn(events)|
    }

    /** The eviction pass of a write, with the index still right for the rows of before the write. */
    method WritePass(now: int, ghost before: seq<Memory>) returns (events: seq<Event>)
      requires RowsValid() && CountersValid() && AnnValid() && AnnCurrentFor(before)
      modifies this`memories, this`memoryIndex, this`units, this`hasEmbedding, this`annDirty, this`annGeneration,
               this`removals, this`expiringMemories, this`evictedMemories, ann,
               this`caches, this`cacheIndex, this`expiringCaches, this`evictedCaches
      ensures RowsValid() && CountersValid() && AnnValid()
      ensures old(AnnCurrent()) ==> AnnCurrent()
      ensures Settled(old(memories), old(caches), old(evictedMemories), old(evictedCaches), events, now)
      ensures old(annDirty) ==> annDirty
      ensures !annDirty ==> annGeneration == old(annGeneration)
      ensures UnitsExact() <==> old(UnitsExact()) || MemoriesIn(events) != []
      ensures |memories| == |old(memories)| ==> AnnCurrentFor(before) && annDirty == old(annDirty) && memories == old(memories)
    {
      hide RowsValid;
      hide CountersValid;
      hide AnnValid;
      hide AnnCurrentFor;
      hide UnitsExact;
      hide AtRest;
      hide Conserved;
      hide Gather;
      events := PassBehindIndex(now, before);
      if events == [] { NoEventsNoChange(old(Now()), Now()); }
      SameSizeSameRows(old(Now()), Now(), events);
    }

    method PassBehindIndex(now: int, ghost before: seq<Memory>) returns (events: seq<Event>)
      requires RowsValid() && CountersValid() && AnnValid() && AnnCurrentFor(before)
      modifies this`memories, this`memoryIndex, this`units, this`hasEmbedding, this`annDirty, this`annGeneration,
               this`removals, this`expiringMemories, this`evictedMemories, ann,
               this`caches, this`cacheIndex, this`expiringCaches, this`evictedCaches
      ensures RowsValid() && CountersValid() && AnnValid()
      ensures old(AnnCurrent()) ==> AnnCurrent()
      ensures EvictionTo(old(Now()), Now(), events)
      ensures !annDirty ==> annGeneration == old(annGeneration)
      ensures AtRest(evictionConfig, memories, caches, now)
      ensures AtRest(evictionConfig, old(memories), old(caches), now) ==> events == []
      ensures |memories| == |old(memories)| ==> AnnCurrentFor(before)
    {
      hide RowsValid;
      hide CountersValid;
      hide AnnValid;
      hide UnitsExact;
      hide AtRest;
      hide EvictionTo;
      hide BuildEntries;
      events := EvictionPass(now);
      SameSizeSameRows(old(Now()), Now(), events);
    }

    // -------------------------------------------------------------------
    // Storing a memory.
    // -------------------------------------------------------------------

    method InsertMemory(m: Memory, now: int) returns (events: seq<Event>)
      requires RowsValid() && CountersValid() && AnnValid() && AnnCurrentFor(memories)
      requires (m.embedding == [] || |m.embedding| == embeddingDim) && m.memoryId !in memoryIndex
      modifies this`memories, this`memoryIndex, this`units, this`hasEmbedding, this`annDirty, this`annGeneration,
               this`removals, this`increments, this`expiringMemories, this`evictedMemories, ann,
               this`caches, this`cacheIndex, this`expiringCaches, this`evictedCaches
      ensures RowsValid() && CountersValid() && AnnValid() && AnnCurrentFor(memories)
      ensures old(UnitsExact()) ==> UnitsExact()
      ensures Settled(old(memories) + [m], old(caches), old(evictedMemories), old(evictedCaches), events, now)
      ensures old(annDirty) ==> annDirty
      ensures !annDirty ==> annGeneration == old(annGeneration)
    {
      hide *;
      var wasClean := annConfig.mode != Off && ann != null && !annDirty;
      ghost var before := memories;
      var row := |memories|;
      AppendRow(m);
      assert memories[..row] == before;
      events := WritePass(now, before);
      FinishInsert(row, wasClean && !annDirty && |memories| == row + 1 && m.memoryId in memoryIndex && memoryIndex[m.memoryId] == row);
    }

    /** The index after an insert: told of the row if it can be, else dirty. */
    method FinishInsert(row: nat, tell: bool)
      requires AnnValid()
      requires tell ==> !annDirty && row + 1 == |memories| && AnnCurrentFor(memories[..row])
      modifies this`annDirty, this`annGeneration, this`increments, ann
      ensures AnnValid() && AnnCurrentFor(memories) && (old(annDirty) ==> annDirty)
      ensures !annDirty ==> annGeneration == old(annGeneration)
      ensures RowsValid() == old(RowsValid()) && CountersValid() == old(CountersValid()) && UnitsExact() == old(UnitsExact())
    {
      hide RowsValid;
      hide CountersValid;
      hide AnnValid;
      hide AnnCurrentFor;
      hide UnitsExact;
      if tell {
        SyncAppended(row);
      } else {
        MarkAnnDirty();
      }
    }

    method RewriteMemory(m: Memory, now: int) returns (events: seq<Event>)
      requires RowsValid() && CountersValid() && AnnValid() && AnnCurrentFor(memories)
      requires (m.embedding == [] || |m.embedding| == embeddingDim) && m.memoryId in memoryIndex
      modifies this`memories, this`memoryIndex, this`units, this`hasEmbedding, this`annDirty, this`annGeneration,
               this`removals, this`increments, this`expiringMemories, this`evictedMemories, ann,
               this`caches, this`cacheIndex, this`expiringCaches, this`evictedCaches
      ensures RowsValid() && CountersValid() && AnnValid() && AnnCurrentFor(memories) && UnitsExact()
      ensures Settled(Written(old(memories), old(memoryIndex), m), old(caches), old(evictedMemories), old(evictedCaches), events, now)
      ensures old(annDirty) ==> annDirty
      ensures !annDirty ==> annGeneration == old(annGeneration)
    {
      hide *;
      var row := memoryIndex[m.memoryId];
      IndexedRow(m.memoryId);
      WrittenInPlace(memories, memoryIndex, m);
      var was := memories[row];
      var wasClean := annConfig.mode != Off && ann != null && !annDirty;
      ghost var before := memories;
      UpdateRow(row, m);
      assert memories[row := was] == before;
      var size := |memories|;
      events := WritePass(now, before);
      var still := |memories| == size && m.memoryId in memoryIndex && memoryIndex[m.memoryId] == row;
      FinishRewrite(row, was, still && SameCandidate(was, m), wasClean && !annDirty && still);
    }

    lemma IndexedRow(id: string)
      requires RowsValid() && id in memoryIndex
      ensures memoryIndex[id] < |memories| && memories[memoryIndex[id]].memoryId == id
    {
    }

    /** The index after an update: untouched if the update does not concern it, told of it if it can be, else dirty. */
    method FinishRewrite(row: nat, was: Memory, same: bool, tell: bool)
      requires AnnValid()
      requires same || tell ==> row < |memories| && AnnCurrentFor(memories[row := was])
      requires same ==> row < |memories| && SameCandidate(was, memories[row])
      requires tell ==> !annDirty
      modifies this`annDirty, this`annGeneration, this`increments, ann
      ensures AnnValid() && AnnCurrentFor(memories) && (old(annDirty) ==> annDirty)
      ensures !annDirty ==> annGeneration == old(annGeneration)
      ensures RowsValid() == old(RowsValid()) && CountersValid() == old(CountersValid()) && UnitsExact() == old(UnitsExact())
    {
      hide RowsValid;
      hide CountersValid;
      hide AnnValid;
      hide AnnCurrentFor;
      hide UnitsExact;
      if same {
        MetadataUpdateKeepsAnn(row, was);
      } else if tell {
        SyncUpdated(row, was);
      } else {
        MarkAnnDirty();
      }
    }

    /** Writes a complete record, runs the eviction pass and brings the index along. */
    method WriteMemory(m: Memory, now: int) returns (events: seq<Event>)
      requires Valid() && (m.embedding == [] || |m.embedding| == embeddingDim)
      modifies this`memories, this`memoryIndex, this`units, this`hasEmbedding, this`annDirty, this`annGeneration,
               this`removals, this`increments, this`expiringMemories, this`evictedMemories, ann,
               this`caches, this`cacheIndex, this`expiringCaches, this`evictedCaches
      ensures Valid()
      ensures old(UnitsExact()) ==> UnitsExact()
      ensures Settled(Written(old(memories), old(memoryIndex), m), old(caches), old(evictedMemories), old(evictedCaches), events, now)
      ensures old(annDirty) ==> annDirty
      ensures !annDirty ==> annGeneration == old(annGeneration)
    {
      hide RowsValid;
      hide CountersValid;
      hide AnnValid;
      hide AnnCurrentFor;
      hide UnitsExact;
      hide Settled;
      if m.memoryId in memoryIndex {
        events := RewriteMemory(m, now);
      } else {
        events := InsertMemory(m, now);
      }
    }

    /** Stores or updates a memory.  `clock` and `now` are the two readings of the wall clock. */
    method PutMemory(record: Memory, clock: int, now: int) returns (r: StoreResult)
      requires Valid()
      modifies this`memories, this`memoryIndex, this`units, this`hasEmbedding, this`annDirty, this`annGeneration,
               this`removals, this`increments, this`expiringMemories, this`evictedMemories, ann,
               this`caches, this`cacheIndex, this`expiringCaches, this`evictedCaches, this`embeddingDim, this`nextMemoryId
      ensures Valid()
      ensures old(UnitsExact()) ==> UnitsExact()
      ensures r.Refused? <==>
        || !Fits(old(embeddingDim), record.embedding) || record.tokenCount < 0
        || OwnedByOther(old(memories), old(memoryIndex), old(IdFor(record)), record.tenantId)
      ensures embeddingDim == if Fits(old(embeddingDim), record.embedding) then DimWith(old(embeddingDim), record.embedding) else old(embeddingDim)
      ensures r.Refused? ==> memories == old(memories) && caches == old(caches)
      ensures r.Stored? ==>
        && r.id == old(IdFor(record))
        && Settled(Written(old(memories), old(memoryIndex), Completed(record, r.id, clock)), old(caches),
                   old(evictedMemories), old(evictedCaches), r.evictions, now)
      ensures old(annDirty) ==> annDirty
      ensures !annDirty ==> annGeneration == old(annGeneration)
    {
      hide *;
      var id := IdFor(record);
      var error := Admit(record.embedding);
      if error.Some? { return Refused(error.value); }
      TakeId(record);
      if record.tokenCount < 0 { return Refused(NegativeTokenCount); }
      if OwnedByOther(memories, memoryIndex, id, record.tenantId) { return Refused(WrongTenant); }
      FitsMeans(old(embeddingDim), record.embedding);
      var events := WriteMemory(Completed(record, id, clock), now);
      return Stored(id, events);
    }

    /** The record's id, or the next automatic one. */
    function IdFor(record: Memory): string
      reads this`idConfig, this`nextMemoryId
    {
      if record.memoryId == "" then AutoId("mem", idConfig, nextMemoryId) else record.memoryId
    }

    method TakeId(record: Memory)
      modifies this`nextMemoryId
      ensures Valid() == old(Valid()) && UnitsExact() == old(UnitsExact())
    {
      hide *;
      if record.memoryId == "" { nextMemoryId := nextMemoryId + 1; }
    }

    /** AcceptEmbedding, with the rest of the store as it was. */
    method Admit(v: Vec) returns (error: Option<StoreError>)
      requires Valid()
      modifies this`embeddingDim, this`units, this`hasEmbedding
      ensures Valid()
      ensures error.None? <==> Fits(old(embeddingDim), v)
      ensures embeddingDim == if error.None? then DimWith(old(embeddingDim), v) else old(embeddingDim)
      ensures old(UnitsExact()) ==> UnitsExact()
    {
      hide RowsValid;
      hide AnnValid;
      hide AnnCurrent;
      hide UnitsExact;
      error := AcceptEmbedding(v);
    }

    // -------------------------------------------------------------------
    // Removing, configuring, reading.
    // -------------------------------------------------------------------

    /** Removes a memory by id; a tenant, if given, must own it. */
    method RemoveMemory(id: string, tenantId: string) returns (removed: bool)
      requires Valid()
      modifies this`memories, this`memoryIndex, this`units, this`hasEmbedding, this`annDirty, this`annGeneration,
               this`removals, this`expiringMemories, ann
      ensures Valid()
      ensures old(UnitsExact()) ==> UnitsExact()
      ensures removed <==> id in old(memoryIndex) && (tenantId == "" || old(memories)[old(memoryIndex)[id]].tenantId == tenantId)
      ensures removed ==> memories == SwapRemove(old(memories), old(memoryIndex)[id])
      ensures !removed ==> memories == old(memories)
      ensures old(annDirty) ==> annDirty && annGeneration == old(annGeneration)
    {
      hide *;
      IndexRows();
      if id !in memoryIndex { return false; }
      var row := memoryIndex[id];
      if tenantId != "" && memories[row].tenantId != tenantId { return false; }
      ForgetRow(row);
      return true;
    }

    method ForgetRow(row: nat)
      requires Valid() && row < |memories|
      modifies this`memories, this`memoryIndex, this`units, this`hasEmbedding, this`annDirty, this`annGeneration,
               this`removals, this`expiringMemories, ann
      ensures Valid() && UnitsExact()
      ensures memories == SwapRemove(old(memories), row)
      ensures old(annDirty) ==> annDirty && annGeneration == old(annGeneration)
    {
      hide RowsValid;
      hide AnnValid;
      hide AnnCurrent;
      hide UnitsExact;
      hide SwapRemove;
      hide Count;
      SwapRemoveCount(ExpiringMemory, memories, row);
      if HasExpiry(memories[row].expiresAt) && expiringMemories > 0 {
        expiringMemories := expiringMemories - 1;
      }
      RemoveMemoryRow(row);
    }

    lemma IndexRows()
      requires Valid()
      ensures forall id | id in memoryIndex :: memoryIndex[id] < |memories|
    {
    }

    method SetEvictionConfig(config: EvictionConfig, now: int)
      requires Valid()
      modifies this`memories, this`memoryIndex, this`units, this`hasEmbedding, this`annDirty, this`annGeneration,
               this`removals, this`expiringMemories, this`evictedMemories, ann,
               this`caches, this`cacheIndex, this`expiringCaches, this`evictedCaches, this`evictionConfig
      ensures Valid()
      ensures old(UnitsExact()) ==> UnitsExact()
      ensures evictionConfig == config.(quotas := EffectiveQuotas(config.quotas))
      ensures exists events :: Settled(old(memories), old(caches), old(evictedMemories), old(evictedCaches), events, now)
    {
      hide RowsValid;
      hide CountersValid;
      hide AnnValid;
      hide AnnCurrentFor;
      hide UnitsExact;
      hide Settled;
      hide EffectiveQuotas;
      evictionConfig := config.(quotas := EffectiveQuotas(config.quotas));
      var events := WritePass(now, memories);
    }

    method SetAnnConfig(config: AnnConfig)
      requires Valid()
      modifies this`annConfig, this`ann, this`annDirty, this`annGeneration
      ensures Valid() && annDirty
      ensures annConfig == config.(oversample := if config.oversample == 0 then 1 else config.oversample)
      ensures ann != null ==> fresh(ann)
    {
      hide RowsValid;
      hide CountersValid;
      hide AnnValid;
      hide AnnCurrentFor;
      InstallIndex(config.(oversample := if config.oversample == 0 then 1 else config.oversample), memories);
    }

    /** A new empty index; everything indexed or snapshotted before is overtaken. */
    method InstallIndex(config: AnnConfig, ghost rows: seq<Memory>)
      requires AnnValid()
      modifies this`annConfig, this`ann, this`annDirty, this`annGeneration
      ensures AnnValid() && annDirty && annConfig == config && annGeneration == old(annGeneration) + 1
      ensures AnnCurrentFor(rows)
      ensures config.mode != HnswOnly ==> ann != null
      ensures ann != null ==> fresh(ann)
    {
      hide BuildEntries;
      hide InStep;
      hide DimsOk;
      hide AnnIndex.Index.Valid;
      annConfig := config;
      var next := NewIndex(num, KindOf(config.mode), config.index);
      ann := next;
      annDirty := true;
      annGeneration := annGeneration + 1;
    }

    method GetMemory(id: string, tenantId: string) returns (r: Option<Memory>)
      requires Valid()
      ensures r.Some? <==> exists i | 0 <= i < |memories| :: memories[i].memoryId == id && (tenantId == "" || memories[i].tenantId == tenantId)
      ensures r.Some? ==> r.value in memories && r.value.memoryId == id && (tenantId == "" || r.value.tenantId == tenantId)
    {
      if id !in memoryIndex { return None; }
      var m := memories[memoryIndex[id]];
      if tenantId != "" && m.tenantId != tenantId { return None; }
      return Some(m);
    }

    // -------------------------------------------------------------------
    // Rebuilding the index off-lock.
    // -------------------------------------------------------------------

    /** The first critical section of a rebuild: what to build, if a build is due. */
    method TakeSnapshot() returns (snapshot: Option<BuildSnapshot>, ghost issue: Issue)
      requires Valid()
      modifies this`issued
      ensures Valid()
      ensures snapshot.None? <==> annConfig.mode == Off || !annDirty
      ensures snapshot.None? ==> issued == old(issued)
      ensures snapshot.Some? ==>
        && issue == Issue(snapshot.value, memories, embeddingDim, removals, increments, publishes)
        && issued == old(issued) + {issue}
        && snapshot.value.kind == KindOf(annConfig.mode) && snapshot.value.generation == annGeneration
    {
      hide Sound;
      hide IndexOk;
      hide CacheIndexOk;
      hide CacheDims;
      hide Count;
      hide InStep;
      hide BuildEntries;
      hide AnnIndex.Index.Valid;
      var s := BuildSnapshot(KindOf(annConfig.mode), annConfig.index, annGeneration, BuildEntries(memories));
      issue := Issue(s, memories, embeddingDim, removals, increments, publishes);
      if annConfig.mode == Off || (!annDirty && ann != null) { return None, issue; }
      issued := issued + {issue};
      return Some(s), issue;
    }

    /**
      The build, outside the lock, and the second critical section: the build is
      published only if no newer generation or backend superseded it.  It is right
      for the rows of that moment if since the snapshot no row was removed and
      either no other build was published or no index entry was changed in place.
     */
    method Publish(snapshot: BuildSnapshot, ghost issue: Issue) returns (ok: bool)
      requires Valid() && issue in issued && issue.snapshot == snapshot
      modifies this`ann, this`annDirty, this`annRebuilds, this`publishes, this`faithful
      ensures Valid()
      ensures ok <==> snapshot.kind != AnnIndex.Hnsw && snapshot.generation == annGeneration && snapshot.kind == KindOf(annConfig.mode)
      ensures ok ==> !annDirty && ann != null && fresh(ann) && InStep(ann, num, issue.rows)
      ensures ok && issue.removals == removals && (issue.increments == increments || issue.publishes == old(publishes)) ==>
                faithful && InStep(ann, num, memories)
      ensures ok ==> (faithful <==> issue.removals == removals && issue.increments == increments)
      ensures ok ==> (InStep(ann, num, memories) <==> SameIndex(num, issue.rows, memories))
      ensures publishes == old(publishes) + if ok then 1 else 0
      ensures !ok ==> ann == old(ann) && annDirty == old(annDirty) && faithful == old(faithful)
    {
      hide *;
      IssueParts(issue);
      if snapshot.kind == AnnIndex.Hnsw { return false; }
      var next := Build(num, snapshot.kind, snapshot.config, snapshot.entries, issue.dim, issue.rows);
      if snapshot.generation != annGeneration || snapshot.kind != KindOf(annConfig.mode) { return false; }
      Install(next, issue);
      return true;
    }

    lemma IssueParts(issue: Issue)
      requires Valid() && issue in issued
      ensures issue.snapshot.entries == BuildEntries(issue.rows) && DimsOk(issue.dim, Embeddings(issue.rows))
    {
      hide DimsOk;
      hide BuildEntries;
      assert IssueInPast(issue);
    }

    /** Makes a finished build the index. */
    method Install(next: AnnIndex.Index, ghost issue: Issue)
      requires Valid() && issue in issued && issue.snapshot.generation == annGeneration
      requires next.Valid() && next.num == num && InStep(next, num, issue.rows)
      modifies this`ann, this`annDirty, this`annRebuilds, this`publishes, this`faithful
      ensures Valid() && !annDirty && ann == next
      ensures issue.removals == removals && (issue.increments == increments || issue.publishes == old(publishes)) ==>
                faithful && InStep(ann, num, memories)
      ensures faithful <==> issue.removals == removals && issue.increments == increments
      ensures InStep(ann, num, memories) <==> SameIndex(num, issue.rows, memories)
      ensures publishes == old(publishes) + 1
    {
      hide RowsValid;
      hide CountersValid;
      hide InStep;
      hide SameIndex;
      hide BuildEntries;
      hide DimsOk;
      hide AnnIndex.Index.Valid;
      assert IssueInPast(issue) && IssueCurrent(issue, memories);
      BuiltFits(next, num, issue.rows, memories);
      ann := next;
      annDirty := false;
      annRebuilds := annRebuilds + 1;
      publishes := publishes + 1;
      faithful := issue.removals == removals && issue.increments == increments;
    }

    /** A rebuild with nothing in between: afterwards a clean index is in step. */
    method RebuildAnnIndex() returns (ok: bool)
      requires Valid()
      modifies this`issued, this`ann, this`annDirty, this`annRebuilds, this`publishes, this`faithful
      ensures Valid()
      ensures old(annDirty) && annConfig.mode != Off && KindOf(annConfig.mode) != AnnIndex.Hnsw ==>
                ok && !annDirty && faithful && ann != null && fresh(ann) && InStep(ann, num, memories)
      ensures old(faithful) ==> faithful
      ensures ann == old(ann) || (ann != null && fresh(ann))
      ensures old(issued) <= issued
    {
      hide Valid;
      hide InStep;
      var snapshot, issue := TakeSnapshot();
      if snapshot.None? { return true; }
      ok := Publish(snapshot.value, issue);
    }

    // -------------------------------------------------------------------
    // The prompt cache.
    // -------------------------------------------------------------------

    /** Writes a cache entry over the one with its key, or at the end. */
    method WriteCache(c: Cache)
      requires RowsValid() && CountersValid() && (c.embedding == [] || |c.embedding| == embeddingDim)
      modifies this`caches, this`cacheIndex, this`expiringCaches
      ensures RowsValid() && CountersValid()
      ensures caches == CacheWritten(old(caches), old(cacheIndex), c)
      ensures AnnValid() == old(AnnValid()) && AnnCurrentFor(memories) == old(AnnCurrentFor(memories)) && UnitsExact() == old(UnitsExact())
    {
      hide Sound;
      hide IndexOk;
      hide DimsOk;
      hide CacheIndexOk;
      hide CacheDims;
      hide Count;
      hide CacheKey;
      hide AnnValid;
      hide AnnCurrentFor;
      hide UnitsExact;
      var key := CacheKey(c);
      var has := HasExpiry(c.expiresAt);
      CacheRowWritten(caches, cacheIndex, c, embeddingDim);
      if key in cacheIndex {
        var row := cacheIndex[key];
        var had := HasExpiry(caches[row].expiresAt);
        CountUpdate(ExpiringCache, caches, row, c);
        caches := caches[row := c];
        if had != has {
          if has {
            expiringCaches := expiringCaches + 1;
          } else if expiringCaches > 0 {
            expiringCaches := expiringCaches - 1;
          }
        }
      } else {
        CountConcat(ExpiringCache, caches, [c]);
        CountOne(ExpiringCache, c);
        cacheIndex := cacheIndex[key := |caches|];
        caches := caches + [c];
        if has {
          expiringCaches := expiringCaches + 1;
        }
      }
    }

    /**
      Checks a cache entry's embedding.  A dimension fixed here does not resize the
      unit matrix, which stays right exactly when there are no memories yet.
     */
    method AdmitCacheEmbedding(v: Vec) returns (error: Option<StoreError>)
      requires Valid()
      modifies this`embeddingDim
      ensures Valid()
      ensures error.None? <==> Fits(old(embeddingDim), v)
      ensures embeddingDim == if error.None? then DimWith(old(embeddingDim), v) else old(embeddingDim)
      ensures old(UnitsExact()) ==> (UnitsExact() <==> embeddingDim == old(embeddingDim) || memories == [])
    {
      hide IndexOk;
      hide CacheIndexOk;
      hide CountersValid;
      hide AnnValid;
      hide AnnCurrentFor;
      hide Flat;
      var dim0 := embeddingDim;
      error := ValidateEmbedding(v);
      if dim0 == 0 && embeddingDim != 0 {
        LateDimension(num, memories, caches, embeddingDim);
        UnresizedMatrix(num, Embeddings(memories), units, hasEmbedding, embeddingDim);
      }
    }

    /** Stores or updates a cache entry. */
    method StoreCache(entry: Cache, clock: int, now: int) returns (r: StoreResult)
      requires Valid()
      modifies this`memories, this`memoryIndex, this`units, this`hasEmbedding, this`annDirty, this`annGeneration,
               this`removals, this`expiringMemories, this`evictedMemories, ann,
               this`caches, this`cacheIndex, this`expiringCaches, this`evictedCaches, this`embeddingDim, this`nextCacheId
      ensures Valid()
      ensures embeddingDim == if Fits(old(embeddingDim), entry.embedding) then DimWith(old(embeddingDim), entry.embedding) else old(embeddingDim)
      ensures r.Refused? ==> memories == old(memories) && caches == old(caches)
      ensures r.Refused? <==>
        || !Fits(old(embeddingDim), entry.embedding) || entry.prompt == "" || entry.response == "" || entry.tokenCount < 0
        || CacheOwnedByOther(old(caches), old(cacheIndex), CacheCompleted(entry, old(CacheIdFor(entry)), clock))
      ensures r.Stored? ==>
        && r.id == old(CacheIdFor(entry))
        && Settled(old(memories), CacheWritten(old(caches), old(cacheIndex), CacheCompleted(entry, r.id, clock)),
                   old(evictedMemories), old(evictedCaches), r.evictions, now)
      ensures old(UnitsExact()) ==>
        (UnitsExact() <==> embeddingDim == old(embeddingDim) || old(memories) == [] || |memories| < |old(memories)|)
    {
      hide *;
      var id := CacheIdFor(entry);
      var error := AdmitCacheEmbedding(entry.embedding);
      if error.Some? { return Refused(error.value); }
      if entry.prompt == "" { return Refused(PromptRequired); }
      if entry.response == "" { return Refused(ResponseRequired); }
      TakeCacheId(entry);
      if entry.tokenCount < 0 { return Refused(NegativeTokenCount); }
      var c := CacheCompleted(entry, id, clock);
      if CacheOwnedByOther(caches, cacheIndex, c) { return Refused(WrongTenant); }
      FitsMeans(old(embeddingDim), entry.embedding);
      var events := SettleCache(c, now);
      return Stored(id, events);
    }

    method SettleCache(c: Cache, now: int) returns (events: seq<Event>)
      requires Valid() && (c.embedding == [] || |c.embedding| == embeddingDim)
      modifies this`memories, this`memoryIndex, this`units, this`hasEmbedding, this`annDirty, this`annGeneration,
               this`removals, this`expiringMemories, this`evictedMemories, ann,
               this`caches, this`cacheIndex, this`expiringCaches, this`evictedCaches
      ensures Valid()
      ensures Settled(old(memories), CacheWritten(old(caches), old(cacheIndex), c), old(evictedMemories), old(evictedCaches), events, now)
      ensures UnitsExact() <==> old(UnitsExact()) || |memories| < |old(memories)|
    {
      hide RowsValid;
      hide CountersValid;
      hide AnnValid;
      hide AnnCurrentFor;
      hide UnitsExact;
      hide CacheWritten;
      hide AtRest;
      hide Gather;
      WriteCache(c);
      ghost var before := memories;
      events := WritePass(now, memories);
      ConservedSize(before, memories, events);
    }

    function CacheIdFor(entry: Cache): string
      reads this`idConfig, this`nextCacheId
    {
      if entry.cacheId == "" then AutoId("cache", idConfig, nextCacheId) else entry.cacheId
    }

    method TakeCacheId(entry: Cache)
      modifies this`nextCacheId
      ensures Valid() == old(Valid()) && UnitsExact() == old(UnitsExact())
    {
      hide *;
      if entry.cacheId == "" { nextCacheId := nextCacheId + 1; }
    }

    /** Removes the cache entry with a scope's key. */
    method RemoveCache(tenantId: string, namespaceId: string, prompt: string) returns (removed: bool)
      requires Valid()
      modifies this`caches, this`cacheIndex, this`expiringCaches
      ensures Valid() && UnitsExact() == old(UnitsExact())
      ensures removed <==> ScopedKey(tenantId, OrDefault(namespaceId), prompt) in old(cacheIndex)
      ensures removed ==> caches == RemoveAt(old(caches), old(cacheIndex)[ScopedKey(tenantId, OrDefault(namespaceId), prompt)])
      ensures !removed ==> caches == old(caches)
    {
      hide *;
      var key := ScopedKey(tenantId, OrDefault(namespaceId), prompt);
      CacheRows();
      if key !in cacheIndex { return false; }
      ForgetCacheRow(cacheIndex[key]);
      return true;
    }

    lemma CacheRows()
      requires Valid()
      ensures forall key | key in cacheIndex :: cacheIndex[key] < |caches|
    {
    }

    method ForgetCacheRow(row: nat)
      requires Valid() && row < |caches|
      modifies this`caches, this`cacheIndex, this`expiringCaches
      ensures Valid() && UnitsExact() == old(UnitsExact())
      ensures caches == RemoveAt(old(caches), row)
    {
      hide RowsValid;
      hide AnnValid;
      hide AnnCurrent;
      hide UnitsExact;
      hide Count;
      hide RemoveAt;
      var had := HasExpiry(caches[row].expiresAt);
      EraseCacheRow(row);
      if had && expiringCaches > 0 {
        expiringCaches := expiringCaches - 1;
      }
    }

    // -------------------------------------------------------------------
    // Undoing an eviction pass.
    // -------------------------------------------------------------------

    ghost function LiveView(): Live
      reads this`embeddingDim, this`memories, this`caches, this`evictedMemories, this`evictedCaches
    {
      Live(embeddingDim, memories, caches, evictedMemories, evictedCaches)
    }

    lemma IndexedIds(id: string)
      requires RowsValid()
      ensures id in memoryIndex <==> HasId(memories, id)
    {
    }

    lemma IndexedKeys(key: string)
      requires RowsValid()
      ensures key in cacheIndex <==> HasKey(caches, key)
    {
      hide CacheKey;
    }

    method RestoreMemory(e: Event) returns (restored: bool)
      requires e.MemoryEvicted? && RowsValid() && CountersValid()
      modifies this`memories, this`memoryIndex, this`units, this`hasEmbedding, this`expiringMemories, this`evictedMemories, this`embeddingDim
      ensures RowsValid() && CountersValid()
      ensures old(UnitsExact()) ==> UnitsExact()
      ensures LiveView() == RestoreOne(old(LiveView()), e)
      ensures |memories| == |old(memories)| + if restored then 1 else 0
      ensures !restored ==> memories == old(memories)
    {
      hide RowsValid;
      hide CountersValid;
      hide UnitsExact;
      hide HasId;
      hide Fits;
      var m := MemoryToRestore(e);
      IndexedIds(m.memoryId);
      if m.memoryId == "" || m.memoryId in memoryIndex { return false; }
      var error := AcceptEmbedding(m.embedding);
      if error.Some? { return false; }
      FitsMeans(old(embeddingDim), m.embedding);
      RestoreRow(m);
      if evictedMemories > 0 { evictedMemories := evictedMemories - 1; }
      return true;
    }

    /** AppendRow, by the store's row list only. */
    method RestoreRow(m: Memory)
      requires RowsValid() && CountersValid() && m.memoryId !in memoryIndex && (m.embedding == [] || |m.embedding| == embeddingDim)
      modifies this`memories, this`memoryIndex, this`units, this`hasEmbedding, this`expiringMemories
      ensures RowsValid() && CountersValid() && memories == old(memories) + [m]
      ensures old(UnitsExact()) ==> UnitsExact()
    {
      hide *;
      AppendRow(m);
    }

    method RestoreCache(e: Event) returns (restored: bool)
      requires e.CacheEvicted? && RowsValid() && CountersValid()
      modifies this`caches, this`cacheIndex, this`units, this`hasEmbedding, this`expiringCaches, this`evictedCaches, this`embeddingDim
      ensures RowsValid() && CountersValid()
      ensures old(UnitsExact()) ==> UnitsExact()
      ensures LiveView() == RestoreOne(old(LiveView()), e)
      ensures |caches| == |old(caches)| + if restored then 1 else 0
    {
      hide RowsValid;
      hide CountersValid;
      hide UnitsExact;
      hide AnnValid;
      hide AnnCurrentFor;
      hide HasKey;
      hide Fits;
      hide CacheKey;
      var c := CacheToRestore(e);
      IndexedKeys(CacheKey(c));
      if c.prompt == "" || CacheKey(c) in cacheIndex { return false; }
      var error := AcceptEmbedding(c.embedding);
      if error.Some? { return false; }
      FitsMeans(old(embeddingDim), c.embedding);
      WriteCache(c);
      if evictedCaches > 0 { evictedCaches := evictedCaches - 1; }
      return true;
    }

    /** Puts evicted records back, the last event first. */
    method RestoreEvicted(events: seq<Event>) returns (restored: nat)
      requires Valid()
      modifies this`memories, this`memoryIndex, this`units, this`hasEmbedding, this`expiringMemories, this`evictedMemories, this`embeddingDim,
               this`caches, this`cacheIndex, this`expiringCaches, this`evictedCaches, this`annDirty, this`annGeneration
      ensures Valid()
      ensures old(UnitsExact()) ==> UnitsExact()
      ensures LiveView() == RestoreAll(old(LiveView()), events)
      ensures restored == |memories| - |old(memories)| + |caches| - |old(caches)|
    {
      hide RowsValid;
      hide CountersValid;
      hide UnitsExact;
      hide AnnValid;
      hide AnnCurrentFor;
      hide RestoreOne;
      restored := 0;
      var restoredMemory, restoredCache := false, false;
      var left := |events|;
      assert events[..left] == events;
      while left > 0
        invariant left <= |events|
        invariant RowsValid() && CountersValid() && AnnValid() && AnnCurrentFor(old(memories))
        invariant old(UnitsExact()) ==> UnitsExact()
        invariant RestoreAll(LiveView(), events[..left]) == RestoreAll(old(LiveView()), events)
        invariant !restoredMemory ==> memories == old(memories)
        invariant restored == |memories| - |old(memories)| + |caches| - |old(caches)|
      {
        left := left - 1;
        var e := events[left];
        assert events[..left + 1][..left] == events[..left];
        var one;
        if e.MemoryEvicted? {
          one := RestoreMemory(e);
          restoredMemory := restoredMemory || one;
        } else {
          one := RestoreCache(e);
          restoredCache := restoredCache || one;
        }
        restored := restored + if one then 1 else 0;
      }
      if restoredMemory { MarkDirty(); }
      if restoredCache { Reindex(); }
    }

    /** MarkAnnDirty, with the rest of the store as it was. */
    method MarkDirty()
      requires RowsValid() && CountersValid() && AnnValid()
      modifies this`annDirty, this`annGeneration
      ensures Valid() && UnitsExact() == old(UnitsExact())
    {
      hide RowsValid;
      hide CountersValid;
      hide AnnValid;
      hide AnnCurrentFor;
      hide UnitsExact;
      MarkAnnDirty();
    }

    method Reindex()
      requires Valid()
      modifies this`cacheIndex
      ensures Valid() && UnitsExact() == old(UnitsExact())
    {
      hide CountersValid;
      hide AnnValid;
      hide AnnCurrentFor;
      hide UnitsExact;
      hide Sound;
      hide IndexOk;
      hide CacheIndexOk;
      hide DimsOk;
      hide CacheDims;
      cacheIndex := RebuildCacheIndex(caches);
    }

    // -------------------------------------------------------------------
    // The whole store at once.
    // -------------------------------------------------------------------

    constructor (num: Numerics, ranker: Ranker)
      ensures Valid() && UnitsExact() && faithful && annDirty && issued == {}
      ensures memories == [] && caches == [] && embeddingDim == 0
      ensures ann != null && fresh(ann)
    {
      this.num, this.ranker := num, ranker;
      embeddingDim, nextMemoryId, nextCacheId := 0, 1, 1;
      evictedMemories, evictedCaches, expiringMemories, expiringCaches := 0, 0, 0, 0;
      idConfig, evictionConfig, annConfig := DEFAULT_ID_CONFIG, DEFAULT_EVICTION_CONFIG, DEFAULT_ANN_CONFIG;
      units, hasEmbedding, memories, memoryIndex, caches, cacheIndex := [], [], [], map[], [], map[];
      var first := new AnnIndex.Index(num, AnnIndex.SparseProjection, DEFAULT_INDEX_CONFIG);
      ann := first;
      annDirty, annGeneration, annRebuilds, annSearches, annFallbacks := true, 0, 0, 0, 0;
      removals, increments, publishes, issued, faithful := 0, 0, 0, {}, true;
      new;
      EmptyRows(num);
    }

    method Clear()
      requires Valid()
      modifies this`embeddingDim, this`nextMemoryId, this`nextCacheId, this`memories, this`memoryIndex, this`caches, this`cacheIndex,
               this`expiringMemories, this`expiringCaches, this`units, this`hasEmbedding, this`annConfig, this`ann, this`annDirty,
               this`annGeneration, this`evictedMemories, this`evictedCaches, this`idConfig, this`evictionConfig,
               this`annRebuilds, this`annSearches, this`annFallbacks
      ensures Valid() && UnitsExact() && annDirty
      ensures memories == [] && caches == [] && embeddingDim == 0 && nextMemoryId == nextCacheId == 1
      ensures evictionConfig == DEFAULT_EVICTION_CONFIG && annConfig == DEFAULT_ANN_CONFIG && idConfig == DEFAULT_ID_CONFIG
      ensures ann != null && fresh(ann)
    {
      hide *;
      AnnPart();
      NothingToLoad();
      InstallIndex(DEFAULT_ANN_CONFIG, []);
      RefillRows(Contents(0, 1, 1, [], []), map[], map[]);
      ResetSettings();
      ResetTallies();
    }

    lemma AnnPart()
      requires Valid()
      ensures AnnValid()
    {
    }

    method ResetSettings()
      requires Valid() && UnitsExact()
      modifies this`idConfig, this`evictionConfig
      ensures Valid() && UnitsExact()
      ensures evictionConfig == DEFAULT_EVICTION_CONFIG && idConfig == DEFAULT_ID_CONFIG
    {
      hide *;
      idConfig, evictionConfig := DEFAULT_ID_CONFIG, DEFAULT_EVICTION_CONFIG;
    }

    method ResetTallies()
      requires Valid() && UnitsExact()
      modifies this`annRebuilds, this`annSearches, this`annFallbacks, this`evictedMemories, this`evictedCaches
      ensures Valid() && UnitsExact()
      ensures evictedMemories == evictedCaches == 0
    {
      hide *;
      annRebuilds, annSearches, annFallbacks := 0, 0, 0;
      evictedMemories, evictedCaches := 0, 0;
    }

    method RefillRows(c: Contents, index: map<string, nat>, keys: map<string, nat>)
      requires Loadable(c) && IndexOk(c.memories, index) && CacheIndexOk(c.caches, keys) && AnnValid() && AnnCurrentFor(c.memories)
      modifies this`embeddingDim, this`nextMemoryId, this`nextCacheId, this`memories, this`memoryIndex, this`caches, this`cacheIndex,
               this`expiringMemories, this`expiringCaches, this`units, this`hasEmbedding
      ensures Valid() && UnitsExact()
      ensures Contents(embeddingDim, nextMemoryId, nextCacheId, memories, caches) == c
    {
      hide RowsValid;
      hide CountersValid;
      hide AnnValid;
      hide AnnCurrentFor;
      hide UnitsExact;
      hide Loadable;
      ReplaceRows(c, index, keys);
      RebuildExpiryCounts();
    }

    method ReplaceRows(c: Contents, index: map<string, nat>, keys: map<string, nat>)
      requires Loadable(c) && IndexOk(c.memories, index) && CacheIndexOk(c.caches, keys)
      modifies this`embeddingDim, this`nextMemoryId, this`nextCacheId, this`memories, this`memoryIndex, this`caches, this`cacheIndex,
               this`units, this`hasEmbedding
      ensures RowsValid() && UnitsExact()
      ensures Contents(embeddingDim, nextMemoryId, nextCacheId, memories, caches) == c
    {
      hide Exact;
      hide Sound;
      hide IndexOk;
      hide CacheIndexOk;
      hide Count;
      hide MemoryDims;
      hide DimsOk;
      hide CacheDims;
      DimsOfAll(c.dim, c.memories);
      embeddingDim, nextMemoryId, nextCacheId := c.dim, c.nextMemoryId, c.nextCacheId;
      memories, memoryIndex, caches, cacheIndex := c.memories, index, c.caches, keys;
      var u, h := RebuildUnits(num, c.dim, Embeddings(c.memories));
      ExactIsSound(num, c.dim, Embeddings(c.memories), u, h);
      units, hasEmbedding := u, h;
    }

    /** Replaces the rows by a snapshot's, or leaves the store as it is. */
    method Load(c: Contents) returns (ok: bool)
      requires Valid()
      modifies this`embeddingDim, this`nextMemoryId, this`nextCacheId, this`memories, this`memoryIndex, this`caches, this`cacheIndex,
               this`expiringMemories, this`expiringCaches, this`units, this`hasEmbedding, this`annDirty, this`annGeneration
      ensures Valid()
      ensures ok <==> Loadable(c)
      ensures ok ==> UnitsExact() && annDirty && Contents(embeddingDim, nextMemoryId, nextCacheId, memories, caches) == c
      ensures !ok ==> unchanged(this)
    {
      hide *;
      var index := IndexLoaded(c.memories, c.dim);
      var dimsOk := CheckLoadedCaches(c.caches, c.dim);
      LoadableMeans(c);
      if index.None? || !dimsOk { return false; }
      var keys := RebuildCacheIndex(c.caches);
      LoadRows(c, index.value, keys);
      return true;
    }

    method LoadRows(c: Contents, index: map<string, nat>, keys: map<string, nat>)
      requires Valid() && Loadable(c) && IndexOk(c.memories, index) && CacheIndexOk(c.caches, keys)
      modifies this`embeddingDim, this`nextMemoryId, this`nextCacheId, this`memories, this`memoryIndex, this`caches, this`cacheIndex,
               this`expiringMemories, this`expiringCaches, this`units, this`hasEmbedding, this`annDirty, this`annGeneration
      ensures Valid() && UnitsExact() && annDirty
      ensures Contents(embeddingDim, nextMemoryId, nextCacheId, memories, caches) == c
    {
      hide RowsValid;
      hide CountersValid;
      hide AnnValid;
      hide AnnCurrentFor;
      hide UnitsExact;
      hide Loadable;
      ReplaceRows(c, index, keys);
      RebuildExpiryCounts();
      MarkAnnDirty();
    }

    // -------------------------------------------------------------------
    // Searching.
    // -------------------------------------------------------------------

    /** What a search sees when the rows are `rows`. */
    function View(rows: seq<Memory>): Table
      reads this`embeddingDim, this`units, this`hasEmbedding
    {
      Table(num, ranker, embeddingDim, units, hasEmbedding, rows)
    }

    /** Rows that differ in their access fields only keep every invariant. */
    lemma AlikeKeepsValid(rows: seq<Memory>)
      requires Valid() && RowsAlike(memories, rows)
      ensures IndexOk(rows, memoryIndex) && Embeddings(rows) == Embeddings(memories)
      ensures Count(ExpiringMemory, rows) == Count(ExpiringMemory, memories)
      ensures AnnCurrentFor(rows)
    {
      hide IndexOk;
      hide Count;
      hide RowsAlike;
      hide BuildEntries;
      hide Expected;
      RowsPart();
      AlikeIndex(memories, rows, memoryIndex);
      AlikeCount(memories, rows);
      AlikeSameIndex(num, memories, rows);
    }

    lemma RowsPart()
      requires Valid()
      ensures IndexOk(memories, memoryIndex)
    {
    }

    method TouchRow(row: nat, now: int)
      requires Valid() && row < |memories|
      modifies this`memories
      ensures Valid() && UnitsExact() == old(UnitsExact())
      ensures memories == old(memories)[row := Touch(old(memories)[row], now)]
    {
      hide RowsAlike;
      hide Touch;
      hide IndexOk;
      hide Sound;
      hide Exact;
      hide DimsOk;
      hide CacheDims;
      hide CacheIndexOk;
      hide Count;
      hide AnnValid;
      hide AnnCurrentFor;
      var rows := memories[row := Touch(memories[row], now)];
      TouchedAlike(memories, row, now);
      AlikeKeepsValid(rows);
      memories := rows;
    }

    lemma ViewRows(rows: seq<Memory>)
      ensures View(rows).memories == rows
    {
    }

    lemma RowsInView(p: Probe, out: seq<Candidate>)
      requires RowsOnce(View(memories), p, out)
      ensures forall k | 0 <= k < |out| :: out[k].idx < |memories|
      ensures forall j, k | 0 <= j < k < |out| :: out[j].idx != out[k].idx
    {
    }

    /** Turns ranked rows into results, touching each if the query says so. */
    method Collect(q: Query, out: seq<Candidate>, now: int) returns (hits: seq<SearchHit>)
      requires Valid()
      requires forall k | 0 <= k < |out| :: out[k].idx < |memories|
      requires forall j, k | 0 <= j < k < |out| :: out[j].idx != out[k].idx
      modifies this`memories
      ensures Valid() && UnitsExact() == old(UnitsExact())
      ensures memories == AfterSearch(old(memories), q, out, now)
      ensures HitsOf(memories, out, hits) && |hits| == |out| && |memories| == |old(memories)|
    {
      hide Valid;
      hide UnitsExact;
      hide Touch;
      hits := [];
      for k := 0 to |out|
        invariant Valid() && UnitsExact() == old(UnitsExact())
        invariant |memories| == |old(memories)|
        invariant memories == AfterSearch(old(memories), q, out[..k], now)
        invariant HitsOf(memories, out[..k], hits)
      {
        assert out[..k + 1][..k] == out[..k];
        if q.updateAccess {
          TouchRow(out[k].idx, now);
        }
        hits := hits + [SearchHit(memories[out[k].idx], out[k].key.score, out[k].similarity)];
      }
      assert out[..|out|] == out;
    }

    function ProbeOf(q: Query, clock: int): Probe {
      Probe(q, num.Unit(q.embedding), if q.now == 0 then clock else q.now)
    }

    /** The exact scan, for any number of hardware threads. */
    method SearchScan(q: Query, p: Probe, hardwareThreads: nat) returns (hits: seq<SearchHit>, ghost out: seq<Candidate>)
      requires Valid() && p.query == q && q.limit > 0
      modifies this`memories
      ensures Valid() && UnitsExact() == old(UnitsExact())
      ensures IsTopOf(out, AllMatches(View(old(memories)), p), q.limit) && Answers(View(old(memories)), p, out)
      ensures memories == AfterSearch(old(memories), q, out, p.now) && HitsOf(memories, out, hits)
    {
      hide Valid;
      hide UnitsExact;
      hide Answers;
      hide IsTopOf;
      hide AllMatches;
      hide AfterSearch;
      hide HitsOf;
      var found := Scan(View(memories), p, hardwareThreads);
      TopAnswers(View(memories), p, found);
      out := found;
      hits := Collect(q, found, p.now);
    }

    /** The rows an index proposes for a query. */
    method ProposeRows(q: Query) returns (rows: seq<nat>)
      requires AnnValid() && ann != null
      ensures AnnIndex.NoDup(rows)
    {
      hide InStep;
      hide BuildEntries;
      hide AnnIndex.Index.Valid;
      var found, scanned := ann.Search(q.tenantId + "\n" + q.namespaceId, q.embedding, CandidateLimit(q.limit, annConfig.oversample));
      rows := seq(|found|, i requires 0 <= i < |found| => found[i].row);
    }

    /** The index's proposals, filtered, ranked and touched; right if they are long enough, whatever the index holds. */
    method SearchIndex(q: Query, p: Probe) returns (hits: seq<SearchHit>, ghost out: seq<Candidate>)
      requires Valid() && p.query == q && q.limit > 0 && ann != null
      modifies this`memories
      ensures Valid() && UnitsExact() == old(UnitsExact())
      ensures RowsOnce(View(old(memories)), p, out)
      ensures |hits| >= Min(q.limit, |memories|) ==> Answers(View(old(memories)), p, out)
      ensures memories == AfterSearch(old(memories), q, out, p.now) && HitsOf(memories, out, hits)
      ensures |memories| == |old(memories)|
    {
      hide *;
      AnnPart();
      var rows := ProposeRows(q);
      var found := Rerank(View(memories), p, rows);
      if |found| >= Min(q.limit, |memories|) {
        ViewRows(memories);
        LongEnoughAnswers(View(memories), p, rows, found);
      }
      out := found;
      RowsInView(p, found);
      hits := Collect(q, found, p.now);
    }

    /**
      A search returns as many matching rows as asked for or as there are, each
      once and in rank order, whatever state the index is in.  Without the index it
      returns the best of all matching rows.  `tried` are the rows an index proposed
      that were too few to answer: they are touched all the same, and the scan that
      follows ranks the rows as that left them.
     */
    method Search(q: Query, clock: int, hardwareThreads: nat)
      returns (hits: seq<SearchHit>, ghost tried: seq<Candidate>, ghost out: seq<Candidate>)
      requires Valid()
      modifies this`memories, this`annSearches, this`annFallbacks
      ensures Valid() && UnitsExact() == old(UnitsExact())
      ensures q.limit == 0 ==> hits == [] && tried == [] && out == [] && memories == old(memories)
      ensures q.limit > 0 ==>
        var p := ProbeOf(q, clock);
        var seen := AfterSearch(old(memories), q, tried, p.now);
        && RowsOnce(View(old(memories)), p, tried)
        && Answers(View(seen), p, out)
        && memories == AfterSearch(seen, q, out, p.now) && HitsOf(memories, out, hits)
        && (old(annSearches) == annSearches ==> IsTopOf(out, AllMatches(View(seen), p), q.limit))
      ensures tried != [] || annSearches > old(annSearches) ==>
        WantsIndex(annConfig, q, |old(memories)|) && ann != null && !annDirty
      ensures tried != [] ==> annSearches == old(annSearches) && annFallbacks > old(annFallbacks)
    {
      hide Valid;
      hide UnitsExact;
      hide Answers;
      hide IsTopOf;
      hide AllMatches;
      hide HitsOf;
      hide TouchAll;
      hits, tried, out := [], [], [];
      if q.limit == 0 { return; }
      var p := ProbeOf(q, clock);
      NothingTouched(memories, p.now);
      if WantsIndex(annConfig, q, |memories|) {
        if ann != null && !annDirty {
          hits, tried := SearchIndex(q, p);
          if |hits| >= Min(q.limit, |memories|) {
            annSearches := annSearches + 1;
            out, tried := tried, [];
            return;
          }
        }
        annFallbacks := annFallbacks + 1;
      }
      hits, out := SearchScan(q, p, hardwareThreads);
    }

    /** With an exact matrix, a result's similarity is that of its own record. */
    lemma HonestSimilarity(p: Probe, out: seq<Candidate>, k: nat)
      requires Valid() && UnitsExact() && RowsOnce(View(memories), p, out) && k < |out|
      ensures out[k].similarity == RecordSimilarity(num, p.unit, memories[out[k].idx].embedding)
    {
      hide Exact;
      ExactSimilarity(num, embeddingDim, Embeddings(memories), units, hasEmbedding, out[k].idx, p.unit);
    }

    // -------------------------------------------------------------------
    // A pass and its undoing.
    // -------------------------------------------------------------------

    lemma IndexesOk()
      requires Valid()
      ensures IndexOk(memories, memoryIndex) && CacheIndexOk(caches, cacheIndex)
    {
    }

    /**
      An eviction pass and the restore of its events.  The id-to-memory map, the
      key-to-cache map and the eviction counters are as before if and only if every
      evicted record had a key, a namespace and a finite embedding and no evicted
      entry shared its key with another one.
     */
    method EvictAndRestore(now: int) returns (events: seq<Event>)
      requires Valid()
      modifies this`memories, this`memoryIndex, this`units, this`hasEmbedding, this`annDirty, this`annGeneration,
               this`removals, this`expiringMemories, this`evictedMemories, ann,
               this`caches, this`cacheIndex, this`expiringCaches, this`evictedCaches, this`embeddingDim
      ensures Valid() && old(IndexOk(memories, memoryIndex)) && old(CacheIndexOk(caches, cacheIndex))
      ensures IndexOk(memories, memoryIndex) && CacheIndexOk(caches, cacheIndex)
      ensures (forall e | e in events :: Undoable(e, old(caches))) <==>
        && IdMap(memories, memoryIndex) == old(IdMap(memories, memoryIndex)) && KeyMap(caches, cacheIndex) == old(KeyMap(caches, cacheIndex))
        && evictedMemories == old(evictedMemories) && evictedCaches == old(evictedCaches)
      ensures (forall e | e in events :: Undoable(e, old(caches))) ==>
        && multiset(memories) == multiset(old(memories)) && multiset(caches) == multiset(old(caches))
        && expiringMemories == old(expiringMemories) && expiringCaches == old(expiringCaches)
    {
      hide *;
      DistinctIds();
      IndexesOk();
      CountersPart();
      LiveFields();
      ghost var before := LiveView();
      ghost var ids, keys := memoryIndex, cacheIndex;
      events := RunPass(now);
      LiveFields();
      ghost var after := LiveView();
      PassedMeans(before, after, events);
      var restored := RestoreEvicted(events);
      RestoreUndoesPass(before, after, events);
      LiveFields();
      IndexesOk();
      CountersPart();
      SameTablesMean(LiveView(), memoryIndex, cacheIndex, before, ids, keys);
      if forall e | e in events :: Undoable(e, before.caches) {
        CountSame(ExpiringMemory, memories, before.memories);
        CountSame(ExpiringCache, caches, before.caches);
      }
    }

    lemma CountersPart()
      requires Valid()
      ensures expiringMemories == Count(ExpiringMemory, memories) && expiringCaches == Count(ExpiringCache, caches)
    {
    }

    lemma LiveFields()
      ensures LiveView() == Live(embeddingDim, memories, caches, evictedMemories, evictedCaches)
    {
    }

    lemma DistinctIds()
      requires Valid()
      ensures Distinct(IdOf, memories) && MemoryDims(embeddingDim, memories) && CacheDims(embeddingDim, caches)
    {
      DimsOfAll(embeddingDim, memories);
    }

    method RunPass(now: int) returns (events: seq<Event>)
      requires Valid()
      modifies this`memories, this`memoryIndex, this`units, this`hasEmbedding, this`annDirty, this`annGeneration,
               this`removals, this`expiringMemories, this`evictedMemories, ann,
               this`caches, this`cacheIndex, this`expiringCaches, this`evictedCaches
      ensures Valid()
      ensures Conserved(old(memories), old(caches), memories, caches, events)
      ensures evictedMemories == old(evictedMemories) + |MemoriesIn(events)| && evictedCaches == old(evictedCaches) + |CachesIn(events)|
      ensures old(UnitsExact()) ==> UnitsExact()
    {
      hide RowsValid;
      hide CountersValid;
      hide AnnValid;
      hide AnnCurrentFor;
      hide UnitsExact;
      hide AtRest;
      hide Conserved;
      hide Gather;
      events := WritePass(now, memories);
    }

    /** Drops what has expired, on request. */
    method EvictExpiredNow(now: int) returns (events: seq<Event>)
      requires Valid()
      modifies this`memories, this`memoryIndex, this`units, this`hasEmbedding, this`annDirty, this`annGeneration,
               this`removals, this`expiringMemories, this`evictedMemories, ann,
               this`caches, this`cacheIndex, this`expiringCaches, this`evictedCaches
      ensures Valid() && OnlyExpired(events, now)
      ensures Conserved(old(memories), old(caches), memories, caches, events)
      ensures NoneExpired(memories, caches, now)
      ensures old(UnitsExact()) ==> UnitsExact()
      ensures old(annDirty) ==> annDirty && annGeneration == old(annGeneration)
    {
      hide RowsValid;
      hide CountersValid;
      hide AnnValid;
      hide AnnCurrentFor;
      hide UnitsExact;
      hide OnlyExpired;
      hide Conserved;
      hide Gather;
      events := EvictExpired(now);
    }

    // -------------------------------------------------------------------
    // Looking up the prompt cache.
    // -------------------------------------------------------------------

    method GetCache(tenantId: string, namespaceId: string, prompt: string) returns (r: Option<Cache>)
      requires Valid()
      ensures r.Some? <==> HasKey(caches, ScopedKey(tenantId, OrDefault(namespaceId), prompt))
      ensures r.Some? ==> r.value in caches && CacheKey(r.value) == ScopedKey(tenantId, OrDefault(namespaceId), prompt)
    {
      var key := ScopedKey(tenantId, OrDefault(namespaceId), prompt);
      hide ScopedKey;
      hide CacheKey;
      IndexedKeys(key);
      if key !in cacheIndex { return None; }
      return Some(caches[cacheIndex[key]]);
    }

    method TouchCacheRow(row: nat, now: int)
      requires Valid() && row < |caches|
      modifies this`caches
      ensures Valid() && UnitsExact() == old(UnitsExact())
      ensures caches == old(caches)[row := TouchCache(old(caches)[row], now)]
    {
      hide Sound;
      hide IndexOk;
      hide DimsOk;
      hide CacheDims;
      hide CacheIndexOk;
      hide Count;
      hide AnnValid;
      hide AnnCurrentFor;
      hide UnitsExact;
      hide TouchCache;
      TouchedCacheCount(caches, row, now);
      TouchedCacheIndex(caches, cacheIndex, row, now, embeddingDim);
      caches := caches[row := TouchCache(caches[row], now)];
    }

    /** Answers a lookup and touches the row it answers with. */
    method LookupCache(sim: (Vec, Vec) -> real, l: Lookup) returns (r: LookupResult, ghost row: nat, ghost found: nat)
      requires Valid()
      modifies this`caches
      ensures Valid() && UnitsExact() == old(UnitsExact())
      ensures r.Miss? <==> !LiveKey(l, old(caches), cacheIndex) && forall c | c in old(caches) :: !Similar(sim, l, c)
      ensures r.Miss? ==> caches == old(caches)
      ensures r.CacheHit? ==>
        && row < |old(caches)| && Answered(sim, l, old(caches), cacheIndex, r.exact, r.score, row, found)
        && caches == old(caches)[row := TouchCache(old(caches)[row], l.now)] && r.entry == caches[row]
    {
      hide *;
      CacheRows();
      var hit;
      hit, found := Decide(sim, l, caches, cacheIndex);
      row := 0;
      if hit.None? { return Miss, row, found; }
      AnsweredRow(sim, l, caches, cacheIndex, hit.value.0, hit.value.1, hit.value.2, found);
      TouchCacheRow(hit.value.2, l.now);
      return CacheHit(hit.value.0, hit.value.1, caches[hit.value.2]), hit.value.2, found;
    }
  }
}
