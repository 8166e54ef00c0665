/**
  Whole runs of the store: any sequence of operations, with index rebuilds split
  into their two critical sections and other operations in between.
 */
module StoreRuns {
  import opened Vectors
  import opened StoreRows
  import opened Restore
  import opened AnnSync
  import opened MemorySearch
  import opened StoreSpec
  import opened MemoryStore
  import AnnIndex

  datatype Op =
    | Put(record: Memory, clock: int, now: int)
    | Remove(id: string, tenantId: string)
    | Find(query: Query, clock: int, threads: nat)
    | PutCache(entry: Cache, clock: int, now: int)
    | DropCache(tenantId: string, namespaceId: string, prompt: string)
    | LookUp(lookup: Lookup)
    | Expire(now: int)
    | SetCaps(caps: EvictionConfig, now: int)
    | SetIndex(ann: AnnConfig)
    | PutBackEvents(events: seq<Event>)
    | LoadAll(contents: Contents)
    | ClearAll
    | Rebuild
    | BeginRebuild
    | EndRebuild(which: nat)

  /** Every build under way belongs to a snapshot the store issued. */
  ghost predicate UnderWay(issued: set<Issue>, builds: seq<BuildSnapshot>, issues: seq<Issue>) {
    |issues| == |builds| && forall i | 0 <= i < |builds| :: issues[i] in issued && issues[i].snapshot == builds[i]
  }

  /** No rebuild is split by other operations. */
  predicate Sequential(ops: seq<Op>) {
    forall op | op in ops :: !op.BeginRebuild?
  }

  /** No cache entry brings an embedding. */
  predicate PlainCaches(ops: seq<Op>) {
    forall op | op in ops :: op.PutCache? ==> op.entry.embedding == []
  }

  /** A cache write that fixes the dimension of a store that already has memories. */
  predicate FixesDimensionLate(op: Op, dim: nat, rows: nat) {
    op.PutCache? && Fits(dim, op.entry.embedding) && DimWith(dim, op.entry.embedding) != dim && rows > 0
  }

  /** One operation other than a split rebuild. */
  method Do(store: AgentMemoryStore, op: Op, sim: (Vec, Vec) -> real)
    requires store.Valid() && !op.BeginRebuild? && !op.EndRebuild?
    modifies store, store.ann
    ensures store.Valid() && old(store.issued) <= store.issued
    ensures store.ann == old(store.ann) || (store.ann != null && fresh(store.ann)) || store.ann == null
    ensures old(store.faithful) ==> store.faithful
    ensures old(store.UnitsExact()) && !FixesDimensionLate(op, old(store.embeddingDim), |old(store.memories)|) ==> store.UnitsExact()
  {
    hide *;
    match op {
      case Put(record, clock, now) =>
        var r := store.PutMemory(record, clock, now);
      case Remove(id, tenantId) =>
        var r := store.RemoveMemory(id, tenantId);
      case Find(query, clock, threads) =>
        var hits, tried, out := store.Search(query, clock, threads);
      case PutCache(entry, clock, now) =>
        PutEntry(store, op);
      case DropCache(tenantId, namespaceId, prompt) =>
        var r := store.RemoveCache(tenantId, namespaceId, prompt);
      case LookUp(lookup) =>
        var r, row, found := store.LookupCache(sim, lookup);
      case Expire(now) =>
        var events := store.EvictExpiredNow(now);
      case SetCaps(_, _) => DoWhole(store, op);
      case SetIndex(_) => DoWhole(store, op);
      case PutBackEvents(_) => DoWhole(store, op);
      case LoadAll(_) => DoWhole(store, op);
      case ClearAll => DoWhole(store, op);
      case Rebuild => DoWhole(store, op);
    }
  }

  method PutEntry(store: AgentMemoryStore, op: Op)
    requires store.Valid() && op.PutCache?
    modifies store, store.ann
    ensures store.Valid() && old(store.issued) == store.issued && store.ann == old(store.ann)
    ensures old(store.faithful) ==> store.faithful
    ensures old(store.UnitsExact()) && !FixesDimensionLate(op, old(store.embeddingDim), |old(store.memories)|) ==> store.UnitsExact()
  {
    hide *;
    LateMeans(op, store.embeddingDim, |store.memories|);
    var r := store.StoreCache(op.entry, op.clock, op.now);
  }

  lemma LateMeans(op: Op, dim: nat, rows: nat)
    requires op.PutCache?
    ensures FixesDimensionLate(op, dim, rows) <==> Fits(dim, op.entry.embedding) && DimWith(dim, op.entry.embedding) != dim && rows > 0
    ensures op.entry.embedding == [] ==> !FixesDimensionLate(op, dim, rows)
  {
  }

  method DoWhole(store: AgentMemoryStore, op: Op)
    requires store.Valid() && (op.SetCaps? || op.SetIndex? || op.PutBackEvents? || op.LoadAll? || op.ClearAll? || op.Rebuild?)
    modifies store, store.ann
    ensures store.Valid() && old(store.issued) <= store.issued
    ensures store.ann == old(store.ann) || (store.ann != null && fresh(store.ann)) || store.ann == null
    ensures old(store.faithful) ==> store.faithful
    ensures old(store.UnitsExact()) ==> store.UnitsExact()
  {
    hide *;
    match op {
      case SetCaps(caps, now) =>
        store.SetEvictionConfig(caps, now);
      case SetIndex(ann) =>
        store.SetAnnConfig(ann);
      case PutBackEvents(events) =>
        var n := store.RestoreEvicted(events);
      case LoadAll(contents) =>
        var ok := store.Load(contents);
      case ClearAll =>
        store.Clear();
      case Rebuild =>
        var ok := store.RebuildAnnIndex();
    }
  }

  /** Where a store is in a run: its dimension and size, and its tallies of removals, index changes and publications. */
  datatype Mark = Mark(dim: nat, rows: nat, removals: nat, increments: nat, publishes: nat)

  ghost function MarkOf(store: AgentMemoryStore): Mark
    reads store
  {
    Mark(store.embeddingDim, |store.memories|, store.removals, store.increments, store.publishes)
  }

  lemma MarkIs(store: AgentMemoryStore)
    ensures MarkOf(store) == Mark(store.embeddingDim, |store.memories|, store.removals, store.increments, store.publishes)
  {
  }

  /** No row was removed between two moments, and no other build published or no index entry changed. */
  predicate Quiet(a: Mark, b: Mark) {
    a.removals == b.removals && (a.increments == b.increments || a.publishes == b.publishes)
  }

  /** Operation j ended a build, which was published. */
  predicate Publishes(op: Op, begun: seq<nat>, j: nat, before: Mark, after: Mark) {
    op.EndRebuild? && op.which < |begun| && begun[op.which] < j && after.publishes > before.publishes
  }

  /** Every build published by one of the operations had quiet from its beginning to its end. */
  predicate BuildsUndisturbed(ops: seq<Op>, marks: seq<Mark>, begun: seq<nat>)
    requires |marks| == |ops| + 1
  {
    forall j | 0 <= j < |ops| && Publishes(ops[j], begun, j, marks[j], marks[j + 1]) :: Quiet(marks[begun[ops[j].which]], marks[j])
  }

  predicate NeverLate(ops: seq<Op>, marks: seq<Mark>)
    requires |marks| == |ops| + 1
  {
    forall i | 0 <= i < |ops| :: !FixesDimensionLate(ops[i], marks[i].dim, marks[i].rows)
  }

  /** Builds were begun by operations of the run so far. */
  predicate BegunIn(ops: seq<Op>, begun: seq<nat>) {
    forall b | 0 <= b < |begun| :: begun[b] < |ops| && ops[begun[b]].BeginRebuild?
  }

  /**
    Any run keeps the store's invariants: ids and rows in bijection, the unit
    matrix never wrong where it is read, the expiry counters, and an index that, when
    clean and last published from the rows it was published over, holds exactly the
    rows it should.

    `marks` tells where the store was before each operation and at the end, `begun`
    which operation began each build.  A clean index holds exactly the rows it should
    if every published build had quiet from its beginning to its end: no row removed,
    and no other build published or no index entry changed.  So it does if no rebuild is
    split.  The unit matrix stays exact unless a cache write fixed the dimension late.
   */
  method Run(store: AgentMemoryStore, ops: seq<Op>, sim: (Vec, Vec) -> real) returns (ghost marks: seq<Mark>, ghost begun: seq<nat>)
    requires store.Valid()
    modifies store, store.ann
    ensures store.Valid()
    ensures |marks| == |ops| + 1 && marks[0] == old(MarkOf(store)) && marks[|ops|] == MarkOf(store) && BegunIn(ops, begun)
    ensures BuildsUndisturbed(ops, marks, begun) && old(store.faithful) && !store.annDirty ==>
      store.ann != null && InStep(store.ann, store.num, store.memories)
    ensures Sequential(ops) && old(store.faithful) && !store.annDirty ==> store.ann != null && InStep(store.ann, store.num, store.memories)
    ensures old(store.UnitsExact()) && NeverLate(ops, marks) ==> store.UnitsExact()
    ensures old(store.UnitsExact()) && PlainCaches(ops) ==> store.UnitsExact()
  {
    hide *;
    marks, begun := [MarkOf(store)], [];
    NothingYet(marks);
    var builds: seq<BuildSnapshot>, n := [], 0;
    ghost var issues: seq<Issue> := [];
    NoneUnderWay(store.issued);
    assert ops[..0] == [];
    while n < |ops|
      invariant n <= |ops| && store.Valid()
      invariant store.ann == old(store.ann) || store.ann == null || fresh(store.ann)
      invariant UnderWay(store.issued, builds, issues) && Marked(issues, begun, marks) && BegunIn(ops[..n], begun)
      invariant |marks| == n + 1 && marks[0] == old(MarkOf(store)) && marks[n] == MarkOf(store)
      invariant Sequential(ops) ==> begun == []
      invariant BuildsUndisturbed(ops[..n], marks, begun) && old(store.faithful) ==> store.faithful
      invariant PlainCaches(ops) ==> NeverLate(ops[..n], marks)
      invariant old(store.UnitsExact()) && NeverLate(ops[..n], marks) ==> store.UnitsExact()
    {
      builds, issues, marks, begun := Next(store, ops, n, builds, issues, marks, begun, sim);
      n := n + 1;
    }
    assert ops[..n] == ops;
    CleanIsInStep(store);
    NoneSplit(ops, marks);
  }

  lemma NoneSplit(ops: seq<Op>, marks: seq<Mark>)
    requires |marks| == |ops| + 1
    ensures BuildsUndisturbed(ops, marks, [])
  {
  }

  lemma NotSplitHere(ops: seq<Op>, n: nat)
    requires n < |ops| && Sequential(ops)
    ensures !ops[n].BeginRebuild?
  {
    assert ops[n] in ops;
  }

  /** The build of every issue began where the marks say. */
  ghost predicate Marked(issues: seq<Issue>, begun: seq<nat>, marks: seq<Mark>) {
    && |issues| == |begun|
    && forall b | 0 <= b < |begun| :: begun[b] < |marks|
         && issues[b].removals == marks[begun[b]].removals && issues[b].increments == marks[begun[b]].increments
         && issues[b].publishes == marks[begun[b]].publishes
  }

  /** One step of a run. */
  method Next(store: AgentMemoryStore, ops: seq<Op>, n: nat, builds: seq<BuildSnapshot>, ghost issues: seq<Issue>,
              ghost marks: seq<Mark>, ghost begun: seq<nat>, sim: (Vec, Vec) -> real)
      returns (builds': seq<BuildSnapshot>, ghost issues': seq<Issue>, ghost marks': seq<Mark>, ghost begun': seq<nat>)
    requires store.Valid() && n < |ops| && |marks| == n + 1 && marks[n] == MarkOf(store)
    requires UnderWay(store.issued, builds, issues) && Marked(issues, begun, marks) && BegunIn(ops[..n], begun)
    modifies store, store.ann
    ensures store.Valid() && UnderWay(store.issued, builds', issues') && Marked(issues', begun', marks') && BegunIn(ops[..n + 1], begun')
    ensures store.ann == old(store.ann) || (store.ann != null && fresh(store.ann)) || store.ann == null
    ensures marks' == marks + [MarkOf(store)]
    ensures Sequential(ops) ==> begun' == begun
    ensures BuildsUndisturbed(ops[..n + 1], marks', begun') ==> BuildsUndisturbed(ops[..n], marks, begun)
    ensures BuildsUndisturbed(ops[..n + 1], marks', begun') && old(store.faithful) ==> store.faithful
    ensures NeverLate(ops[..n + 1], marks') ==> NeverLate(ops[..n], marks)
    ensures NeverLate(ops[..n], marks) && PlainCaches(ops) ==> NeverLate(ops[..n + 1], marks')
    ensures old(store.UnitsExact()) && NeverLate(ops[..n + 1], marks') ==> store.UnitsExact()
  {
    hide *;
    var op := ops[n];
    builds', issues', begun' := builds, issues, begun;
    MarkIs(store);
    if op.BeginRebuild? {
      if Sequential(ops) { NotSplitHere(ops, n); }
      builds', issues', begun' := Begin(store, n, builds, issues, marks, begun);
    } else if op.EndRebuild? {
      if op.which < |builds| {
        IssueOf(store.issued, builds, issues, op.which);
        var ok := store.Publish(builds[op.which], issues[op.which]);
        if ok { EndsQuietly(ops, n, issues, marks, begun, store.publishes); }
      }
    } else {
      ghost var before := store.issued;
      Do(store, op, sim);
      StillUnderWay(before, store.issued, builds, issues);
    }
    MarkIs(store);
    marks' := marks + [MarkOf(store)];
    OneMark(ops, n, issues', marks, begun, begun', MarkOf(store));
    LateOnce(ops, n, marks, MarkOf(store));
  }

  lemma NothingYet(marks: seq<Mark>)
    requires |marks| == 1
    ensures BuildsUndisturbed([], marks, []) && NeverLate([], marks) && Marked([], [], marks) && BegunIn([], [])
  {
  }

  /** A build published by operation n after quiet was issued under the same tallies. */
  lemma EndsQuietly(ops: seq<Op>, n: nat, issues: seq<Issue>, marks: seq<Mark>, begun: seq<nat>, publishes: nat)
    requires n < |ops| && |marks| == n + 1 && ops[n].EndRebuild? && ops[n].which < |issues| && publishes > marks[n].publishes
    requires Marked(issues, begun, marks) && BegunIn(ops[..n], begun)
    ensures forall m: Mark | m.publishes == publishes && BuildsUndisturbed(ops[..n + 1], marks + [m], begun) ::
      var issue := issues[ops[n].which];
      issue.removals == marks[n].removals && (issue.increments == marks[n].increments || issue.publishes == marks[n].publishes)
  {
    forall m: Mark | m.publishes == publishes && BuildsUndisturbed(ops[..n + 1], marks + [m], begun)
      ensures var issue := issues[ops[n].which];
        issue.removals == marks[n].removals && (issue.increments == marks[n].increments || issue.publishes == marks[n].publishes)
    {
      var more := marks + [m];
      assert more[n] == marks[n] && more[n + 1] == m && more[begun[ops[n].which]] == marks[begun[ops[n].which]];
      assert Publishes(ops[..n + 1][n], begun, n, more[n], more[n + 1]);
    }
  }

  lemma OneMark(ops: seq<Op>, n: nat, issues: seq<Issue>, marks: seq<Mark>, begun: seq<nat>, begun': seq<nat>, m: Mark)
    requires n < |ops| && |marks| == n + 1 && Marked(issues, begun', marks) && BegunIn(ops[..n], begun)
    requires begun' == begun || (ops[n].BeginRebuild? && begun' == begun + [n])
    ensures Marked(issues, begun', marks + [m]) && BegunIn(ops[..n + 1], begun')
    ensures BuildsUndisturbed(ops[..n + 1], marks + [m], begun') ==> BuildsUndisturbed(ops[..n], marks, begun)
    ensures !ops[n].EndRebuild? && BuildsUndisturbed(ops[..n], marks, begun) ==> BuildsUndisturbed(ops[..n + 1], marks + [m], begun')
  {
    var all, more := ops[..n + 1], marks + [m];
    assert forall i | 0 <= i < n :: all[i] == ops[..n][i];
    assert forall i | 0 <= i <= n :: more[i] == marks[i];
    hide Quiet;
    if BuildsUndisturbed(all, more, begun') {
      forall j | 0 <= j < n && Publishes(ops[..n][j], begun, j, marks[j], marks[j + 1])
        ensures Quiet(marks[begun[ops[..n][j].which]], marks[j])
      {
        assert Publishes(all[j], begun', j, more[j], more[j + 1]);
      }
    }
  }

  lemma LateOnce(ops: seq<Op>, n: nat, marks: seq<Mark>, m: Mark)
    requires n < |ops| && |marks| == n + 1
    ensures NeverLate(ops[..n + 1], marks + [m]) <==>
      NeverLate(ops[..n], marks) && !FixesDimensionLate(ops[n], marks[n].dim, marks[n].rows)
    ensures PlainCaches(ops) ==> !FixesDimensionLate(ops[n], marks[n].dim, marks[n].rows)
    ensures !ops[n].PutCache? ==> !FixesDimensionLate(ops[n], marks[n].dim, marks[n].rows)
  {
    hide FixesDimensionLate;
    var all, more := ops[..n + 1], marks + [m];
    assert forall i | 0 <= i < n :: all[i] == ops[..n][i];
    assert forall i | 0 <= i <= n :: more[i] == marks[i];
    assert all[n] == ops[n];
    assert ops[n] in ops;
    if ops[n].PutCache? { LateMeans(ops[n], marks[n].dim, marks[n].rows); } else { NotLate(ops[n], marks[n].dim, marks[n].rows); }
  }

  lemma NotLate(op: Op, dim: nat, rows: nat)
    requires !op.PutCache?
    ensures !FixesDimensionLate(op, dim, rows)
  {
  }

  lemma NoneUnderWay(issued: set<Issue>)
    ensures UnderWay(issued, [], [])
  {
  }

  lemma IssueOf(issued: set<Issue>, builds: seq<BuildSnapshot>, issues: seq<Issue>, i: nat)
    requires UnderWay(issued, builds, issues) && i < |builds|
    ensures i < |issues| && issues[i] in issued && issues[i].snapshot == builds[i]
  {
  }

  lemma StillUnderWay(issued: set<Issue>, more: set<Issue>, builds: seq<BuildSnapshot>, issues: seq<Issue>)
    requires UnderWay(issued, builds, issues) && issued <= more
    ensures UnderWay(more, builds, issues)
  {
  }

  lemma CleanIsInStep(store: AgentMemoryStore)
    requires store.Valid()
    ensures !store.annDirty && store.faithful ==> store.ann != null && InStep(store.ann, store.num, store.memories)
  {
  }

  method Begin(store: AgentMemoryStore, n: nat, builds: seq<BuildSnapshot>, ghost issues: seq<Issue>, ghost marks: seq<Mark>, ghost begun: seq<nat>)
    returns (builds': seq<BuildSnapshot>, ghost issues': seq<Issue>, ghost begun': seq<nat>)
    requires store.Valid() && UnderWay(store.issued, builds, issues) && Marked(issues, begun, marks)
    requires |marks| == n + 1 && marks[n] == MarkOf(store)
    modifies store`issued
    ensures store.Valid() && UnderWay(store.issued, builds', issues') && Marked(issues', begun', marks)
    ensures begun' == begun || begun' == begun + [n]
    ensures store.UnitsExact() == old(store.UnitsExact())
  {
    hide AgentMemoryStore.Valid;
    hide AgentMemoryStore.UnitsExact;
    var snapshot, issue := store.TakeSnapshot();
    if snapshot.None? { return builds, issues, begun; }
    return builds + [snapshot.value], issues + [issue], begun + [n];
  }

  // ---------------------------------------------------------------------
  // Removals behind a rebuild's back.
  // ---------------------------------------------------------------------

  lemma {:induction false} OneMoreRemoval(ms: seq<Memory>, rows: seq<nat>, row: nat)
    requires CanRemove(ms, rows) && row < |RemoveRows(ms, rows)|
    ensures CanRemove(ms, rows + [row]) && RemoveRows(ms, rows + [row]) == SwapRemove(RemoveRows(ms, rows), row)
    decreases |rows|
  {
    var more := rows + [row];
    if rows == [] {
      assert more[1..] == [];
    } else {
      assert more[1..] == rows[1..] + [row];
      OneMoreRemoval(SwapRemove(ms, rows[0]), rows[1..], row);
    }
  }

  /** Removes memories by id; with a dirty index the generation stays where it is. */
  method RemoveEach(store: AgentMemoryStore, ids: seq<string>) returns (ghost rows: seq<nat>)
    requires store.Valid() && store.annDirty
    modifies store`memories, store`memoryIndex, store`units, store`hasEmbedding, store`annDirty, store`annGeneration,
             store`removals, store`expiringMemories, store.ann
    ensures store.Valid() && store.annDirty && store.annGeneration == old(store.annGeneration)
    ensures CanRemove(old(store.memories), rows) && store.memories == RemoveRows(old(store.memories), rows)
  {
    NoRemoval(store.memories);
    hide *;
    rows := [];
    for n := 0 to |ids|
      invariant store.Valid() && store.annDirty && store.annGeneration == old(store.annGeneration)
      invariant CanRemove(old(store.memories), rows) && store.memories == RemoveRows(old(store.memories), rows)
    {
      ghost var index := store.memoryIndex;
      store.IndexRows();
      var removed := store.RemoveMemory(ids[n], "");
      if removed {
        OneMoreRemoval(old(store.memories), rows, index[ids[n]]);
        rows := rows + [index[ids[n]]];
      }
    }
  }

  lemma NoRemoval(ms: seq<Memory>)
    ensures CanRemove(ms, []) && RemoveRows(ms, []) == ms
  {
  }

  /**
    Removals while a rebuild is under way do not move the generation, so the build
    is published over them.  The clean index is then in step exactly when no removal
    dropped or renumbered an indexed row.
   */
  method RemoveDuringRebuild(store: AgentMemoryStore, ids: seq<string>) returns (ghost rows: seq<nat>)
    requires store.Valid() && store.annDirty && store.annConfig.mode != Off && store.annConfig.mode != HnswOnly
    modifies store, store.ann
    ensures store.Valid() && !store.annDirty && store.ann != null
    ensures CanRemove(old(store.memories), rows) && store.memories == RemoveRows(old(store.memories), rows)
    ensures InStep(store.ann, store.num, store.memories) <==> AllHarmless(store.num, old(store.memories), rows)
  {
    hide *;
    Buildable(store.annConfig.mode);
    var snapshot, issue := store.TakeSnapshot();
    rows := RemoveEach(store, ids);
    PublishOver(store, snapshot.value, issue, rows);
  }

  /**
    The same for expiry: the build is published over the evictions, and is in step
    exactly when the rows kept call for the same entries, so never when an evicted
    memory had one.
   */
  method EvictDuringRebuild(store: AgentMemoryStore, now: int) returns (events: seq<Event>)
    requires store.Valid() && store.annDirty && store.annConfig.mode != Off && store.annConfig.mode != HnswOnly
    modifies store, store.ann
    ensures store.Valid() && !store.annDirty && store.ann != null
    ensures Conserved(old(store.memories), old(store.caches), store.memories, store.caches, events) && OnlyExpired(events, now)
    ensures InStep(store.ann, store.num, store.memories) <==> SameIndex(store.num, old(store.memories), store.memories)
    ensures forall m | m in MemoriesIn(events) && store.num.Unit(m.embedding) != [] :: !InStep(store.ann, store.num, store.memories)
  {
    hide *;
    Buildable(store.annConfig.mode);
    var snapshot, issue := store.TakeSnapshot();
    ghost var before := store.memories;
    events := store.EvictExpiredNow(now);
    ghost var after := store.memories;
    var ok := store.Publish(snapshot.value, issue);
    forall m | m in MemoriesIn(events) && store.num.Unit(m.embedding) != [] ensures !SameIndex(store.num, before, after) {
      EvictedRowShows(store.num, before, old(store.caches), after, store.caches, events, m);
    }
  }

  lemma EvictedRowShows(num: Numerics, ms: seq<Memory>, cs: seq<Cache>, ms': seq<Memory>, cs': seq<Cache>, events: seq<Event>, m: Memory)
    requires Conserved(ms, cs, ms', cs', events) && m in MemoriesIn(events) && num.Unit(m.embedding) != []
    ensures !SameIndex(num, ms, ms')
  {
    LostRowShows(num, ms, ms', MemoriesIn(events), m);
    hide SameIndex;
  }

  /**
    Two builds begun together.  The first is published, a memory is stored, and, if
    the index took it in place, the second is published over it all the same: the
    clean index has lost the new row.
   */
  method PublishTwice(store: AgentMemoryStore, record: Memory, clock: int, now: int) returns (r: StoreResult, again: bool)
    requires store.Valid() && store.annDirty && store.annConfig.mode != Off && store.annConfig.mode != HnswOnly
    modifies store, store.ann
    ensures store.Valid()
    ensures again ==>
      && !store.annDirty && store.ann != null
      && (InStep(store.ann, store.num, store.memories) <==> SameIndex(store.num, old(store.memories), store.memories))
    ensures again && r.Stored? && store.memories == old(store.memories) + [Completed(record, r.id, clock)] && store.num.Unit(record.embedding) != [] ==>
      !InStep(store.ann, store.num, store.memories)
    ensures !again ==> store.annDirty
  {
    hide *;
    Buildable(store.annConfig.mode);
    ghost var before := store.memories;
    var first, issue1 := store.TakeSnapshot();
    var second, issue2 := store.TakeSnapshot();
    var ok := store.Publish(first.value, issue1);
    r, again := PutThenPublish(store, record, clock, now, second.value, issue2);
    if r.Stored? && store.num.Unit(record.embedding) != [] {
      NewRowShows(store.num, before, record, r.id, clock);
    }
  }

  method PutThenPublish(store: AgentMemoryStore, record: Memory, clock: int, now: int, snapshot: BuildSnapshot, ghost issue: Issue)
      returns (r: StoreResult, again: bool)
    requires store.Valid() && issue in store.issued && issue.snapshot == snapshot && !store.annDirty
    requires snapshot.kind != AnnIndex.Hnsw && snapshot.kind == KindOf(store.annConfig.mode) && snapshot.generation == store.annGeneration
    modifies store, store.ann
    ensures store.Valid()
    ensures again ==>
      && !store.annDirty && store.ann != null
      && (InStep(store.ann, store.num, store.memories) <==> SameIndex(store.num, issue.rows, store.memories))
    ensures !again ==> store.annDirty
  {
    hide *;
    r := store.PutMemory(record, clock, now);
    again := store.Publish(snapshot, issue);
  }

  lemma NewRowShows(num: Numerics, ms: seq<Memory>, record: Memory, id: string, clock: int)
    requires num.Unit(record.embedding) != []
    ensures !SameIndex(num, ms, ms + [Completed(record, id, clock)])
  {
    hide PartitionKey;
    var m := Completed(record, id, clock);
    assert (ms + [m])[|ms|] == m;
    assert Expected(num, ms, PartitionKey(m), |ms|) != Expected(num, ms + [m], PartitionKey(m), |ms|);
  }

  /** The second half of a rebuild, with only removals since the first. */
  method PublishOver(store: AgentMemoryStore, snapshot: BuildSnapshot, ghost issue: Issue, ghost rows: seq<nat>)
    requires store.Valid() && issue in store.issued && issue.snapshot == snapshot
    requires snapshot.kind != AnnIndex.Hnsw && snapshot.kind == KindOf(store.annConfig.mode) && snapshot.generation == store.annGeneration
    requires CanRemove(issue.rows, rows) && store.memories == RemoveRows(issue.rows, rows)
    modifies store`ann, store`annDirty, store`annRebuilds, store`publishes, store`faithful
    ensures store.Valid() && !store.annDirty && store.ann != null
    ensures InStep(store.ann, store.num, store.memories) <==> AllHarmless(store.num, issue.rows, rows)
  {
    hide *;
    var ok := store.Publish(snapshot, issue);
    SnapshotSurvivesRemovals(store.num, issue.rows, rows);
  }

  lemma Buildable(mode: AnnMode)
    ensures mode != HnswOnly <==> KindOf(mode) != AnnIndex.Hnsw
  {
  }
}
