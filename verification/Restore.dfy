/**
  Eviction events and their undoing.

  A pass that removes rows reports each as an event carrying the removed record.
  Restoring walks the events backwards and puts back what it can.
 */
module Restore {
  import opened Vectors
  import opened Records
  import opened StoreRows
  import opened UnitMatrix

  datatype Event =
    | MemoryEvicted(memoryId: string, tenantId: string, namespaceId: string, memory: Memory)
    | CacheEvicted(tenantId: string, namespaceId: string, prompt: string, cache: Cache)

  function MemoryEvent(m: Memory): Event {
    MemoryEvicted(m.memoryId, m.tenantId, m.namespaceId, m)
  }

  function CacheEvent(c: Cache): Event {
    CacheEvicted(c.tenantId, c.namespaceId, c.prompt, c)
  }

  predicate Genuine(events: seq<Event>) {
    forall e | e in events :: e == if e.MemoryEvicted? then MemoryEvent(e.memory) else CacheEvent(e.cache)
  }

  function Gather<T>(part: Event -> seq<T>, events: seq<Event>): (xs: seq<T>) {
    if events == [] then [] else Gather(part, events[..|events| - 1]) + part(events[|events| - 1])
  }

  const MemoryPart: Event -> seq<Memory> := (e: Event) => if e.MemoryEvicted? then [e.memory] else []
  const CachePart: Event -> seq<Cache> := (e: Event) => if e.CacheEvicted? then [e.cache] else []

  function MemoriesIn(events: seq<Event>): (ms: seq<Memory>) {
    Gather(MemoryPart, events)
  }

  function CachesIn(events: seq<Event>): (cs: seq<Cache>) {
    Gather(CachePart, events)
  }

  lemma GatherAppend<T>(part: Event -> seq<T>, events: seq<Event>, e: Event)
    ensures Gather(part, events + [e]) == Gather(part, events) + part(e)
  {
    assert (events + [e])[..|events|] == events;
  }

  lemma {:induction false} GatherConcat<T>(part: Event -> seq<T>, a: seq<Event>, b: seq<Event>)
    ensures Gather(part, a + b) == Gather(part, a) + Gather(part, b)
  {
    if b == [] {
      assert a + b == a;
    } else {
      var n := |b| - 1;
      GatherConcat(part, a, b[..n]);
      GatherAppend(part, a + b[..n], b[n]);
      assert a + b == a + b[..n] + [b[n]];
      ConcatAssoc(Gather(part, a), Gather(part, b[..n]), part(b[n]));
    }
  }

  // ---------------------------------------------------------------------
  // The restore.
  // ---------------------------------------------------------------------

  datatype Live = Live(dim: nat, memories: seq<Memory>, caches: seq<Cache>, evictedMemories: nat, evictedCaches: nat)

  /** An embedding the store accepts: none, or finite and of the store's dimension if that is fixed. */
  predicate Fits(dim: nat, v: Vec) {
    v == [] || (AllFinite(v) && (dim == 0 || |v| == dim))
  }

  function DimWith(dim: nat, v: Vec): nat {
    if dim == 0 then |v| else dim
  }

  predicate HasId(ms: seq<Memory>, id: string) {
    exists i | 0 <= i < |ms| :: ms[i].memoryId == id
  }

  predicate HasKey(cs: seq<Cache>, key: string) {
    exists i | 0 <= i < |cs| :: CacheKey(cs[i]) == key
  }

  function MemoryToRestore(e: Event): Memory
    requires e.MemoryEvicted?
  {
    var m := e.memory;
    m.(memoryId := if m.memoryId == "" then e.memoryId else m.memoryId, namespaceId := OrDefault(m.namespaceId))
  }

  function CacheToRestore(e: Event): Cache
    requires e.CacheEvicted?
  {
    var c := e.cache;
    c.(prompt := if c.prompt == "" then e.prompt else c.prompt,
       tenantId := if c.tenantId == "" then e.tenantId else c.tenantId,
       namespaceId := if c.namespaceId == "" then OrDefault(e.namespaceId) else c.namespaceId)
  }

  function Less(n: nat): nat {
    if n > 0 then n - 1 else 0
  }

  function RestoreOne(l: Live, e: Event): Live {
    if e.MemoryEvicted? then
      var m := MemoryToRestore(e);
      if m.memoryId == "" || HasId(l.memories, m.memoryId) || !Fits(l.dim, m.embedding) then l
      else l.(dim := DimWith(l.dim, m.embedding), memories := l.memories + [m], evictedMemories := Less(l.evictedMemories))
    else
      var c := CacheToRestore(e);
      if c.prompt == "" || HasKey(l.caches, CacheKey(c)) || !Fits(l.dim, c.embedding) then l
      else l.(dim := DimWith(l.dim, c.embedding), caches := l.caches + [c], evictedCaches := Less(l.evictedCaches))
  }

  /** Last event first. */
  function RestoreAll(l: Live, events: seq<Event>): Live
    decreases |events|
  {
    if events == [] then l else RestoreAll(RestoreOne(l, events[|events| - 1]), events[..|events| - 1])
  }

  // ---------------------------------------------------------------------
  // Distinct keys.
  // ---------------------------------------------------------------------

  const IdOf: Memory -> string := (m: Memory) => m.memoryId
  const KeyOf: Cache -> string := (c: Cache) => CacheKey(c)

  predicate Distinct<T>(key: T -> string, s: seq<T>) {
    forall i, j | 0 <= i < j < |s| :: key(s[i]) != key(s[j])
  }

  function Keyed<T>(key: T -> string, k: string): T -> bool {
    (x: T) => key(x) == k
  }

  /** Key to record. */
  function MapOf<T>(key: T -> string, s: seq<T>): map<string, T>
    requires Distinct(key, s)
  {
    map i | 0 <= i < |s| :: key(s[i]) := s[i]
  }

  lemma {:induction false} DistinctCount<T>(key: T -> string, s: seq<T>, k: string)
    requires Distinct(key, s)
    ensures Count(Keyed(key, k), s) <= 1
  {
    if s != [] {
      var n := |s| - 1;
      DistinctCount(key, s[..n], k);
      if key(s[n]) == k {
        CountPositive(Keyed(key, k), s[..n]);
        assert forall i | 0 <= i < n :: s[..n][i] == s[i];
      }
    }
  }

  lemma CountTwo<T>(p: T -> bool, s: seq<T>, i: nat, j: nat)
    requires i < j < |s| && p(s[i]) && p(s[j])
    ensures Count(p, s) >= 2
  {
    assert s == s[..j] + s[j..];
    CountConcat(p, s[..j], s[j..]);
    assert s[..j][i] == s[i] && s[j..][0] == s[j];
    CountPositive(p, s[..j]);
    CountPositive(p, s[j..]);
  }

  lemma DistinctSame<T>(key: T -> string, a: seq<T>, b: seq<T>)
    requires Distinct(key, a) && multiset(a) == multiset(b)
    ensures Distinct(key, b)
  {
    forall i, j | 0 <= i < j < |b| ensures key(b[i]) != key(b[j]) {
      var p := Keyed(key, key(b[i]));
      DistinctCount(key, a, key(b[i]));
      CountSame(p, a, b);
      if p(b[j]) {
        CountTwo(p, b, i, j);
      }
    }
  }

  lemma MapSame<T>(key: T -> string, a: seq<T>, b: seq<T>)
    requires Distinct(key, a) && Distinct(key, b) && multiset(a) == multiset(b)
    ensures MapOf(key, a) == MapOf(key, b)
  {
    MapPart(key, a, b);
    MapPart(key, b, a);
    hide MapOf;
    hide Distinct;
  }

  lemma MapPart<T>(key: T -> string, a: seq<T>, b: seq<T>)
    requires Distinct(key, a) && Distinct(key, b) && multiset(a) == multiset(b)
    ensures forall k | k in MapOf(key, a) :: k in MapOf(key, b) && MapOf(key, b)[k] == MapOf(key, a)[k]
  {
    forall k | k in MapOf(key, a) ensures k in MapOf(key, b) && MapOf(key, b)[k] == MapOf(key, a)[k] {
      var i :| 0 <= i < |a| && key(a[i]) == k;
      assert MapOf(key, a)[k] == a[i];
      assert a[i] in multiset(b);
      var j :| 0 <= j < |b| && b[j] == a[i];
      assert MapOf(key, b)[key(b[j])] == b[j];
    }
  }

  lemma MapHas<T>(key: T -> string, a: seq<T>, b: seq<T>, x: T)
    requires Distinct(key, a) && Distinct(key, b) && MapOf(key, a) == MapOf(key, b) && x in a
    ensures x in b
  {
    var i :| 0 <= i < |a| && a[i] == x;
    assert key(x) in MapOf(key, a) && MapOf(key, a)[key(x)] == x;
  }

  // ---------------------------------------------------------------------
  // Keys that may repeat: the last record with a key is the one it names.
  // ---------------------------------------------------------------------

  function LastWith<T>(key: T -> string, s: seq<T>, k: string): (r: Option<T>)
    ensures r.Some? ==> r.value in s && key(r.value) == k
  {
    if s == [] then None
    else if key(s[|s| - 1]) == k then Some(s[|s| - 1])
    else LastWith(key, s[..|s| - 1], k)
  }

  /** The same keys name the same records. */
  ghost predicate SameNamed<T>(key: T -> string, a: seq<T>, b: seq<T>) {
    forall k: string :: LastWith(key, a, k) == LastWith(key, b, k)
  }

  lemma {:induction false} LastAmongMore<T>(key: T -> string, s: seq<T>, more: seq<T>, k: string)
    requires Count(Keyed(key, k), more) == 0
    ensures LastWith(key, s + more, k) == LastWith(key, s, k)
    decreases |more|
  {
    if more == [] {
      assert s + more == s;
    } else {
      var n := |more| - 1;
      assert (s + more)[..|s + more| - 1] == s + more[..n];
      LastAmongMore(key, s, more[..n], k);
    }
  }

  lemma {:induction false} NoLast<T>(key: T -> string, s: seq<T>, k: string)
    ensures LastWith(key, s, k).None? <==> Count(Keyed(key, k), s) == 0
  {
    if s != [] {
      NoLast(key, s[..|s| - 1], k);
    }
  }

  /** A record alone with its key is the one the key names. */
  lemma {:induction false} OnlyOne<T>(key: T -> string, s: seq<T>, x: T)
    requires x in s && Count(Keyed(key, key(x)), s) <= 1
    ensures LastWith(key, s, key(x)) == Some(x)
  {
    var n := |s| - 1;
    assert s == s[..n] + [s[n]];
    if s[n] != x {
      if key(s[n]) == key(x) {
        CountPositive(Keyed(key, key(x)), s[..n]);
        assert false;
      } else {
        OnlyOne(key, s[..n], x);
      }
    }
  }

  /** Some records of a sequence, in its order. */
  predicate InOrder<T(==)>(part: seq<T>, whole: seq<T>)
    decreases |whole|
  {
    if part == [] then true
    else if whole == [] then false
    else
      var p, w := |part| - 1, |whole| - 1;
      (part[p] == whole[w] && InOrder(part[..p], whole[..w])) || InOrder(part, whole[..w])
  }

  lemma {:induction false} InOrderSelf<T>(s: seq<T>)
    ensures InOrder(s, s)
  {
    if s != [] {
      InOrderSelf(s[..|s| - 1]);
    }
  }

  lemma InOrderMore<T>(part: seq<T>, whole: seq<T>, x: T)
    requires InOrder(part, whole)
    ensures InOrder(part, whole + [x]) && InOrder(part + [x], whole + [x])
  {
    assert (part + [x])[..|part|] == part && (whole + [x])[..|whole|] == whole;
  }

  lemma {:induction false} InOrderTwice<T>(a: seq<T>, b: seq<T>, c: seq<T>)
    requires InOrder(a, b) && InOrder(b, c)
    ensures InOrder(a, c)
    decreases |c|
  {
    if a != [] {
      var c', b', a' := c[..|c| - 1], b[..|b| - 1], a[..|a| - 1];
      if InOrder(b, c') {
        InOrderTwice(a, b, c');
      } else if a[|a| - 1] == b[|b| - 1] && InOrder(a', b') {
        InOrderTwice(a', b', c');
      } else {
        InOrderTwice(a, b', c');
      }
    }
  }

  lemma {:induction false} InOrderWithout<T>(s: seq<T>, row: nat)
    requires row < |s|
    ensures InOrder(s[..row] + s[row + 1..], s)
  {
    hide InOrder;
    var n := |s| - 1;
    var init := s[..n];
    assert s == init + [s[n]];
    if row == n {
      assert s[..row] + s[row + 1..] == init;
      InOrderSelf(init);
      InOrderMore(init, init, s[n]);
    } else {
      var part := init[..row] + init[row + 1..];
      InOrderWithout(init, row);
      InOrderMore(part, init, s[n]);
      assert s[row + 1..] == init[row + 1..] + [s[n]];
      assert s[..row] + s[row + 1..] == part + [s[n]];
    }
  }

  lemma {:induction false} InOrderCount<T>(p: T -> bool, part: seq<T>, whole: seq<T>)
    requires InOrder(part, whole)
    ensures Count(p, part) <= Count(p, whole)
    decreases |whole|
  {
    if part != [] {
      var part', whole' := part[..|part| - 1], whole[..|whole| - 1];
      if InOrder(part, whole') {
        InOrderCount(p, part, whole');
      } else {
        InOrderCount(p, part', whole');
      }
    }
  }

  /** If all records with a key are still there, the key names the same one. */
  lemma {:induction false} LastKept<T>(key: T -> string, part: seq<T>, whole: seq<T>, k: string)
    requires InOrder(part, whole) && Count(Keyed(key, k), part) == Count(Keyed(key, k), whole)
    ensures LastWith(key, part, k) == LastWith(key, whole, k)
    decreases |whole|
  {
    var p := Keyed(key, k);
    if whole != [] {
      var whole' := whole[..|whole| - 1];
      if part == [] {
        NoLast(key, whole, k);
      } else if InOrder(part, whole') {
        InOrderCount(p, part, whole');
        LastKept(key, part, whole', k);
      } else {
        LastKept(key, part[..|part| - 1], whole', k);
      }
    }
  }

  // ---------------------------------------------------------------------
  // Undoing a pass.
  // ---------------------------------------------------------------------

  /** What an event must carry to come back as it was. */
  predicate Restorable(e: Event) {
    if e.MemoryEvicted? then RestorableMemory(e.memory) else RestorableCache(e.cache)
  }

  predicate RestorableMemory(m: Memory) {
    m.memoryId != "" && m.namespaceId != "" && AllFinite(m.embedding)
  }

  predicate RestorableCache(c: Cache) {
    c.prompt != "" && c.namespaceId != "" && AllFinite(c.embedding)
  }

  predicate MemoryDims(dim: nat, ms: seq<Memory>) {
    forall m | m in ms :: m.embedding == [] || |m.embedding| == dim
  }

  predicate CacheDims(dim: nat, cs: seq<Cache>) {
    forall c | c in cs :: c.embedding == [] || |c.embedding| == dim
  }

  /** The rows before a pass are the rows after it and the rows in its events; caches stay in order. */
  ghost predicate Conserved(ms: seq<Memory>, cs: seq<Cache>, ms': seq<Memory>, cs': seq<Cache>, events: seq<Event>) {
    && Genuine(events)
    && multiset(ms) == multiset(ms') + multiset(MemoriesIn(events))
    && multiset(cs) == multiset(cs') + multiset(CachesIn(events)) && InOrder(cs', cs)
  }

  lemma HasIdCount(ms: seq<Memory>, id: string)
    ensures HasId(ms, id) <==> Count(Keyed(IdOf, id), ms) > 0
  {
    CountPositive(Keyed(IdOf, id), ms);
  }

  lemma HasKeyCount(cs: seq<Cache>, key: string)
    ensures HasKey(cs, key) <==> Count(Keyed(KeyOf, key), cs) > 0
  {
    CountPositive(Keyed(KeyOf, key), cs);
  }

  /** The records given have keys of their own, none of them in s. */
  ghost predicate Fresh<T>(key: T -> string, s: seq<T>, xs: seq<T>) {
    Distinct(key, xs) && forall x | x in xs :: Count(Keyed(key, key(x)), s) == 0
  }

  lemma FreshNext<T>(key: T -> string, s: seq<T>, xs: seq<T>, x: T)
    ensures Fresh(key, s, xs + [x]) <==> Count(Keyed(key, key(x)), s) == 0 && Fresh(key, s + [x], xs)
  {
    var all := xs + [x];
    assert forall i | 0 <= i < |xs| :: all[i] == xs[i];
    assert all[|xs|] == x;
    forall y | y in xs ensures Count(Keyed(key, key(y)), s + [x]) == Count(Keyed(key, key(y)), s) + if key(x) == key(y) then 1 else 0 {
      CountConcat(Keyed(key, key(y)), s, [x]);
      CountOne(Keyed(key, key(y)), x);
    }
    hide Count;
    if Fresh(key, s, all) {
      forall y | y in xs ensures key(y) != key(x) {
        var i :| 0 <= i < |xs| && xs[i] == y;
        assert key(all[i]) != key(all[|xs|]);
      }
      forall i, j | 0 <= i < j < |xs| ensures key(xs[i]) != key(xs[j]) { assert key(all[i]) != key(all[j]); }
      forall y | y in xs ensures Count(Keyed(key, key(y)), s) == 0 { assert y in all; }
      assert x in all;
    }
    if Count(Keyed(key, key(x)), s) == 0 && Fresh(key, s + [x], xs) {
      forall i, j | 0 <= i < j < |all| ensures key(all[i]) != key(all[j]) {
        if j == |xs| { assert xs[i] in xs; }
      }
    }
  }

  /** The memories and caches given can be put back: their keys are free and they fit. */
  ghost predicate Free(l: Live, ms: seq<Memory>, cs: seq<Cache>) {
    && Fresh(IdOf, l.memories, ms) && Fresh(KeyOf, l.caches, cs)
    && MemoryDims(l.dim, ms) && CacheDims(l.dim, cs)
  }

  lemma RestoreOneMemory(l: Live, m: Memory, rest: seq<Memory>)
    requires RestorableMemory(m) && Fresh(IdOf, l.memories, rest + [m]) && MemoryDims(l.dim, rest + [m])
    ensures RestoreOne(l, MemoryEvent(m)) == l.(memories := l.memories + [m], evictedMemories := Less(l.evictedMemories))
    ensures Fresh(IdOf, l.memories + [m], rest) && MemoryDims(l.dim, rest)
  {
    FreshNext(IdOf, l.memories, rest, m);
    hide Fresh;
    HasIdCount(l.memories, m.memoryId);
    assert m in rest + [m];
    assert MemoryToRestore(MemoryEvent(m)) == m;
  }

  lemma RestoreOneCache(l: Live, c: Cache, rest: seq<Cache>)
    requires RestorableCache(c) && Fresh(KeyOf, l.caches, rest + [c]) && CacheDims(l.dim, rest + [c])
    ensures RestoreOne(l, CacheEvent(c)) == l.(caches := l.caches + [c], evictedCaches := Less(l.evictedCaches))
    ensures Fresh(KeyOf, l.caches + [c], rest) && CacheDims(l.dim, rest)
  {
    FreshNext(KeyOf, l.caches, rest, c);
    hide Fresh;
    HasKeyCount(l.caches, CacheKey(c));
    assert c in rest + [c];
    assert CacheToRestore(CacheEvent(c)) == c;
  }

  /** They were put back behind what was there, and the eviction counters taken back with them. */
  ghost predicate PutBack(l: Live, ms: seq<Memory>, cs: seq<Cache>, l': Live) {
    && l'.dim == l.dim
    && multiset(l'.memories) == multiset(l.memories) + multiset(ms)
    && multiset(l'.caches) == multiset(l.caches) + multiset(cs) && l.caches <= l'.caches
    && (l.evictedMemories >= |ms| ==> l'.evictedMemories == l.evictedMemories - |ms|)
    && (l.evictedCaches >= |cs| ==> l'.evictedCaches == l.evictedCaches - |cs|)
  }

  lemma PutBackMemory(l: Live, m: Memory, rest: seq<Memory>, cs: seq<Cache>, l': Live)
    requires RestorableMemory(m) && Free(l, rest + [m], cs)
    ensures Free(RestoreOne(l, MemoryEvent(m)), rest, cs)
    ensures PutBack(RestoreOne(l, MemoryEvent(m)), rest, cs, l') ==> PutBack(l, rest + [m], cs, l')
  {
    hide Fresh;
    RestoreOneMemory(l, m, rest);
    hide RestoreOne;
  }

  lemma PutBackCache(l: Live, c: Cache, rest: seq<Cache>, ms: seq<Memory>, l': Live)
    requires RestorableCache(c) && Free(l, ms, rest + [c])
    ensures Free(RestoreOne(l, CacheEvent(c)), ms, rest)
    ensures PutBack(RestoreOne(l, CacheEvent(c)), ms, rest, l') ==> PutBack(l, ms, rest + [c], l')
  {
    hide Fresh;
    RestoreOneCache(l, c, rest);
    hide RestoreOne;
  }

  /** Restorable events with keys of their own all come back. */
  lemma {:induction false} RestoresAll(l: Live, events: seq<Event>)
    requires Genuine(events) && forall e | e in events :: Restorable(e)
    requires Free(l, MemoriesIn(events), CachesIn(events))
    ensures PutBack(l, MemoriesIn(events), CachesIn(events), RestoreAll(l, events))
    decreases |events|
  {
    if events != [] {
      var e, rest, l' := events[|events| - 1], events[..|events| - 1], RestoreAll(l, events);
      assert e in events;
      hide Free;
      hide PutBack;
      hide RestoreOne;
      if e.MemoryEvicted? {
        assert MemoriesIn(events) == MemoriesIn(rest) + [e.memory] && CachesIn(events) == CachesIn(rest);
        PutBackMemory(l, e.memory, MemoriesIn(rest), CachesIn(rest), l');
      } else {
        assert CachesIn(events) == CachesIn(rest) + [e.cache] && MemoriesIn(events) == MemoriesIn(rest);
        PutBackCache(l, e.cache, CachesIn(rest), MemoriesIn(rest), l');
      }
      RestoresAll(RestoreOne(l, e), rest);
    }
  }

  /** No memory comes back that is not restorable, and ids stay distinct. */
  lemma {:induction false} RestoresOnlyRestorable(l: Live, events: seq<Event>)
    requires Genuine(events) && Distinct(IdOf, l.memories)
    ensures var l' := RestoreAll(l, events);
      && Distinct(IdOf, l'.memories) && (forall m | m in l'.memories :: m in l.memories || RestorableMemory(m))
    decreases |events|
  {
    if events != [] {
      var e, rest := events[|events| - 1], events[..|events| - 1];
      assert e in events;
      OneMemoryBack(l, e);
      RestoresOnlyRestorable(RestoreOne(l, e), rest);
      hide RestoreOne;
    }
  }

  lemma OneMemoryBack(l: Live, e: Event)
    requires Genuine([e]) && Distinct(IdOf, l.memories)
    ensures var l' := RestoreOne(l, e);
      && Distinct(IdOf, l'.memories) && (forall m | m in l'.memories :: m in l.memories || RestorableMemory(m))
  {
    assert e in [e];
  }

  lemma NotBoth<T>(key: T -> string, all: seq<T>, kept: seq<T>, gone: seq<T>, x: T)
    requires Distinct(key, all) && multiset(all) == multiset(kept) + multiset(gone) && x in gone
    ensures x in all && x !in kept
  {
    assert x in multiset(all);
    if x in kept {
      var p := Keyed(key, key(x));
      DistinctCount(key, all, key(x));
      assert multiset(all) == multiset(kept + gone);
      CountSame(p, all, kept + gone);
      var i :| 0 <= i < |kept| && kept[i] == x;
      var j :| 0 <= j < |gone| && gone[j] == x;
      assert (kept + gone)[i] == x && (kept + gone)[|kept| + j] == x;
      CountTwo(p, kept + gone, i, |kept| + j);
    }
  }

  /** Records alone with their keys among all are fresh to those kept, and the other way round. */
  lemma SoleIsFresh<T>(key: T -> string, all: seq<T>, kept: seq<T>, gone: seq<T>)
    requires multiset(all) == multiset(kept) + multiset(gone)
    ensures Fresh(key, kept, gone) <==> forall x | x in gone :: Count(Keyed(key, key(x)), all) == 1
  {
    forall x | x in gone
      ensures Count(Keyed(key, key(x)), all) == Count(Keyed(key, key(x)), kept) + Count(Keyed(key, key(x)), gone)
      ensures Count(Keyed(key, key(x)), gone) > 0
    {
      assert multiset(all) == multiset(kept + gone);
      CountSame(Keyed(key, key(x)), all, kept + gone);
      CountConcat(Keyed(key, key(x)), kept, gone);
      CountPositive(Keyed(key, key(x)), gone);
      assert Keyed(key, key(x))(x);
    }
    if Fresh(key, kept, gone) {
      forall x | x in gone ensures Count(Keyed(key, key(x)), all) == 1 { DistinctCount(key, gone, key(x)); }
    }
    if forall x | x in gone :: Count(Keyed(key, key(x)), all) == 1 {
      forall i, j | 0 <= i < j < |gone| ensures key(gone[i]) != key(gone[j]) {
        assert gone[i] in gone;
        if key(gone[i]) == key(gone[j]) { CountTwo(Keyed(key, key(gone[i])), gone, i, j); }
      }
    }
    hide Count;
  }

  lemma DistinctSole<T>(key: T -> string, all: seq<T>, gone: seq<T>)
    requires Distinct(key, all) && forall x | x in gone :: x in all
    ensures forall x | x in gone :: Count(Keyed(key, key(x)), all) == 1
  {
    forall x | x in gone ensures Count(Keyed(key, key(x)), all) == 1 {
      DistinctCount(key, all, key(x));
      CountPositive(Keyed(key, key(x)), all);
      assert Keyed(key, key(x))(x);
    }
  }

  lemma {:induction false} GatherHas<T>(part: Event -> seq<T>, events: seq<Event>, x: T)
    ensures x in Gather(part, events) <==> exists e | e in events :: x in part(e)
  {
    if events != [] {
      var n := |events| - 1;
      GatherHas(part, events[..n], x);
      assert events == events[..n] + [events[n]];
    }
  }

  // ---------------------------------------------------------------------
  // Which caches come back.
  // ---------------------------------------------------------------------

  /** The entry as a restore writes it. */
  function Formed(c: Cache): Cache {
    c.(namespaceId := OrDefault(c.namespaceId))
  }

  function AllFormed(cs: seq<Cache>): (fs: seq<Cache>)
    ensures |fs| == |cs| && forall i | 0 <= i < |cs| :: fs[i] == Formed(cs[i])
  {
    seq(|cs|, i requires 0 <= i < |cs| => Formed(cs[i]))
  }

  predicate Takable(c: Cache) {
    c.prompt != "" && AllFinite(c.embedding)
  }

  lemma OneCacheBack(l: Live, c: Cache)
    requires CacheDims(l.dim, [c])
    ensures var l' := RestoreOne(l, CacheEvent(c));
      if Takable(c) && Count(Keyed(KeyOf, CacheKey(Formed(c))), l.caches) == 0
      then l' == l.(caches := l.caches + [Formed(c)], evictedCaches := Less(l.evictedCaches))
      else l' == l
  {
    assert CacheToRestore(CacheEvent(c)) == Formed(c);
    HasKeyCount(l.caches, CacheKey(Formed(c)));
    assert c in [c];
    hide CacheKey;
    hide Count;
  }

  lemma OneMemoryLeavesCaches(l: Live, e: Event)
    requires e.MemoryEvicted? && Genuine([e]) && MemoryDims(l.dim, [e.memory])
    ensures var l' := RestoreOne(l, e); l'.caches == l.caches && l'.dim == l.dim && l'.evictedCaches == l.evictedCaches
  {
    assert e in [e];
    assert e.memory in [e.memory];
  }

  /** How many caches came back, and that each took one off the counter. */
  ghost predicate Counted(l: Live, gone: nat, l': Live) {
    && |l.caches| <= |l'.caches| <= |l.caches| + gone
    && (l.evictedCaches >= gone ==> l'.evictedCaches == l.evictedCaches - (|l'.caches| - |l.caches|))
  }

  /** If every evicted cache came back, each was takable and fresh under the key it came back with. */
  lemma {:induction false} AllCameBack(l: Live, events: seq<Event>)
    requires Genuine(events) && MemoryDims(l.dim, MemoriesIn(events)) && CacheDims(l.dim, CachesIn(events))
    ensures var l', gone := RestoreAll(l, events), CachesIn(events);
      && Counted(l, |gone|, l')
      && (|l'.caches| == |l.caches| + |gone| ==>
            && Fresh(KeyOf, l.caches, AllFormed(gone)) && (forall c | c in gone :: Takable(c))
            && multiset(l'.caches) == multiset(l.caches) + multiset(AllFormed(gone)))
    decreases |events|
  {
    if events == [] {
      assert AllFormed([]) == [];
    } else {
      var e, rest := events[|events| - 1], events[..|events| - 1];
      assert e in events;
      if e.MemoryEvicted? {
        assert MemoriesIn(events) == MemoriesIn(rest) + [e.memory] && CachesIn(events) == CachesIn(rest);
        LastDims(l.dim, MemoriesIn(rest), e.memory);
        OneMemoryLeavesCaches(l, e);
        hide RestoreOne;
        AllCameBack(RestoreOne(l, e), rest);
      } else {
        assert CachesIn(events) == CachesIn(rest) + [e.cache] && MemoriesIn(events) == MemoriesIn(rest);
        LastCacheDims(l.dim, CachesIn(rest), e.cache);
        OneCacheBack(l, e.cache);
        hide RestoreOne;
        hide Gather;
        AllCameBack(RestoreOne(l, e), rest);
        OneMoreCameBack(l, RestoreOne(l, e), RestoreAll(l, events), CachesIn(rest), e.cache);
      }
    }
  }

  lemma LastDims(dim: nat, ms: seq<Memory>, m: Memory)
    requires MemoryDims(dim, ms + [m])
    ensures MemoryDims(dim, ms) && MemoryDims(dim, [m])
  {
    assert forall x | x in ms :: x in ms + [m];
    assert m in ms + [m];
  }

  lemma LastCacheDims(dim: nat, cs: seq<Cache>, c: Cache)
    requires CacheDims(dim, cs + [c])
    ensures CacheDims(dim, cs) && CacheDims(dim, [c])
  {
    assert forall x | x in cs :: x in cs + [c];
    assert c in cs + [c];
  }

  lemma OneMoreCameBack(l: Live, l1: Live, l': Live, rest: seq<Cache>, c: Cache)
    requires if Takable(c) && Count(Keyed(KeyOf, CacheKey(Formed(c))), l.caches) == 0
      then l1 == l.(caches := l.caches + [Formed(c)], evictedCaches := Less(l.evictedCaches))
      else l1 == l
    requires Counted(l1, |rest|, l')
    requires |l'.caches| == |l1.caches| + |rest| ==>
      && Fresh(KeyOf, l1.caches, AllFormed(rest)) && (forall x | x in rest :: Takable(x))
      && multiset(l'.caches) == multiset(l1.caches) + multiset(AllFormed(rest))
    ensures Counted(l, |rest| + 1, l')
    ensures |l'.caches| == |l.caches| + |rest| + 1 ==>
      && Fresh(KeyOf, l.caches, AllFormed(rest + [c])) && (forall x | x in rest + [c] :: Takable(x))
      && multiset(l'.caches) == multiset(l.caches) + multiset(AllFormed(rest + [c]))
  {
    hide Takable;
    hide Formed;
    hide CacheKey;
    hide Count;
    FreshNext(KeyOf, l.caches, AllFormed(rest), Formed(c));
    assert AllFormed(rest + [c]) == AllFormed(rest) + [Formed(c)];
    hide Fresh;
    hide AllFormed;
    assert multiset(AllFormed(rest) + [Formed(c)]) == multiset(AllFormed(rest)) + multiset{Formed(c)};
  }

  // ---------------------------------------------------------------------
  // The whole undoing.
  // ---------------------------------------------------------------------

  /** An event the restore undoes: a record that comes back as it was, and no other entry had its key. */
  ghost predicate Undoable(e: Event, caches: seq<Cache>) {
    Restorable(e) && (e.CacheEvicted? ==> Count(Keyed(KeyOf, CacheKey(e.cache)), caches) == 1)
  }

  /** The id-to-memory map, the key-to-cache map and the eviction counters are the same. */
  ghost predicate SameTables(a: Live, b: Live)
    requires Distinct(IdOf, a.memories) && Distinct(IdOf, b.memories)
  {
    && MapOf(IdOf, a.memories) == MapOf(IdOf, b.memories) && SameNamed(KeyOf, a.caches, b.caches)
    && a.evictedMemories == b.evictedMemories && a.evictedCaches == b.evictedCaches
  }

  /** A pass: what it kept, what its events hold and what it counted. */
  ghost predicate Passed(before: Live, after: Live, events: seq<Event>) {
    && Conserved(before.memories, before.caches, after.memories, after.caches, events)
    && Distinct(IdOf, before.memories)
    && MemoryDims(before.dim, before.memories) && CacheDims(before.dim, before.caches) && after.dim == before.dim
    && after.evictedMemories == before.evictedMemories + |MemoriesIn(events)|
    && after.evictedCaches == before.evictedCaches + |CachesIn(events)|
  }

  lemma PassedMeans(before: Live, after: Live, events: seq<Event>)
    ensures Passed(before, after, events) <==>
      && Conserved(before.memories, before.caches, after.memories, after.caches, events)
      && Distinct(IdOf, before.memories)
      && MemoryDims(before.dim, before.memories) && CacheDims(before.dim, before.caches) && after.dim == before.dim
      && after.evictedMemories == before.evictedMemories + |MemoriesIn(events)|
      && after.evictedCaches == before.evictedCaches + |CachesIn(events)|
  {
  }

  lemma DistinctPart<T>(key: T -> string, all: seq<T>, kept: seq<T>, gone: seq<T>)
    requires Distinct(key, all) && multiset(all) == multiset(kept) + multiset(gone)
    ensures Distinct(key, kept)
  {
    assert multiset(all) == multiset(kept + gone);
    DistinctSame(key, all, kept + gone);
    forall i, j | 0 <= i < j < |kept| ensures key(kept[i]) != key(kept[j]) {
      assert (kept + gone)[i] == kept[i] && (kept + gone)[j] == kept[j];
    }
  }

  lemma PassDims(before: Live, after: Live, events: seq<Event>)
    requires Passed(before, after, events)
    ensures MemoryDims(after.dim, MemoriesIn(events)) && CacheDims(after.dim, CachesIn(events))
    ensures forall m | m in MemoriesIn(events) :: m in before.memories
    ensures forall c | c in CachesIn(events) :: c in before.caches
  {
    forall m | m in MemoriesIn(events) ensures m in before.memories && (m.embedding == [] || |m.embedding| == before.dim) {
      assert m in multiset(before.memories);
    }
    forall c | c in CachesIn(events) ensures c in before.caches && (c.embedding == [] || |c.embedding| == before.dim) {
      assert c in multiset(before.caches);
    }
  }

  lemma CacheIsGone(events: seq<Event>, c: Cache)
    requires Genuine(events) && c in CachesIn(events)
    ensures CacheEvent(c) in events
  {
    GatherHas(CachePart, events, c);
    var e :| e in events && c in CachePart(e);
  }

  lemma EventIsGone(events: seq<Event>, e: Event)
    requires e in events
    ensures e.MemoryEvicted? ==> e.memory in MemoriesIn(events)
    ensures e.CacheEvicted? ==> e.cache in CachesIn(events)
  {
    if e.MemoryEvicted? {
      assert e.memory in MemoryPart(e);
      GatherHas(MemoryPart, events, e.memory);
    } else {
      assert e.cache in CachePart(e);
      GatherHas(CachePart, events, e.cache);
    }
  }

  lemma UndoableIsFree(before: Live, after: Live, events: seq<Event>)
    requires Passed(before, after, events) && forall e | e in events :: Undoable(e, before.caches)
    ensures Free(after, MemoriesIn(events), CachesIn(events))
    ensures forall c | c in CachesIn(events) :: Count(Keyed(KeyOf, CacheKey(c)), before.caches) == 1
  {
    hide Gather;
    hide Distinct;
    hide Fresh;
    PassDims(before, after, events);
    DistinctSole(IdOf, before.memories, MemoriesIn(events));
    SoleIsFresh(IdOf, before.memories, after.memories, MemoriesIn(events));
    forall c | c in CachesIn(events) ensures Count(Keyed(KeyOf, CacheKey(c)), before.caches) == 1 {
      CacheIsGone(events, c);
    }
    SoleIsFresh(KeyOf, before.caches, after.caches, CachesIn(events));
    hide Count;
  }

  /** What is put back behind the entries kept leaves every key naming the same entry. */
  lemma SameCachesNamed(all: seq<Cache>, kept: seq<Cache>, gone: seq<Cache>, back: seq<Cache>)
    requires multiset(all) == multiset(kept) + multiset(gone) && InOrder(kept, all)
    requires kept <= back && multiset(back) == multiset(all)
    requires forall c | c in gone :: Count(Keyed(KeyOf, CacheKey(c)), all) == 1
    ensures SameNamed(KeyOf, back, all)
  {
    hide CacheKey;
    hide LastWith;
    hide InOrder;
    forall k: string ensures LastWith(KeyOf, back, k) == LastWith(KeyOf, all, k) {
      CountSame(Keyed(KeyOf, k), back, all);
      if Count(Keyed(KeyOf, k), all) == 0 {
        NoLast(KeyOf, all, k);
        NoLast(KeyOf, back, k);
      } else if Count(Keyed(KeyOf, k), all) == 1 {
        NoLast(KeyOf, all, k);
        var x := LastWith(KeyOf, all, k).value;
        assert x in multiset(back);
        OnlyOne(KeyOf, back, x);
      } else {
        NoneGone(all, kept, gone, k);
        LastKept(KeyOf, kept, all, k);
        assert back == kept + back[|kept|..];
        CountConcat(Keyed(KeyOf, k), kept, back[|kept|..]);
        LastAmongMore(KeyOf, kept, back[|kept|..], k);
      }
    }
  }

  lemma NoneGone(all: seq<Cache>, kept: seq<Cache>, gone: seq<Cache>, k: string)
    requires multiset(all) == multiset(kept) + multiset(gone) && Count(Keyed(KeyOf, k), all) > 1
    requires forall c | c in gone :: Count(Keyed(KeyOf, CacheKey(c)), all) == 1
    ensures Count(Keyed(KeyOf, k), kept) == Count(Keyed(KeyOf, k), all)
  {
    hide CacheKey;
    assert multiset(all) == multiset(kept + gone);
    CountSame(Keyed(KeyOf, k), all, kept + gone);
    CountConcat(Keyed(KeyOf, k), kept, gone);
    CountPositive(Keyed(KeyOf, k), gone);
  }

  lemma UndoableComesBack(before: Live, after: Live, events: seq<Event>)
    requires Passed(before, after, events) && forall e | e in events :: Undoable(e, before.caches)
    ensures var l := RestoreAll(after, events);
      && Distinct(IdOf, l.memories) && SameTables(l, before)
      && multiset(l.memories) == multiset(before.memories) && multiset(l.caches) == multiset(before.caches)
  {
    hide Distinct;
    hide MapOf;
    hide RestoreAll;
    hide Gather;
    hide Free;
    hide InOrder;
    hide SameNamed;
    hide Restorable;
    hide CacheKey;
    var l := RestoreAll(after, events);
    UndoableIsFree(before, after, events);
    RestoresAll(after, events);
    DistinctSame(IdOf, before.memories, l.memories);
    MapSame(IdOf, l.memories, before.memories);
    SameCachesNamed(before.caches, after.caches, CachesIn(events), l.caches);
  }

  lemma MemoryCameBack(before: Live, after: Live, events: seq<Event>, m: Memory)
    requires Passed(before, after, events) && m in MemoriesIn(events)
    requires var l := RestoreAll(after, events); Distinct(IdOf, l.memories) && MapOf(IdOf, l.memories) == MapOf(IdOf, before.memories)
    ensures RestorableMemory(m)
  {
    hide Gather;
    hide RestoreAll;
    hide CacheDims;
    hide InOrder;
    var l := RestoreAll(after, events);
    DistinctPart(IdOf, before.memories, after.memories, MemoriesIn(events));
    RestoresOnlyRestorable(after, events);
    NotBoth(IdOf, before.memories, after.memories, MemoriesIn(events), m);
    MapHas(IdOf, before.memories, l.memories, m);
    hide Distinct;
    hide MapOf;
  }

  /** If all came back and every key names the same entry, no entry came back under another namespace. */
  lemma CameBackAsItWas(all: seq<Cache>, kept: seq<Cache>, gone: seq<Cache>, back: seq<Cache>, i: nat)
    requires multiset(all) == multiset(kept) + multiset(gone) && Fresh(KeyOf, kept, AllFormed(gone))
    requires multiset(back) == multiset(kept) + multiset(AllFormed(gone)) && SameNamed(KeyOf, back, all) && i < |gone|
    ensures gone[i].namespaceId != ""
  {
    hide CacheKey;
    hide LastWith;
    var forms := AllFormed(gone);
    var r := forms[i];
    var k := KeyOf(r);
    assert r in forms;
    AloneInBack(kept, forms, back, r);
    assert LastWith(KeyOf, back, k) == LastWith(KeyOf, all, k);
    assert r in multiset(all);
    if r in kept {
      CountPositive(Keyed(KeyOf, k), kept);
      assert Keyed(KeyOf, k)(r);
    } else {
      assert r in multiset(gone);
      var j :| 0 <= j < |gone| && gone[j] == r;
      assert forms[j] == r;
      hide Count;
      if i != j { assert false; }
    }
  }

  lemma AloneInBack(kept: seq<Cache>, forms: seq<Cache>, back: seq<Cache>, r: Cache)
    requires Fresh(KeyOf, kept, forms) && multiset(back) == multiset(kept) + multiset(forms) && r in forms
    ensures LastWith(KeyOf, back, KeyOf(r)) == Some(r)
  {
    hide CacheKey;
    var k := KeyOf(r);
    assert multiset(back) == multiset(kept + forms);
    CountSame(Keyed(KeyOf, k), back, kept + forms);
    CountConcat(Keyed(KeyOf, k), kept, forms);
    DistinctCount(KeyOf, forms, k);
    assert r in multiset(back);
    OnlyOne(KeyOf, back, r);
  }

  lemma SameTablesUndoable(before: Live, after: Live, events: seq<Event>)
    requires Passed(before, after, events)
    requires var l := RestoreAll(after, events); Distinct(IdOf, l.memories) && SameTables(l, before)
    ensures forall c | c in CachesIn(events) :: RestorableCache(c) && Count(Keyed(KeyOf, CacheKey(c)), before.caches) == 1
  {
    hide Gather;
    hide RestoreAll;
    hide MapOf;
    hide Distinct;
    hide InOrder;
    hide SameNamed;
    hide MemoryDims;
    hide CacheDims;
    hide Fresh;
    hide AllFinite;
    hide CacheKey;
    var l, gone := RestoreAll(after, events), CachesIn(events);
    PassDims(before, after, events);
    AllCameBack(after, events);
    forall i | 0 <= i < |gone| ensures gone[i].namespaceId != "" {
      CameBackAsItWas(before.caches, after.caches, gone, l.caches, i);
    }
    assert AllFormed(gone) == gone;
    SoleIsFresh(KeyOf, before.caches, after.caches, gone);
    hide Count;
  }

  /**
    Restoring the events of a pass brings back the id-to-memory map, the
    key-to-cache map and the eviction counters of before the pass if and only if
    every evicted record had a key, a namespace and a finite embedding and no
    evicted cache entry shared its key; then the rows are the same collection again.
   */
  lemma RestoreUndoesPass(before: Live, after: Live, events: seq<Event>)
    requires Passed(before, after, events)
    ensures var l := RestoreAll(after, events);
      && Distinct(IdOf, l.memories)
      && ((forall e | e in events :: Undoable(e, before.caches)) <==> SameTables(l, before))
      && ((forall e | e in events :: Undoable(e, before.caches)) ==>
            multiset(l.memories) == multiset(before.memories) && multiset(l.caches) == multiset(before.caches))
  {
    hide Distinct;
    hide MapOf;
    hide RestoreAll;
    hide Gather;
    hide InOrder;
    hide SameNamed;
    hide MemoryDims;
    hide CacheDims;
    hide Count;
    hide CacheKey;
    var l := RestoreAll(after, events);
    DistinctPart(IdOf, before.memories, after.memories, MemoriesIn(events));
    RestoresOnlyRestorable(after, events);
    if forall e | e in events :: Undoable(e, before.caches) {
      UndoableComesBack(before, after, events);
    }
    if SameTables(l, before) {
      SameTablesUndoable(before, after, events);
      forall e | e in events ensures Undoable(e, before.caches) {
        EventIsGone(events, e);
        if e.MemoryEvicted? { MemoryCameBack(before, after, events, e.memory); }
      }
    }
  }

  // ---------------------------------------------------------------------
  // The maps of a store.
  // ---------------------------------------------------------------------

  /** The memory each id names. */
  function IdMap(ms: seq<Memory>, ix: map<string, nat>): map<string, Memory>
    requires IndexOk(ms, ix)
  {
    map id | id in ix :: ms[ix[id]]
  }

  /** The cache entry each key names. */
  function KeyMap(cs: seq<Cache>, ix: map<string, nat>): map<string, Cache>
    requires CacheIndexOk(cs, ix)
  {
    map key | key in ix :: cs[ix[key]]
  }

  lemma IdMapIs(ms: seq<Memory>, ix: map<string, nat>)
    requires IndexOk(ms, ix)
    ensures Distinct(IdOf, ms) && IdMap(ms, ix) == MapOf(IdOf, ms)
  {
    var a, b := IdMap(ms, ix), MapOf(IdOf, ms);
    forall id | id in a ensures id in b && b[id] == a[id] { assert IdOf(ms[ix[id]]) == id; }
    forall id | id in b ensures id in a {
      var i :| 0 <= i < |ms| && IdOf(ms[i]) == id;
    }
  }

  lemma {:induction false} LastIs(cs: seq<Cache>, k: string, i: nat)
    requires i < |cs| && CacheKey(cs[i]) == k && forall j | i < j < |cs| :: CacheKey(cs[j]) != k
    ensures LastWith(KeyOf, cs, k) == Some(cs[i])
  {
    hide CacheKey;
    var n := |cs| - 1;
    if i < n {
      assert CacheKey(cs[n]) != k;
      LastIs(cs[..n], k, i);
    }
  }

  lemma KeyMapIs(cs: seq<Cache>, ix: map<string, nat>, k: string)
    requires CacheIndexOk(cs, ix)
    ensures LastWith(KeyOf, cs, k) == if k in ix then Some(cs[ix[k]]) else None
  {
    hide CacheKey;
    if k in ix {
      LastIs(cs, k, ix[k]);
    } else {
      var r := LastWith(KeyOf, cs, k);
      if r.Some? {
        assert false;
      }
    }
  }

  lemma SameKeyMaps(a: seq<Cache>, ia: map<string, nat>, b: seq<Cache>, ib: map<string, nat>)
    requires CacheIndexOk(a, ia) && CacheIndexOk(b, ib)
    ensures KeyMap(a, ia) == KeyMap(b, ib) <==> SameNamed(KeyOf, a, b)
  {
    hide LastWith;
    hide CacheKey;
    if KeyMap(a, ia) == KeyMap(b, ib) {
      forall k: string ensures LastWith(KeyOf, a, k) == LastWith(KeyOf, b, k) { SameAtKey(a, ia, b, ib, k); }
    }
    if SameNamed(KeyOf, a, b) {
      forall k: string ensures k in KeyMap(a, ia) <==> k in KeyMap(b, ib) { SameAtKey(a, ia, b, ib, k); }
      forall k | k in KeyMap(a, ia) ensures KeyMap(a, ia)[k] == KeyMap(b, ib)[k] { SameAtKey(a, ia, b, ib, k); }
      hide KeyMap;
      hide CacheIndexOk;
    }
  }

  lemma SameAtKey(a: seq<Cache>, ia: map<string, nat>, b: seq<Cache>, ib: map<string, nat>, k: string)
    requires CacheIndexOk(a, ia) && CacheIndexOk(b, ib)
    ensures var x, y := KeyMap(a, ia), KeyMap(b, ib);
      LastWith(KeyOf, a, k) == LastWith(KeyOf, b, k) <==> (k in x <==> k in y) && (k in x && k in y ==> x[k] == y[k])
  {
    hide LastWith;
    hide CacheKey;
    KeyMapIs(a, ia, k);
    KeyMapIs(b, ib, k);
  }

  /** The same tables are the same maps and counters. */
  lemma SameTablesMean(a: Live, ia: map<string, nat>, ka: map<string, nat>, b: Live, ib: map<string, nat>, kb: map<string, nat>)
    requires IndexOk(a.memories, ia) && CacheIndexOk(a.caches, ka) && IndexOk(b.memories, ib) && CacheIndexOk(b.caches, kb)
    ensures Distinct(IdOf, a.memories) && Distinct(IdOf, b.memories)
    ensures SameTables(a, b) <==>
      && IdMap(a.memories, ia) == IdMap(b.memories, ib) && KeyMap(a.caches, ka) == KeyMap(b.caches, kb)
      && a.evictedMemories == b.evictedMemories && a.evictedCaches == b.evictedCaches
  {
    IdMapIs(a.memories, ia);
    IdMapIs(b.memories, ib);
    SameKeyMaps(a.caches, ka, b.caches, kb);
    hide IndexOk;
    hide CacheIndexOk;
    hide Distinct;
    hide MapOf;
    hide SameNamed;
    hide IdMap;
    hide KeyMap;
  }

  lemma OneEvent(c: Cache)
    ensures MemoriesIn([CacheEvent(c)]) == [] && CachesIn([CacheEvent(c)]) == [c]
  {
    GatherAppend(MemoryPart, [], CacheEvent(c));
    GatherAppend(CachePart, [], CacheEvent(c));
    assert [] + [CacheEvent(c)] == [CacheEvent(c)];
  }

  lemma SecondGone(before: Live, a: Cache, b: Cache)
    requires before.memories == [] && before.caches == [a, b] && CacheDims(before.dim, [a, b])
    ensures Passed(before, before.(caches := [a], evictedCaches := before.evictedCaches + 1), [CacheEvent(b)])
  {
    OneEvent(b);
    hide Gather;
    assert [a, b][..1] == [a];
    InOrderSelf([a]);
    InOrderMore([a], [a], b);
    assert [a] + [b] == [a, b];
    hide InOrder;
  }

  lemma StaysOut(l: Live, a: Cache, b: Cache)
    requires l.caches == [a] && CacheKey(a) == CacheKey(b) && RestorableCache(b)
    ensures RestoreAll(l, [CacheEvent(b)]) == l
  {
    hide CacheKey;
    hide AllFinite;
    hide Fits;
    assert CacheToRestore(CacheEvent(b)) == b;
    assert HasKey([a], CacheKey(b)) by { assert CacheKey([a][0]) == CacheKey(b); }
    assert RestoreOne(l, CacheEvent(b)) == l;
    hide RestoreOne;
    assert [CacheEvent(b)][..0] == [];
    assert RestoreAll(l, []) == l;
  }

  /** Two entries with one key, the second evicted: each could come back alone, yet the restore skips it. */
  lemma RepeatedKeyStaysLost(before: Live, a: Cache, b: Cache)
    requires before.memories == [] && before.caches == [a, b] && CacheDims(before.dim, [a, b])
    requires CacheKey(a) == CacheKey(b) && RestorableCache(b)
    ensures var after := before.(caches := [a], evictedCaches := before.evictedCaches + 1);
      && Passed(before, after, [CacheEvent(b)]) && Restorable(CacheEvent(b))
      && RestoreAll(after, [CacheEvent(b)]) == after
      && LastWith(KeyOf, before.caches, CacheKey(b)) == Some(b) && LastWith(KeyOf, after.caches, CacheKey(b)) == Some(a)
  {
    hide CacheKey;
    hide Passed;
    hide RestoreAll;
    SecondGone(before, a, b);
    StaysOut(before.(caches := [a], evictedCaches := before.evictedCaches + 1), a, b);
  }
}
