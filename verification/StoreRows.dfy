/**
  The value-level facts about the store's rows: counting, swap-with-last removal,
  the id-to-row bijection, quotas, and undoing an eviction pass.
 */
module StoreRows {
  import opened Vectors
  import opened Records
  import opened Ranking

  type Memory = MemoryRecord<Float, real>
  type Cache = CacheEntry<Float>

  // ---------------------------------------------------------------------
  // Counting.
  // ---------------------------------------------------------------------

  function Count<T>(p: T -> bool, s: seq<T>): (n: nat)
    ensures n <= |s|
  {
    if s == [] then 0 else Count(p, s[..|s| - 1]) + if p(s[|s| - 1]) then 1 else 0
  }

  method CountMatching<T>(p: T -> bool, s: seq<T>) returns (n: nat)
    ensures n == Count(p, s)
  {
    n := 0;
    for i := 0 to |s|
      invariant n == Count(p, s[..i])
    {
      assert s[..i + 1][..i] == s[..i];
      if p(s[i]) { n := n + 1; }
    }
    assert s[..|s|] == s;
  }

  lemma {:induction false} CountConcat<T>(p: T -> bool, a: seq<T>, b: seq<T>)
    ensures Count(p, a + b) == Count(p, a) + Count(p, b)
  {
    if b == [] {
      assert a + b == a;
    } else {
      CountConcat(p, a, b[..|b| - 1]);
      assert (a + b)[..|a + b| - 1] == a + b[..|b| - 1];
    }
  }

  lemma CountOne<T>(p: T -> bool, x: T)
    ensures Count(p, [x]) == if p(x) then 1 else 0
  {
    assert [x][..0] == [];
  }

  lemma CountWithout<T>(p: T -> bool, s: seq<T>, i: nat)
    requires i < |s|
    ensures Count(p, s) == Count(p, s[..i] + s[i + 1..]) + if p(s[i]) then 1 else 0
  {
    assert s == s[..i] + ([s[i]] + s[i + 1..]);
    CountConcat(p, s[..i], [s[i]] + s[i + 1..]);
    CountConcat(p, [s[i]], s[i + 1..]);
    CountConcat(p, s[..i], s[i + 1..]);
    CountOne(p, s[i]);
  }

  lemma CountUpdate<T>(p: T -> bool, s: seq<T>, i: nat, x: T)
    requires i < |s|
    ensures Count(p, s[i := x]) + (if p(s[i]) then 1 else 0) == Count(p, s) + if p(x) then 1 else 0
  {
    CountWithout(p, s, i);
    CountWithout(p, s[i := x], i);
    assert s[i := x][..i] == s[..i] && s[i := x][i + 1..] == s[i + 1..];
  }

  lemma {:induction false} CountPositive<T>(p: T -> bool, s: seq<T>)
    ensures Count(p, s) > 0 <==> exists i :: 0 <= i < |s| && p(s[i])
  {
    if s != [] {
      CountPositive(p, s[..|s| - 1]);
      if Count(p, s) > 0 && Count(p, s[..|s| - 1]) > 0 {
        var i :| 0 <= i < |s| - 1 && p(s[..|s| - 1][i]);
        assert p(s[i]);
      }
      if i :| 0 <= i < |s| && p(s[i]) && i < |s| - 1 {
        assert p(s[..|s| - 1][i]);
      }
    }
  }

  /** A count depends on the contents only, and grows with them. */
  lemma {:induction false} CountMonotone<T>(p: T -> bool, a: seq<T>, b: seq<T>)
    requires multiset(a) <= multiset(b)
    ensures Count(p, a) <= Count(p, b)
    decreases |a|
  {
    if a != [] {
      var x := a[|a| - 1];
      assert a == a[..|a| - 1] + [x];
      assert x in multiset(b);
      var i :| 0 <= i < |b| && b[i] == x;
      var b' := RemoveAt(b, i);
      assert multiset(a[..|a| - 1]) <= multiset(b');
      CountMonotone(p, a[..|a| - 1], b');
      CountWithout(p, b, i);
    }
  }

  lemma CountSame<T>(p: T -> bool, a: seq<T>, b: seq<T>)
    requires multiset(a) == multiset(b)
    ensures Count(p, a) == Count(p, b)
  {
    CountMonotone(p, a, b);
    CountMonotone(p, b, a);
  }

  // ---------------------------------------------------------------------
  // Rows.
  // ---------------------------------------------------------------------

  predicate HasExpiry(expiresAt: int) {
    expiresAt > 0
  }

  predicate Expired(expiresAt: int, now: int) {
    expiresAt > 0 && expiresAt <= now
  }

  const ExpiringMemory: Memory -> bool := (m: Memory) => HasExpiry(m.expiresAt)
  const ExpiringCache: Cache -> bool := (c: Cache) => HasExpiry(c.expiresAt)

  function Embeddings(ms: seq<Memory>): (es: seq<Vec>)
    ensures |es| == |ms|
    ensures forall i | 0 <= i < |ms| :: es[i] == ms[i].embedding
  {
    seq(|ms|, i requires 0 <= i < |ms| => ms[i].embedding)
  }

  lemma SwapRemoveContents<T>(s: seq<T>, row: nat)
    requires row < |s|
    ensures multiset(s) == multiset(SwapRemove(s, row)) + multiset{s[row]}
  {
    var last := |s| - 1;
    var u := s[row := s[last]];
    assert u == u[..last] + [s[last]];
    assert multiset(u) == multiset(s) - multiset{s[row]} + multiset{s[last]};
  }

  /** Ids and rows are in bijection. */
  ghost predicate IndexOk(ms: seq<Memory>, ix: map<string, nat>) {
    && (forall i | 0 <= i < |ms| :: ms[i].memoryId in ix && ix[ms[i].memoryId] == i)
    && (forall id | id in ix :: ix[id] < |ms| && ms[ix[id]].memoryId == id)
  }

  lemma SwapRemoveIndex(ms: seq<Memory>, ix: map<string, nat>, row: nat)
    requires IndexOk(ms, ix) && row < |ms|
    ensures IndexOk(SwapRemove(ms, row), ix[ms[|ms| - 1].memoryId := row] - {ms[row].memoryId})
  {
    var ms', last := SwapRemove(ms, row), |ms| - 1;
    var ix' := ix[ms[last].memoryId := row] - {ms[row].memoryId};
    forall i | 0 <= i < |ms'| ensures ms'[i].memoryId in ix' && ix'[ms'[i].memoryId] == i {
      if i == row {
        assert ms[last].memoryId in ix && ms[row].memoryId in ix;
      } else {
        assert ms[i].memoryId in ix && ms[row].memoryId in ix && ms[last].memoryId in ix;
      }
    }
  }

  lemma AppendIndex(ms: seq<Memory>, ix: map<string, nat>, m: Memory)
    requires IndexOk(ms, ix) && m.memoryId !in ix
    ensures IndexOk(ms + [m], ix[m.memoryId := |ms|])
  {
  }

  lemma UpdateIndex(ms: seq<Memory>, ix: map<string, nat>, row: nat, m: Memory)
    requires IndexOk(ms, ix) && row < |ms| && m.memoryId == ms[row].memoryId
    ensures IndexOk(ms[row := m], ix)
  {
  }

  // ---------------------------------------------------------------------
  // The cache index: the last row of a key wins.
  // ---------------------------------------------------------------------

  function Lower(c: char): char {
    if 'A' <= c <= 'Z' then (c as int + 32) as char else c
  }

  /** Lower case, with each inner run of white space one blank and none at the ends. */
  function NormalizePrompt(prompt: string): string {
    NormalizeFrom(prompt, false, [])
  }

  function NormalizeFrom(rest: string, inSpace: bool, out: string): string {
    if rest == [] then out
    else if IsSpace(rest[0]) then NormalizeFrom(rest[1..], true, out)
    else NormalizeFrom(rest[1..], false, out + (if inSpace && out != [] then " " else "") + [Lower(rest[0])])
  }

  function ScopedKey(tenantId: string, namespaceId: string, prompt: string): string {
    tenantId + "\n" + namespaceId + "\n" + NormalizePrompt(prompt)
  }

  function CacheKey(c: Cache): string {
    ScopedKey(c.tenantId, c.namespaceId, c.prompt)
  }

  ghost predicate CacheIndexOk(cs: seq<Cache>, ix: map<string, nat>) {
    && (forall i | 0 <= i < |cs| :: CacheKey(cs[i]) in ix)
    && (forall k | k in ix :: ix[k] < |cs| && CacheKey(cs[ix[k]]) == k)
    && (forall k, j | k in ix && ix[k] < j < |cs| :: CacheKey(cs[j]) != k)
  }

  method RebuildCacheIndex(cs: seq<Cache>) returns (ix: map<string, nat>)
    ensures CacheIndexOk(cs, ix)
  {
    hide CacheKey;
    ix := map[];
    for i := 0 to |cs|
      invariant CacheIndexOk(cs[..i], ix)
    {
      assert cs[..i + 1] == cs[..i] + [cs[i]];
      ix := ix[CacheKey(cs[i]) := i];
    }
    assert cs[..|cs|] == cs;
  }

  // ---------------------------------------------------------------------
  // Quotas.
  // ---------------------------------------------------------------------

  datatype TenantQuota = TenantQuota(tenantId: string, namespaceId: string, maxMemories: nat, maxCaches: nat)

  datatype EvictionConfig = EvictionConfig(
    maxMemories: nat, maxCaches: nat, evictExpiredOnWrite: bool, protectPinned: bool, quotas: seq<TenantQuota>)

  predicate InScope(q: TenantQuota, tenantId: string, namespaceId: string) {
    tenantId == q.tenantId && (q.namespaceId == "" || namespaceId == q.namespaceId)
  }

  function MemoryInScope(q: TenantQuota): Memory -> bool {
    (m: Memory) => InScope(q, m.tenantId, m.namespaceId)
  }

  function CacheInScope(q: TenantQuota): Cache -> bool {
    (c: Cache) => InScope(q, c.tenantId, c.namespaceId)
  }

  function Everything<T>(): T -> bool {
    (x: T) => true
  }

  /** A cap on the memories counted by `scope`: met, or missed only because all of them are protected. */
  ghost predicate MemoryCapHolds(cap: nat, scope: Memory -> bool, protectPinned: bool, ms: seq<Memory>) {
    cap == 0 || Count(scope, ms) <= cap || forall m | m in ms && scope(m) :: protectPinned && m.pinned
  }

  ghost predicate CacheCapHolds(cap: nat, scope: Cache -> bool, cs: seq<Cache>) {
    cap == 0 || Count(scope, cs) <= cap
  }

  /** Every quota and the global caps. */
  ghost predicate CapsHold(cfg: EvictionConfig, ms: seq<Memory>, cs: seq<Cache>) {
    && (forall q | q in cfg.quotas :: MemoryCapHolds(q.maxMemories, MemoryInScope(q), cfg.protectPinned, ms))
    && (forall q | q in cfg.quotas :: CacheCapHolds(q.maxCaches, CacheInScope(q), cs))
    && MemoryCapHolds(cfg.maxMemories, Everything(), cfg.protectPinned, ms)
    && CacheCapHolds(cfg.maxCaches, Everything(), cs)
  }

  /** Removing rows never breaks a cap that held. */
  lemma MemoryCapKept(cap: nat, scope: Memory -> bool, protectPinned: bool, ms: seq<Memory>, fewer: seq<Memory>)
    requires MemoryCapHolds(cap, scope, protectPinned, ms) && multiset(fewer) <= multiset(ms)
    ensures MemoryCapHolds(cap, scope, protectPinned, fewer)
  {
    CountMonotone(scope, fewer, ms);
    forall m | m in fewer ensures m in ms {
      assert m in multiset(fewer);
      assert m in multiset(ms);
    }
  }

  lemma CacheCapKept(cap: nat, scope: Cache -> bool, cs: seq<Cache>, fewer: seq<Cache>)
    requires CacheCapHolds(cap, scope, cs) && multiset(fewer) <= multiset(cs)
    ensures CacheCapHolds(cap, scope, fewer)
  {
    CountMonotone(scope, fewer, cs);
  }
}
