/**
  Token-bucket rate limiting: one bucket per identity or address in a table of
  bounded size, refilled by elapsed time, with stale buckets cleaned up.

  Token counts are exact; the clock is given with each call, in nanoseconds.
 */
module RateLimiter {

  datatype Bucket = Bucket(tokens: real, last: int, capacity: real, refill: real)

  datatype Decision = Allowed | RateLimited

  function Min(a: real, b: real): real {
    if b < a then b else a
  }

  function Elapsed(b: Bucket, now: int): int {
    if now < b.last then 0 else now - b.last
  }

  /** Tokens that come in over a time. */
  function Refilled(rate: real, time: int): real {
    rate * time as real
  }

  /** Tokens at a time, before any is taken. */
  function TokensAt(b: Bucket, now: int): real {
    Min(b.capacity, b.tokens + Refilled(b.refill, Elapsed(b, now)))
  }

  function DecisionAt(b: Bucket, now: int): Decision {
    if TokensAt(b, now) >= 1.0 then Allowed else RateLimited
  }

  function Consumed(b: Bucket, now: int): Bucket {
    var t := TokensAt(b, now);
    b.(tokens := if t >= 1.0 then t - 1.0 else t, last := now)
  }

  predicate InBounds(b: Bucket) {
    0.0 <= b.tokens <= b.capacity && b.refill >= 0.0
  }

  function NewBucket(capacity: real, refill: real, now: int): Bucket {
    Bucket(capacity, now, capacity, refill)
  }

  lemma RefillGrows(rate: real, time: int)
    requires rate >= 0.0 && time >= 0
    ensures Refilled(rate, time) >= 0.0
  {
  }

  /** Tokens stay between none and the capacity. */
  lemma StaysInBounds(b: Bucket, now: int)
    requires InBounds(b)
    ensures InBounds(Consumed(b, now)) && 0.0 <= TokensAt(b, now) <= b.capacity
  {
    RefillGrows(b.refill, Elapsed(b, now));
  }

  // ---------------------------------------------------------------------
  // How much one bucket lets through.
  // ---------------------------------------------------------------------

  /** The bucket after requests at these times. */
  function After(b: Bucket, times: seq<int>): Bucket {
    if times == [] then b else Consumed(After(b, times[..|times| - 1]), times[|times| - 1])
  }

  function AllowedIn(b: Bucket, times: seq<int>): nat {
    if times == [] then 0
    else
      var n := |times| - 1;
      AllowedIn(b, times[..n]) + if DecisionAt(After(b, times[..n]), times[n]) == Allowed then 1 else 0
  }

  /** The clock does not go back. */
  predicate Monotone(start: int, times: seq<int>) {
    && (times != [] ==> start <= times[0])
    && forall i, j | 0 <= i < j < |times| :: times[i] <= times[j]
  }

  lemma {:induction false} RunStaysInBounds(b: Bucket, times: seq<int>)
    requires InBounds(b)
    ensures InBounds(After(b, times))
    ensures After(b, times).capacity == b.capacity && After(b, times).refill == b.refill
    ensures times != [] ==> After(b, times).last == times[|times| - 1]
  {
    if times != [] {
      RunStaysInBounds(b, times[..|times| - 1]);
      StaysInBounds(After(b, times[..|times| - 1]), times[|times| - 1]);
    }
  }

  lemma RefillAdds(rate: real, a: int, b: int, c: int)
    ensures Refilled(rate, b - a) + Refilled(rate, c - b) == Refilled(rate, c - a)
  {
    assert (b - a) as real + (c - b) as real == (c - a) as real;
  }

  /** What is let through and what is left never exceed what was there and what was refilled. */
  lemma {:induction false} LetThrough(b: Bucket, times: seq<int>)
    requires InBounds(b) && times != [] && Monotone(b.last, times)
    ensures AllowedIn(b, times) as real + After(b, times).tokens <= b.tokens + Refilled(b.refill, times[|times| - 1] - b.last)
  {
    hide Refilled;
    var n := |times| - 1;
    var mid, prior := After(b, times[..n]), times[..n];
    RunStaysInBounds(b, prior);
    if n == 0 {
      assert prior == [];
    } else {
      LetThrough(b, prior);
      assert prior[n - 1] == times[n - 1];
      RefillAdds(b.refill, b.last, times[n - 1], times[n]);
    }
  }

  /**
    In any run of requests on a bucket, those from the i-th up to the j-th that are
    allowed are at most the capacity and what is refilled between the first and the
    last of them.
   */
  lemma RateBound(b: Bucket, times: seq<int>, i: nat, j: nat)
    requires InBounds(b) && Monotone(b.last, times) && i < j <= |times|
    ensures AllowedIn(After(b, times[..i]), times[i..j]) as real <= b.capacity + Refilled(b.refill, times[j - 1] - times[i])
  {
    hide Refilled;
    var start := After(b, times[..i]);
    RunStaysInBounds(b, times[..i]);
    StaysInBounds(start, times[i]);
    var span := times[i..j];
    assert span[0] == times[i] && span[|span| - 1] == times[j - 1];
    var full := start.(tokens := TokensAt(start, times[i]), last := times[i]);
    SameFrom(start, full, span);
    LetThrough(full, span);
    RunStaysInBounds(full, span);
  }

  /** Refilling a bucket up to the time of its next request changes nothing. */
  lemma {:induction false} SameFrom(a: Bucket, b: Bucket, times: seq<int>)
    requires times != [] && InBounds(a) && b == a.(tokens := TokensAt(a, times[0]), last := times[0])
    ensures AllowedIn(a, times) == AllowedIn(b, times) && After(a, times) == After(b, times)
  {
    var n := |times| - 1;
    if n == 0 {
      assert times[..0] == [];
      RefillAdds(a.refill, times[0], times[0], times[0]);
      RefillGrows(a.refill, Elapsed(a, times[0]));
    } else {
      SameFrom(a, b, times[..n]);
    }
  }

  // ---------------------------------------------------------------------
  // Cleaning up.
  // ---------------------------------------------------------------------

  type Table = map<string, Bucket>

  const NS_PER_SEC: int := 1000000000

  /** What a key's bucket is when asked for, and what it costs nothing to forget. */
  function Lookup(t: Table, key: string, capacity: real, refill: real, now: int): Bucket {
    if key in t then t[key] else NewBucket(capacity, refill, now)
  }

  function Cleaned(t: Table, cutoff: int): Table {
    map key | key in t && t[key].last >= cutoff :: t[key]
  }

  datatype Op = Check(key: string, asked: int, taken: int) | Cleanup(now: int, idleSec: int)

  /** Decisions of a run in which no bucket is evicted for want of space. */
  function Decisions(t: Table, capacity: real, refill: real, ops: seq<Op>): seq<Decision>
    decreases |ops|
  {
    if ops == [] then []
    else match ops[0]
      case Check(key, asked, taken) =>
        var b := Lookup(t, key, capacity, refill, asked);
        [DecisionAt(b, taken)] + Decisions(t[key := Consumed(b, taken)], capacity, refill, ops[1..])
      case Cleanup(now, idleSec) =>
        Decisions(Cleaned(t, now - idleSec * NS_PER_SEC), capacity, refill, ops[1..])
  }

  function WithoutCleanups(ops: seq<Op>): seq<Op> {
    if ops == [] then []
    else if ops[0].Check? then [ops[0]] + WithoutCleanups(ops[1..])
    else WithoutCleanups(ops[1..])
  }

  /** The clock does not go back. */
  predicate Orderly(now: int, ops: seq<Op>)
    decreases |ops|
  {
    if ops == [] then true
    else match ops[0]
      case Check(_, asked, taken) => now <= asked <= taken && Orderly(taken, ops[1..])
      case Cleanup(at, _) => now <= at && Orderly(at, ops[1..])
  }

  /** The shortest time unused after which a clean-up drops a bucket. */
  function Wait(idleSec: int): (w: nat) {
    if idleSec < 0 then 0 else idleSec * NS_PER_SEC + 1
  }

  /** Every clean-up waits long enough for a bucket to fill. */
  predicate Patient(capacity: real, refill: real, ops: seq<Op>) {
    forall i | 0 <= i < |ops| && ops[i].Cleanup? :: Refilled(refill, Wait(ops[i].idleSec)) >= capacity
  }

  /** A bucket that will be full at any later time. */
  predicate Full(b: Bucket, now: int) {
    b.last <= now && b.tokens + Refilled(b.refill, now - b.last) >= b.capacity
  }

  lemma FullLater(b: Bucket, now: int, later: int)
    requires Full(b, now) && InBounds(b) && now <= later
    ensures Full(b, later) && TokensAt(b, later) == b.capacity
  {
    RefillAdds(b.refill, b.last, now, later);
    RefillGrows(b.refill, later - now);
    hide Refilled;
  }

  predicate Made(b: Bucket, capacity: real, refill: real, now: int) {
    b.capacity == capacity && b.refill == refill && InBounds(b) && b.last <= now
  }

  /** Two tables no request can tell apart: what one has and the other has not is full. */
  ghost predicate Alike(a: Table, b: Table, capacity: real, refill: real, now: int) {
    && capacity >= 0.0 && refill >= 0.0
    && (forall key | key in a :: key in b && a[key] == b[key])
    && (forall key | key in b :: Made(b[key], capacity, refill, now))
    && (forall key | key in b && key !in a :: Full(b[key], now))
  }

  lemma SameBucket(a: Table, b: Table, capacity: real, refill: real, now: int, key: string, asked: int, taken: int)
    requires Alike(a, b, capacity, refill, now) && now <= asked <= taken
    ensures var x, y := Lookup(a, key, capacity, refill, asked), Lookup(b, key, capacity, refill, asked);
      && DecisionAt(x, taken) == DecisionAt(y, taken) && Consumed(x, taken) == Consumed(y, taken)
      && Made(Consumed(y, taken), capacity, refill, taken)
  {
    var x, y := Lookup(a, key, capacity, refill, asked), Lookup(b, key, capacity, refill, asked);
    RefillGrows(refill, taken - asked);
    StaysInBounds(y, taken);
    if key !in a && key in b {
      FullLater(b[key], now, taken);
    }
    hide Refilled;
  }

  lemma AlikeAfterCheck(a: Table, b: Table, capacity: real, refill: real, now: int, key: string, c: Bucket, taken: int)
    requires Alike(a, b, capacity, refill, now) && now <= taken && Made(c, capacity, refill, taken)
    ensures Alike(a[key := c], b[key := c], capacity, refill, taken)
  {
    forall k | k in b && k !in a ensures Full(b[k], taken) {
      FullLater(b[k], now, taken);
    }
    hide Refilled;
  }

  lemma AlikeAfterCleanup(a: Table, b: Table, capacity: real, refill: real, now: int, at: int, idleSec: int)
    requires Alike(a, b, capacity, refill, now) && now <= at && Refilled(refill, Wait(idleSec)) >= capacity
    ensures Alike(Cleaned(a, at - idleSec * NS_PER_SEC), b, capacity, refill, at)
  {
    forall k | k in b && k !in Cleaned(a, at - idleSec * NS_PER_SEC) ensures Full(b[k], at) {
      if k in a {
        var ready := b[k].last + Wait(idleSec);
        assert ready <= at;
        RefillAdds(refill, b[k].last, ready, at);
        RefillGrows(refill, at - ready);
      } else {
        FullLater(b[k], now, at);
      }
      hide Refilled;
    }
    hide Refilled;
  }

  /** Cleaning up changes no decision when a bucket is full by the time it is dropped. */
  lemma {:induction false} CleanupIsInvisible(a: Table, b: Table, capacity: real, refill: real, now: int, ops: seq<Op>)
    requires Alike(a, b, capacity, refill, now) && Orderly(now, ops) && Patient(capacity, refill, ops)
    ensures Decisions(a, capacity, refill, ops) == Decisions(b, capacity, refill, WithoutCleanups(ops))
    decreases |ops|
  {
    if ops != [] {
      hide Alike;
      hide Consumed;
      hide DecisionAt;
      hide Refilled;
      hide Made;
      match ops[0]
      case Check(key, asked, taken) =>
        SameBucket(a, b, capacity, refill, now, key, asked, taken);
        var c := Consumed(Lookup(a, key, capacity, refill, asked), taken);
        AlikeAfterCheck(a, b, capacity, refill, now, key, c, taken);
        CleanupIsInvisible(a[key := c], b[key := c], capacity, refill, taken, ops[1..]);
        assert WithoutCleanups(ops)[0] == ops[0] && WithoutCleanups(ops)[1..] == WithoutCleanups(ops[1..]);
      case Cleanup(at, idleSec) =>
        AlikeAfterCleanup(a, b, capacity, refill, now, at, idleSec);
        CleanupIsInvisible(Cleaned(a, at - idleSec * NS_PER_SEC), b, capacity, refill, at, ops[1..]);
    }
  }

  // ---------------------------------------------------------------------
  // Cleaning up too soon.
  // ---------------------------------------------------------------------

  /** The same key asked n times at one instant. */
  function Repeated(key: string, at: int, n: nat): (ops: seq<Op>)
    ensures |ops| == n && forall i | 0 <= i < n :: ops[i] == Check(key, at, at)
  {
    seq(n, _ => Check(key, at, at))
  }

  function AllAllowed(n: nat): (ds: seq<Decision>)
    ensures |ds| == n && forall i | 0 <= i < n :: ds[i] == Allowed
  {
    seq(n, _ => Allowed)
  }

  /** The key's bucket, refilled to a number of tokens at a time. */
  predicate Holds(t: Table, key: string, capacity: real, refill: real, at: int, tokens: real) {
    var b := Lookup(t, key, capacity, refill, at);
    b.capacity == capacity && b.refill == refill && TokensAt(b, at) == tokens <= capacity
  }

  lemma OneCheck(t: Table, key: string, capacity: real, refill: real, at: int, tokens: real, n: nat, rest: seq<Op>)
    requires Holds(t, key, capacity, refill, at, tokens) && n > 0
    ensures var left := Bucket(if tokens >= 1.0 then tokens - 1.0 else tokens, at, capacity, refill);
      && Decisions(t, capacity, refill, Repeated(key, at, n) + rest) ==
         [if tokens >= 1.0 then Allowed else RateLimited] + Decisions(t[key := left], capacity, refill, Repeated(key, at, n - 1) + rest)
      && Holds(t[key := left], key, capacity, refill, at, left.tokens)
  {
    var ops := Repeated(key, at, n) + rest;
    assert ops[0] == Check(key, at, at) && ops[1..] == Repeated(key, at, n - 1) + rest;
    RefillAdds(refill, at, at, at);
    hide Refilled;
  }

  /** As many requests as there are tokens are all allowed. */
  lemma {:induction false} AllGoThrough(t: Table, key: string, capacity: real, refill: real, at: int, tokens: real, n: nat, rest: seq<Op>)
    requires Holds(t, key, capacity, refill, at, tokens) && tokens >= n as real
    ensures var left := t[key := Bucket(tokens - n as real, at, capacity, refill)];
      n > 0 ==> Decisions(t, capacity, refill, Repeated(key, at, n) + rest) == AllAllowed(n) + Decisions(left, capacity, refill, rest)
    decreases n
  {
    if n > 0 {
      hide Decisions;
      hide Holds;
      OneCheck(t, key, capacity, refill, at, tokens, n, rest);
      var left := Bucket(tokens - 1.0, at, capacity, refill);
      AllGoThrough(t[key := left], key, capacity, refill, at, tokens - 1.0, n - 1, rest);
      var last := Bucket(tokens - n as real, at, capacity, refill);
      assert t[key := left][key := last] == t[key := last];
      if n == 1 {
        assert Repeated(key, at, 0) + rest == rest;
        assert AllAllowed(1) == [Allowed];
      } else {
        var after := Decisions(t[key := last], capacity, refill, rest);
        assert [Allowed] + (AllAllowed(n - 1) + after) == AllAllowed(n) + after;
      }
    }
  }

  /** With fewer tokens than requests one is refused. */
  lemma {:induction false} OneIsRefused(t: Table, key: string, capacity: real, refill: real, at: int, tokens: real, n: nat)
    requires Holds(t, key, capacity, refill, at, tokens) && tokens < n as real
    ensures n > 0 ==> Decisions(t, capacity, refill, Repeated(key, at, n)) != AllAllowed(n)
    decreases n
  {
    if n > 0 {
      hide Decisions;
      hide Holds;
      assert Repeated(key, at, n) + [] == Repeated(key, at, n) && Repeated(key, at, n - 1) + [] == Repeated(key, at, n - 1);
      OneCheck(t, key, capacity, refill, at, tokens, n, []);
      if tokens >= 1.0 {
        assert n > 1;
        var left := t[key := Bucket(tokens - 1.0, at, capacity, refill)];
        OneIsRefused(left, key, capacity, refill, at, tokens - 1.0, n - 1);
        var whole := Decisions(t, capacity, refill, Repeated(key, at, n));
        assert whole[1..] == Decisions(left, capacity, refill, Repeated(key, at, n - 1));
        assert AllAllowed(n)[1..] == AllAllowed(n - 1);
      } else {
        assert AllAllowed(n)[0] == Allowed;
      }
    }
  }

  /** Use up a bucket, clean up as soon as it may be dropped, and use it up again. */
  function SpendTwice(key: string, n: nat, idleSec: int): seq<Op> {
    Repeated(key, 0, n) + ([Cleanup(Wait(idleSec), idleSec)] + Repeated(key, Wait(idleSec), n))
  }

  lemma {:induction false} RepeatedIsOrderly(key: string, at: int, n: nat, rest: seq<Op>)
    requires Orderly(at, rest)
    ensures Orderly(at, Repeated(key, at, n) + rest)
    decreases n
  {
    var ops := Repeated(key, at, n) + rest;
    if n == 0 {
      assert ops == rest;
    } else {
      RepeatedIsOrderly(key, at, n - 1, rest);
      assert ops[0] == Check(key, at, at) && ops[1..] == Repeated(key, at, n - 1) + rest;
    }
  }

  lemma SpendTwiceIsOrderly(key: string, n: nat, idleSec: int)
    ensures Orderly(0, SpendTwice(key, n, idleSec)) && OneLimit(SpendTwice(key, n, idleSec), idleSec)
  {
    var at := Wait(idleSec);
    var again := Repeated(key, at, n);
    RepeatedIsOrderly(key, at, n, []);
    assert again + [] == again;
    var rest := [Cleanup(at, idleSec)] + again;
    assert rest[0] == Cleanup(at, idleSec) && rest[1..] == again;
    RepeatedIsOrderly(key, 0, n, rest);
  }

  lemma {:induction false} ChecksStay(key: string, at: int, n: nat, rest: seq<Op>)
    ensures WithoutCleanups(Repeated(key, at, n) + rest) == Repeated(key, at, n) + WithoutCleanups(rest)
    decreases n
  {
    var ops := Repeated(key, at, n) + rest;
    if n == 0 {
      assert ops == rest && Repeated(key, at, n) + WithoutCleanups(rest) == WithoutCleanups(rest);
    } else {
      ChecksStay(key, at, n - 1, rest);
      assert ops[0] == Check(key, at, at) && ops[1..] == Repeated(key, at, n - 1) + rest;
      assert Repeated(key, at, n) == [Check(key, at, at)] + Repeated(key, at, n - 1);
    }
  }

  lemma SpendTwiceUncleaned(key: string, n: nat, idleSec: int)
    ensures WithoutCleanups(SpendTwice(key, n, idleSec)) == Repeated(key, 0, n) + Repeated(key, Wait(idleSec), n)
  {
    var at := Wait(idleSec);
    var again := Repeated(key, at, n);
    var rest := [Cleanup(at, idleSec)] + again;
    ChecksStay(key, 0, n, rest);
    ChecksStay(key, at, n, []);
    assert again + [] == again;
    assert rest[0] == Cleanup(at, idleSec) && rest[1..] == again;
  }

  lemma EmptiedBucket(key: string, capacity: nat, refill: real, at: nat)
    requires refill >= 0.0 && Refilled(refill, at) < capacity as real
    ensures var cap := capacity as real;
      && Holds(map[], key, cap, refill, 0, cap) && Holds(map[], key, cap, refill, at, cap)
      && Holds(map[key := Bucket(0.0, 0, cap, refill)], key, cap, refill, at, Refilled(refill, at))
  {
    RefillAdds(refill, at, at, at);
    RefillAdds(refill, 0, 0, 0);
    hide Refilled;
  }

  lemma CleanupDropsIt(key: string, b: Bucket, idleSec: int, capacity: real, refill: real, rest: seq<Op>)
    requires b.last == 0
    ensures var t: Table := map[key := b];
      Decisions(t, capacity, refill, [Cleanup(Wait(idleSec), idleSec)] + rest) == Decisions(map[], capacity, refill, rest)
  {
    var t: Table := map[key := b];
    var ops := [Cleanup(Wait(idleSec), idleSec)] + rest;
    assert ops[0] == Cleanup(Wait(idleSec), idleSec) && ops[1..] == rest;
    assert Cleaned(t, Wait(idleSec) - idleSec * NS_PER_SEC) == map[];
  }

  /** A bucket dropped before it is full comes back full: a refusal becomes an admission. */
  lemma ShortIdleForgives(key: string, capacity: nat, refill: real, idleSec: int)
    requires refill >= 0.0 && Refilled(refill, Wait(idleSec)) < capacity as real
    ensures var ops := SpendTwice(key, capacity, idleSec);
      && Decisions(map[], capacity as real, refill, ops) == AllAllowed(capacity) + AllAllowed(capacity)
      && Decisions(map[], capacity as real, refill, WithoutCleanups(ops)) != AllAllowed(capacity) + AllAllowed(capacity)
  {
    RefillGrows(refill, Wait(idleSec));
    hide Decisions;
    hide Refilled;
    hide Holds;
    hide Repeated;
    hide Wait;
    hide AllAllowed;
    var cap, at, n := capacity as real, Wait(idleSec), capacity;
    var again := Repeated(key, at, n);
    var spent: Table := map[key := Bucket(0.0, 0, cap, refill)];
    EmptiedBucket(key, capacity, refill, at);
    assert map[][key := Bucket(0.0, 0, cap, refill)] == spent;
    AllGoThrough(map[], key, cap, refill, 0, cap, n, [Cleanup(at, idleSec)] + again);
    CleanupDropsIt(key, spent[key], idleSec, cap, refill, again);
    AllGoThrough(map[], key, cap, refill, at, cap, n, []);
    NothingLeft(map[key := Bucket(0.0, at, cap, refill)], cap, refill);
    assert again + [] == again && AllAllowed(n) + [] == AllAllowed(n);
    SpendTwiceUncleaned(key, n, idleSec);
    AllGoThrough(map[], key, cap, refill, 0, cap, n, again);
    OneIsRefused(spent, key, cap, refill, at, Refilled(refill, at), n);
    SameTail(AllAllowed(n), Decisions(spent, cap, refill, again), AllAllowed(n));
  }

  lemma NothingLeft(t: Table, capacity: real, refill: real)
    ensures Decisions(t, capacity, refill, []) == []
  {
  }

  lemma SameTail(a: seq<Decision>, b: seq<Decision>, c: seq<Decision>)
    ensures a + b == a + c ==> b == c
  {
    assert (a + b)[|a|..] == b && (a + c)[|a|..] == c;
  }

  /** Every clean-up has this idle limit. */
  predicate OneLimit(ops: seq<Op>, idleSec: int) {
    forall i | 0 <= i < |ops| && ops[i].Cleanup? :: ops[i].idleSec == idleSec
  }

  /** Cleaning up with this idle limit changes no decision of any run from the start. */
  ghost predicate Unnoticed(capacity: nat, refill: real, idleSec: int) {
    forall now: int, ops: seq<Op> | Orderly(now, ops) && OneLimit(ops, idleSec) ::
      Decisions(map[], capacity as real, refill, ops) == Decisions(map[], capacity as real, refill, WithoutCleanups(ops))
  }

  /** That is so exactly when a bucket fills in the shortest time after which it may be dropped. */
  lemma UnnoticedExactlyWhen(capacity: nat, refill: real, idleSec: int)
    requires refill >= 0.0
    ensures Unnoticed(capacity, refill, idleSec) <==> Refilled(refill, Wait(idleSec)) >= capacity as real
  {
    hide Decisions;
    hide Refilled;
    hide Orderly;
    hide WithoutCleanups;
    hide SpendTwice;
    if Refilled(refill, Wait(idleSec)) >= capacity as real {
      forall now: int, ops: seq<Op> | Orderly(now, ops) && OneLimit(ops, idleSec)
        ensures Decisions(map[], capacity as real, refill, ops) == Decisions(map[], capacity as real, refill, WithoutCleanups(ops))
      {
        CleanupIsInvisible(map[], map[], capacity as real, refill, now, ops);
      }
    } else {
      ShortIdleForgives("", capacity, refill, idleSec);
      SpendTwiceIsOrderly("", capacity, idleSec);
    }
  }

  // ---------------------------------------------------------------------
  // The table.
  // ---------------------------------------------------------------------

  function Bound(maxBuckets: nat): nat {
    if maxBuckets == 0 then 1 else maxBuckets
  }

  /** The buckets of one kind of key. */
  class RateTable {
    const capacity: real
    const refill: real
    const maxBuckets: nat
    var buckets: Table

    ghost predicate Valid()
      reads this`buckets
    {
      && capacity >= 0.0 && refill >= 0.0 && |buckets| <= Bound(maxBuckets)
      && forall key | key in buckets :: InBounds(buckets[key]) && buckets[key].capacity == capacity && buckets[key].refill == refill
    }

    constructor (burst: nat, requestsPerMinute: nat, maxBuckets: nat)
      ensures Valid() && buckets == map[]
      ensures capacity == burst as real && this.maxBuckets == maxBuckets
    {
      this.capacity, this.maxBuckets, buckets := burst as real, maxBuckets, map[];
      refill := requestsPerMinute as real / 60.0 / NS_PER_SEC as real;
    }

    /** The longest unused of up to sixteen buckets, in whatever order the table yields them. */
    method PickVictim() returns (oldest: string)
      requires buckets != map[]
      ensures oldest in buckets
      ensures exists sampled: set<string> ::
        && sampled <= buckets.Keys && oldest in sampled && |sampled| == (if |buckets| < 16 then |buckets| else 16)
        && forall key | key in sampled :: buckets[oldest].last <= buckets[key].last
    {
      assert buckets.Keys != {};
      oldest :| oldest in buckets;
      var left, sampled := buckets.Keys - {oldest}, 1;
      ghost var seen := {oldest};
      while left != {} && sampled < 16
        invariant seen <= buckets.Keys && left == buckets.Keys - seen && sampled == |seen| <= 16 && oldest in seen
        invariant forall key | key in seen :: buckets[oldest].last <= buckets[key].last
        decreases |left|
      {
        var candidate :| candidate in left;
        left := left - {candidate};
        if buckets[candidate].last < buckets[oldest].last {
          oldest := candidate;
        }
        seen := seen + {candidate};
        sampled := sampled + 1;
      }
      if left == {} {
        assert seen == buckets.Keys;
      } else {
        assert buckets.Keys == seen + left && seen !! left;
      }
    }

    /** Finds or makes the key's bucket; a full table gives up one bucket for it. */
    method GetOrCreate(key: string, now: int)
      requires Valid()
      modifies this`buckets
      ensures Valid() && key in buckets
      ensures key in old(buckets) ==> buckets == old(buckets)
      ensures key !in old(buckets) ==> buckets[key] == NewBucket(capacity, refill, now)
      ensures key !in old(buckets) && |old(buckets)| < Bound(maxBuckets) ==> buckets == old(buckets)[key := NewBucket(capacity, refill, now)]
      ensures forall k | k in buckets && k != key :: k in old(buckets) && buckets[k] == old(buckets)[k]
    {
      if key in buckets { return; }
      if |buckets| >= Bound(maxBuckets) {
        var oldest := PickVictim();
        ghost var before := buckets;
        buckets := buckets - {oldest};
        assert buckets.Keys == before.Keys - {oldest};
      }
      ghost var mid := buckets;
      buckets := buckets[key := NewBucket(capacity, refill, now)];
      assert buckets.Keys == mid.Keys + {key};
    }

    /** Refills the bucket and takes a token if there is one. */
    method Consume(key: string, now: int) returns (decision: Decision)
      requires Valid() && key in buckets
      modifies this`buckets
      ensures Valid()
      ensures decision == DecisionAt(old(buckets)[key], now)
      ensures buckets == old(buckets)[key := Consumed(old(buckets)[key], now)]
    {
      var b := buckets[key];
      StaysInBounds(b, now);
      var elapsed := now - b.last;
      if elapsed < 0 { elapsed := 0; }
      var tokens := Min(b.capacity, b.tokens + Refilled(b.refill, elapsed));
      if tokens >= 1.0 {
        decision := Allowed;
        tokens := tokens - 1.0;
      } else {
        decision := RateLimited;
      }
      assert buckets[key := b.(tokens := tokens, last := now)].Keys == buckets.Keys;
      buckets := buckets[key := b.(tokens := tokens, last := now)];
    }

    /** One request: decided as the run of requests says, and never more buckets than allowed. */
    method CheckKey(key: string, asked: int, taken: int) returns (decision: Decision)
      requires Valid()
      modifies this`buckets
      ensures Valid() && |buckets| <= Bound(maxBuckets)
      ensures decision == DecisionAt(Lookup(old(buckets), key, capacity, refill, asked), taken)
      ensures key in buckets && buckets[key] == Consumed(Lookup(old(buckets), key, capacity, refill, asked), taken)
      ensures buckets.Keys <= old(buckets).Keys + {key}
      ensures key in old(buckets) || |old(buckets)| < Bound(maxBuckets) ==>
        buckets == old(buckets)[key := Consumed(Lookup(old(buckets), key, capacity, refill, asked), taken)]
    {
      GetOrCreate(key, asked);
      decision := Consume(key, taken);
    }

    /** Drops the buckets not used since the cutoff. */
    method CleanupTable(now: int, idleSec: int)
      requires Valid()
      modifies this`buckets
      ensures Valid() && buckets == Cleaned(old(buckets), now - idleSec * NS_PER_SEC)
    {
      var cutoff := now - idleSec * NS_PER_SEC;
      var left := buckets.Keys;
      ghost var all := buckets;
      while left != {}
        invariant left <= all.Keys && buckets.Keys <= all.Keys && |buckets| <= |all|
        invariant forall key | key in buckets :: buckets[key] == all[key]
        invariant forall key | key in all :: key in buckets <==> key in left || all[key].last >= cutoff
        decreases |left|
      {
        var key :| key in left;
        left := left - {key};
        if buckets[key].last < cutoff {
          ghost var before := buckets;
          buckets := buckets - {key};
          assert buckets.Keys == before.Keys - {key};
        }
      }
      assert buckets == Cleaned(all, cutoff);
    }

    /** A run of requests and clean-ups; with room for every key it decides as the run says. */
    method Serve(ops: seq<Op>) returns (decisions: seq<Decision>)
      requires Valid()
      modifies this`buckets
      ensures Valid()
      ensures |old(buckets).Keys + KeysIn(ops)| <= Bound(maxBuckets) ==> decisions == Decisions(old(buckets), capacity, refill, ops)
    {
      hide Decisions;
      hide Consumed;
      hide DecisionAt;
      hide Lookup;
      hide Cleaned;
      hide KeysIn;
      decisions := [];
      assert ops[0..] == ops;
      assert [] + Decisions(buckets, capacity, refill, ops) == Decisions(buckets, capacity, refill, ops);
      ghost var keys := buckets.Keys + KeysIn(ops);
      ghost var roomy := |keys| <= Bound(maxBuckets);
      for i := 0 to |ops|
        invariant Valid() && buckets.Keys <= keys
        invariant roomy ==> decisions + Decisions(buckets, capacity, refill, ops[i..]) == Decisions(old(buckets), capacity, refill, ops)
      {
        NextDecision(buckets, capacity, refill, ops, i, decisions);
        match ops[i] {
          case Check(key, asked, taken) =>
            KeyIsIn(ops, i);
            FewerKeys(buckets, keys, key);
            var decision := CheckKey(key, asked, taken);
            decisions := decisions + [decision];
          case Cleanup(now, idleSec) =>
            CleanedKeys(buckets, now - idleSec * NS_PER_SEC);
            CleanupTable(now, idleSec);
        }
      }
      NothingLeft(buckets, capacity, refill);
      assert ops[|ops|..] == [] && decisions + [] == decisions;
    }
  }

  lemma NextDecision(t: Table, capacity: real, refill: real, ops: seq<Op>, i: nat, before: seq<Decision>)
    requires i < |ops|
    ensures ops[i].Check? ==>
      var b := Lookup(t, ops[i].key, capacity, refill, ops[i].asked);
      before + Decisions(t, capacity, refill, ops[i..]) ==
        (before + [DecisionAt(b, ops[i].taken)]) + Decisions(t[ops[i].key := Consumed(b, ops[i].taken)], capacity, refill, ops[i + 1..])
    ensures ops[i].Cleanup? ==>
      Decisions(t, capacity, refill, ops[i..]) == Decisions(Cleaned(t, ops[i].now - ops[i].idleSec * NS_PER_SEC), capacity, refill, ops[i + 1..])
  {
    hide DecisionAt;
    hide Consumed;
    hide Lookup;
    hide Cleaned;
    assert ops[i..][0] == ops[i] && ops[i..][1..] == ops[i + 1..];
  }

  lemma CleanedKeys(t: Table, cutoff: int)
    ensures Cleaned(t, cutoff).Keys <= t.Keys
  {
  }

  /** The keys a run asks for. */
  function KeysIn(ops: seq<Op>): set<string> {
    set op | op in ops && op.Check? :: op.key
  }

  lemma KeyIsIn(ops: seq<Op>, i: nat)
    requires i < |ops| && ops[i].Check?
    ensures ops[i].key in KeysIn(ops)
  {
    assert ops[i] in ops;
  }

  lemma FewerKeys(t: Table, keys: set<string>, key: string)
    requires t.Keys <= keys && key in keys
    ensures key in t || |t| < |keys|
  {
    if key !in t {
      Subset(t.Keys + {key}, keys);
    }
  }

  lemma Subset<T>(a: set<T>, b: set<T>)
    requires a <= b
    ensures |a| <= |b|
  {
    assert b == a + (b - a);
  }
}
