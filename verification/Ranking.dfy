/**
  Ranked candidates, bounded heaps, and the "sort everything, keep the first k"
  that the heaps stand for.

  A candidate is ranked by a score, then by a tie-breaker; larger is better in
  both.  The store ranks memories by (score, creation time); the nearest-neighbour
  indexes rank entries by (similarity, -entry index).
 */
module Ranking {

  datatype Key = Key(score: real, tie: int)

  datatype Candidate = Candidate(idx: nat, key: Key, similarity: real)

  predicate Beats(a: Key, b: Key) {
    a.score > b.score || (a.score == b.score && a.tie > b.tie)
  }

  /** Best first: nothing later beats anything earlier. */
  predicate Ranked(s: seq<Key>) {
    forall i, j | 0 <= i < j < |s| :: !Beats(s[j], s[i])
  }

  function Min(a: nat, b: nat): nat {
    if a < b then a else b
  }

  lemma SameSize<T>(a: seq<T>, b: seq<T>)
    requires multiset(a) == multiset(b)
    ensures |a| == |b|
  {
    assert |multiset(a)| == |multiset(b)|;
  }

  function RemoveAt<T>(s: seq<T>, i: nat): (r: seq<T>)
    requires i < |s|
    ensures |r| == |s| - 1
    ensures multiset(r) == multiset(s) - multiset{s[i]}
    ensures forall x | x in r :: x in s
  {
    assert s == s[..i] + [s[i]] + s[i + 1..];
    s[..i] + s[i + 1..]
  }

  function KeysOf(cs: seq<Candidate>): (ks: seq<Key>)
    ensures |ks| == |cs|
    ensures forall i | 0 <= i < |cs| :: ks[i] == cs[i].key
  {
    seq(|cs|, i requires 0 <= i < |cs| => cs[i].key)
  }

  // ---------------------------------------------------------------------
  // The reference: sort all keys, keep the first k.
  // ---------------------------------------------------------------------

  function Insert(x: Key, s: seq<Key>): (r: seq<Key>)
    ensures |r| == |s| + 1
  {
    if s == [] || Beats(x, s[0]) then [x] + s else [s[0]] + Insert(x, s[1..])
  }

  function Sort(s: seq<Key>): (r: seq<Key>)
    ensures |r| == |s|
  {
    if s == [] then [] else Insert(s[|s| - 1], Sort(s[..|s| - 1]))
  }

  /** The k best keys, best first. */
  function Top(s: seq<Key>, k: nat): (r: seq<Key>)
    ensures |r| == Min(k, |s|)
  {
    Sort(s)[..Min(k, |s|)]
  }

  lemma {:induction false} InsertContents(x: Key, s: seq<Key>)
    ensures multiset(Insert(x, s)) == multiset(s) + multiset{x}
  {
    if s != [] && !Beats(x, s[0]) {
      InsertContents(x, s[1..]);
      assert s == [s[0]] + s[1..];
    }
  }

  lemma {:induction false} SortContents(s: seq<Key>)
    ensures multiset(Sort(s)) == multiset(s)
  {
    if s != [] {
      var n := |s| - 1;
      SortContents(s[..n]);
      InsertContents(s[n], Sort(s[..n]));
      assert s == s[..n] + [s[n]];
    }
  }

  lemma {:induction false} InsertRanked(x: Key, s: seq<Key>)
    requires Ranked(s)
    ensures Ranked(Insert(x, s))
  {
    if s != [] && !Beats(x, s[0]) {
      InsertRanked(x, s[1..]);
      InsertContents(x, s[1..]);
      var t := Insert(x, s[1..]);
      forall j | 0 <= j < |t| ensures !Beats(t[j], s[0]) {
        assert t[j] in multiset(s[1..]) + multiset{x};
      }
    }
  }

  lemma {:induction false} SortRanked(s: seq<Key>)
    ensures Ranked(Sort(s))
  {
    if s != [] {
      SortRanked(s[..|s| - 1]);
      InsertRanked(s[|s| - 1], Sort(s[..|s| - 1]));
    }
  }

  lemma SameHead(a: seq<Key>, b: seq<Key>)
    requires Ranked(a) && Ranked(b) && multiset(a) == multiset(b) && a != []
    ensures b != [] && a[0] == b[0]
  {
    assert a[0] in multiset(b);
    assert b[0] in multiset(a);
  }

  lemma TailContents(a: seq<Key>)
    requires a != []
    ensures multiset(a[1..]) == multiset(a) - multiset{a[0]}
  {
    assert a == [a[0]] + a[1..];
  }

  /** A ranked sequence is determined by what it contains. */
  lemma {:induction false} RankedUnique(a: seq<Key>, b: seq<Key>)
    requires Ranked(a) && Ranked(b) && multiset(a) == multiset(b)
    ensures a == b
  {
    SameSize(a, b);
    if a != [] {
      SameHead(a, b);
      TailContents(a);
      TailContents(b);
      RankedUnique(a[1..], b[1..]);
      assert a == [a[0]] + a[1..] && b == [b[0]] + b[1..];
    }
  }

  /** Sorting forgets the order of its input. */
  lemma SortOfSame(a: seq<Key>, b: seq<Key>)
    requires multiset(a) == multiset(b)
    ensures Sort(a) == Sort(b)
  {
    SortRanked(a);
    SortRanked(b);
    SortContents(a);
    SortContents(b);
    RankedUnique(Sort(a), Sort(b));
  }

  /** Only the first k of a ranked sequence matter to the first k after an insertion. */
  lemma {:induction false} InsertIntoPrefix(x: Key, s: seq<Key>, k: nat)
    requires k <= |s|
    ensures Insert(x, s)[..k] == Insert(x, s[..k])[..k]
  {
    if k > 0 && !Beats(x, s[0]) {
      InsertIntoPrefix(x, s[1..], k - 1);
      assert s[1..][..k - 1] == s[..k][1..];
    }
  }

  function InsertAll(xs: seq<Key>, s: seq<Key>): (r: seq<Key>)
    ensures |r| == |s| + |xs|
  {
    if xs == [] then s else Insert(xs[|xs| - 1], InsertAll(xs[..|xs| - 1], s))
  }

  lemma {:induction false} InsertAllContents(xs: seq<Key>, s: seq<Key>)
    ensures multiset(InsertAll(xs, s)) == multiset(s) + multiset(xs)
  {
    if xs != [] {
      InsertAllContents(xs[..|xs| - 1], s);
      InsertContents(xs[|xs| - 1], InsertAll(xs[..|xs| - 1], s));
      assert xs == xs[..|xs| - 1] + [xs[|xs| - 1]];
    }
  }

  lemma {:induction false} InsertAllRanked(xs: seq<Key>, s: seq<Key>)
    requires Ranked(s)
    ensures Ranked(InsertAll(xs, s))
  {
    if xs != [] {
      InsertAllRanked(xs[..|xs| - 1], s);
      InsertRanked(xs[|xs| - 1], InsertAll(xs[..|xs| - 1], s));
    }
  }

  lemma RankedPrefix(s: seq<Key>, k: nat)
    requires Ranked(s) && k <= |s|
    ensures Ranked(s[..k])
  {
  }

  lemma {:induction false} InsertAllIntoPrefix(xs: seq<Key>, s: seq<Key>, k: nat)
    requires k <= |s|
    ensures InsertAll(xs, s)[..k] == InsertAll(xs, s[..k])[..k]
  {
    if xs != [] {
      var x, ys := xs[|xs| - 1], xs[..|xs| - 1];
      InsertAllIntoPrefix(ys, s, k);
      InsertIntoPrefix(x, InsertAll(ys, s), k);
      InsertIntoPrefix(x, InsertAll(ys, s[..k]), k);
    }
  }

  /** Sorting a concatenation is inserting one part into the other, sorted. */
  lemma SortOfConcat(rest: seq<Key>, chunk: seq<Key>, sorted: seq<Key>)
    requires Ranked(sorted) && multiset(sorted) == multiset(chunk)
    ensures Sort(rest + chunk) == InsertAll(rest, sorted)
  {
    InsertAllRanked(rest, sorted);
    InsertAllContents(rest, sorted);
    SortRanked(rest + chunk);
    SortContents(rest + chunk);
    RankedUnique(InsertAll(rest, sorted), Sort(rest + chunk));
  }

  /**
    A chunk may be replaced by its own k best before it is merged with the rest:
    the overall k best do not change.
   */
  lemma TopAbsorbsChunk(rest: seq<Key>, chunk: seq<Key>, best: seq<Key>, k: nat)
    requires multiset(best) == multiset(Top(chunk, k))
    ensures Top(rest + best, k) == Top(rest + chunk, k)
  {
    var sorted := Sort(chunk);
    var n := Min(k, |chunk|);
    SortRanked(chunk);
    SortContents(chunk);
    RankedPrefix(sorted, n);
    SortOfConcat(rest, chunk, sorted);
    SortOfConcat(rest, best, sorted[..n]);
    SameSize(best, sorted[..n]);
    InsertAllIntoPrefix(rest, sorted, n);
    assert k > |chunk| ==> sorted[..n] == sorted;
  }

  // ---------------------------------------------------------------------
  // The bounded heap.
  // ---------------------------------------------------------------------

  /** The heap holds candidates of `seen`, and their keys are the k best keys of `seen`. */
  ghost predicate KeepsTop(heap: seq<Candidate>, seen: seq<Candidate>, k: nat) {
    && multiset(heap) <= multiset(seen)
    && multiset(KeysOf(heap)) == multiset(Top(KeysOf(seen), k))
  }

  lemma KeepsTopEmpty(k: nat)
    ensures KeepsTop([], [], k)
  {
    assert KeysOf([]) == [] == Top(KeysOf([]), k);
  }

  lemma KeepsTopSize(heap: seq<Candidate>, seen: seq<Candidate>, k: nat)
    requires KeepsTop(heap, seen, k)
    ensures |heap| == Min(k, |seen|)
  {
    assert |multiset(KeysOf(heap))| == |multiset(Top(KeysOf(seen), k))|;
  }

  lemma {:induction false} WorstExists(heap: seq<Candidate>) returns (w: nat)
    requires heap != []
    ensures w < |heap| && forall j | 0 <= j < |heap| :: !Beats(heap[w].key, heap[j].key)
  {
    w := 0;
    for i := 1 to |heap|
      invariant w < |heap| && forall j | 0 <= j < i :: !Beats(heap[w].key, heap[j].key)
    {
      if Beats(heap[w].key, heap[i].key) {
        w := i;
      }
    }
  }

  /** Inserting below, or above, the k-th best key. */
  lemma {:induction false} InsertAtCut(x: Key, s: seq<Key>, k: nat)
    requires Ranked(s) && 0 < k <= |s|
    ensures !Beats(x, s[k - 1]) ==> Insert(x, s)[..k] == s[..k]
    ensures Beats(x, s[k - 1]) ==> Insert(x, s)[..k] == Insert(x, s[..k - 1])
  {
    if Beats(x, s[0]) {
    } else if k > 1 {
      InsertAtCut(x, s[1..], k - 1);
      assert s[1..][..k - 1] == s[..k][1..];
      assert s[1..][..k - 2] == s[..k - 1][1..];
    }
  }

  lemma KeysOfAppend(a: seq<Candidate>, b: seq<Candidate>)
    ensures KeysOf(a + b) == KeysOf(a) + KeysOf(b)
  {
  }

  lemma SortAppend(s: seq<Key>, x: Key)
    ensures Sort(s + [x]) == Insert(x, Sort(s))
  {
    assert (s + [x])[..|s|] == s;
  }

  /** The least element of the k best is the last of them. */
  lemma WorstIsLast(heap: seq<Candidate>, w: nat, top: seq<Key>)
    requires w < |heap| && forall j | 0 <= j < |heap| :: !Beats(heap[w].key, heap[j].key)
    requires Ranked(top) && multiset(KeysOf(heap)) == multiset(top)
    ensures top != [] && heap[w].key == top[|top| - 1]
  {
    var ks := KeysOf(heap);
    assert ks[w] in multiset(ks);
    assert |multiset(ks)| == |multiset(top)|;
    assert top[|top| - 1] in multiset(top);
    var i :| 0 <= i < |ks| && ks[i] == top[|top| - 1];
    assert ks[w] in top;
  }

  lemma KeepsTopWithRoom(heap: seq<Candidate>, x: Candidate, k: nat, seen: seq<Candidate>)
    requires KeepsTop(heap, seen, k) && |heap| < k
    ensures KeepsTop(heap + [x], seen + [x], k)
  {
    KeepsTopSize(heap, seen, k);
    SortAppend(KeysOf(seen), x.key);
    InsertContents(x.key, Sort(KeysOf(seen)));
    assert KeysOf(seen + [x]) == KeysOf(seen) + [x.key];
    assert KeysOf(heap + [x]) == KeysOf(heap) + [x.key];
    assert Top(KeysOf(seen), k) == Sort(KeysOf(seen));
    assert Top(KeysOf(seen + [x]), k) == Sort(KeysOf(seen + [x]));
  }

  /** One more key below a ranked sequence's cut at k: the prefix stays, or trades its last key. */
  lemma CutStep(sorted: seq<Key>, x: Key, k: nat)
    requires Ranked(sorted) && 0 < k <= |sorted|
    ensures multiset(Insert(x, sorted)[..k]) ==
              if Beats(x, sorted[k - 1])
              then multiset(sorted[..k]) - multiset{sorted[k - 1]} + multiset{x}
              else multiset(sorted[..k])
  {
    InsertAtCut(x, sorted, k);
    InsertContents(x, sorted[..k - 1]);
    assert sorted[..k] == sorted[..k - 1] + [sorted[k - 1]];
  }

  /** One more key: the k best either stay or trade their last for it. */
  lemma TopStep(ks: seq<Key>, x: Key, k: nat)
    requires 0 < k <= |ks|
    ensures var top := Top(ks, k);
            multiset(Top(ks + [x], k)) ==
              if Beats(x, top[k - 1]) then multiset(top) - multiset{top[k - 1]} + multiset{x}
              else multiset(top)
  {
    SortRanked(ks);
    SortAppend(ks, x);
    CutStep(Sort(ks), x, k);
  }

  lemma ReplaceAt(cs: seq<Candidate>, w: nat, x: Candidate)
    requires w < |cs|
    ensures multiset(cs[w := x]) == multiset(cs) - multiset{cs[w]} + multiset{x}
    ensures multiset(KeysOf(cs[w := x])) == multiset(KeysOf(cs)) - multiset{cs[w].key} + multiset{x.key}
  {
    assert KeysOf(cs[w := x]) == KeysOf(cs)[w := x.key];
  }

  lemma ReplaceBound<T>(h: multiset<T>, s: multiset<T>, y: T, x: T)
    requires h <= s
    ensures h - multiset{y} + multiset{x} <= s + multiset{x}
    ensures h <= s + multiset{x}
  {
  }

  lemma WorstOfTop(heap: seq<Candidate>, w: nat, k: nat, seen: seq<Candidate>)
    requires KeepsTop(heap, seen, k) && |heap| == k <= |seen|
    requires w < k && forall j | 0 <= j < k :: !Beats(heap[w].key, heap[j].key)
    ensures Top(KeysOf(seen), k)[k - 1] == heap[w].key
  {
    var ks := KeysOf(seen);
    SortRanked(ks);
    RankedPrefix(Sort(ks), k);
    WorstIsLast(heap, w, Top(ks, k));
  }

  lemma KeepsTopWhenFull(heap: seq<Candidate>, w: nat, x: Candidate, k: nat, seen: seq<Candidate>)
    requires KeepsTop(heap, seen, k) && |heap| == k <= |seen|
    requires w < k && forall j | 0 <= j < k :: !Beats(heap[w].key, heap[j].key)
    ensures Beats(x.key, heap[w].key) ==> KeepsTop(heap[w := x], seen + [x], k)
    ensures !Beats(x.key, heap[w].key) ==> KeepsTop(heap, seen + [x], k)
  {
    ReplaceAt(heap, w, x);
    WorstOfTop(heap, w, k, seen);
    TopStep(KeysOf(seen), x.key, k);
    ReplaceBound(multiset(heap), multiset(seen), heap[w], x);
    assert KeysOf(seen + [x]) == KeysOf(seen) + [x.key];
    assert multiset(seen + [x]) == multiset(seen) + multiset{x};
  }

  /**
    One candidate offered to a bounded heap of at most k.  The heap's front is
    some least candidate; which one is not fixed when several tie.
   */
  method AddCandidate(heap: seq<Candidate>, x: Candidate, k: nat, ghost seen: seq<Candidate>)
    returns (heap': seq<Candidate>)
    requires k > 0
    requires KeepsTop(heap, seen, k)
    ensures KeepsTop(heap', seen + [x], k)
  {
    KeepsTopSize(heap, seen, k);
    if |heap| < k {
      heap' := heap + [x];
      KeepsTopWithRoom(heap, x, k, seen);
    } else {
      ghost var w0 := WorstExists(heap);
      var w :| 0 <= w < |heap| && forall j | 0 <= j < |heap| :: !Beats(heap[w].key, heap[j].key);
      KeepsTopWhenFull(heap, w, x, k, seen);
      heap' := if Beats(x.key, heap[w].key) then heap[w := x] else heap;
    }
  }

  /** All candidates of one list, offered in order. */
  method AddAll(heap: seq<Candidate>, xs: seq<Candidate>, k: nat, ghost seen: seq<Candidate>)
    returns (heap': seq<Candidate>)
    requires k > 0
    requires KeepsTop(heap, seen, k)
    ensures KeepsTop(heap', seen + xs, k)
  {
    hide KeepsTop;
    heap' := heap;
    assert seen + xs[..0] == seen;
    for i := 0 to |xs|
      invariant KeepsTop(heap', seen + xs[..i], k)
    {
      heap' := AddCandidate(heap', xs[i], k, seen + xs[..i]);
      assert seen + xs[..i] + [xs[i]] == seen + xs[..i + 1];
    }
    assert xs[..|xs|] == xs;
  }

  /** Merging a chunk's own bounded heap is as good as merging the whole chunk. */
  lemma MergeChunk(heap: seq<Candidate>, before: seq<Candidate>, local: seq<Candidate>,
                   chunk: seq<Candidate>, k: nat)
    requires KeepsTop(local, chunk, k)
    requires KeepsTop(heap, before + local, k)
    ensures KeepsTop(heap, before + chunk, k)
  {
    KeysOfAppend(before, local);
    KeysOfAppend(before, chunk);
    TopAbsorbsChunk(KeysOf(before), KeysOf(chunk), KeysOf(local), k);
  }

  // ---------------------------------------------------------------------
  // Sorting the survivors.
  // ---------------------------------------------------------------------

  /** Takes out one of the least candidates. */
  method TakeWorst(todo: seq<Candidate>) returns (x: Candidate, rest: seq<Candidate>)
    requires todo != []
    ensures |rest| == |todo| - 1 && multiset(todo) == multiset(rest) + multiset{x}
    ensures x in todo && forall c | c in rest :: c in todo
    ensures forall c | c in rest :: !Beats(x.key, c.key)
  {
    ghost var w0 := WorstExists(todo);
    var w :| 0 <= w < |todo| && forall j | 0 <= j < |todo| :: !Beats(todo[w].key, todo[j].key);
    x, rest := todo[w], RemoveAt(todo, w);
  }

  lemma RankedPush(x: Candidate, out: seq<Candidate>)
    requires Ranked(KeysOf(out)) && forall o | o in out :: !Beats(o.key, x.key)
    ensures Ranked(KeysOf([x] + out))
  {
    assert KeysOf([x] + out) == [x.key] + KeysOf(out);
    forall j | 0 <= j < |out| ensures !Beats(KeysOf(out)[j], x.key) {
      assert out[j] in out;
    }
  }

  method RankSort(cs: seq<Candidate>) returns (out: seq<Candidate>)
    ensures multiset(out) == multiset(cs)
    ensures Ranked(KeysOf(out))
  {
    // Any least candidate goes to the front of the sorted suffix.
    var todo := cs;
    out := [];
    while todo != []
      invariant multiset(todo) + multiset(out) == multiset(cs)
      invariant Ranked(KeysOf(out))
      invariant forall t: Candidate, o: Candidate | t in todo && o in out :: !Beats(o.key, t.key)
      decreases |todo|
    {
      var x, rest := TakeWorst(todo);
      RankedPush(x, out);
      todo, out := rest, [x] + out;
    }
  }

  // ---------------------------------------------------------------------
  // What a finished search promises.
  // ---------------------------------------------------------------------

  lemma SubMultiset<T>(a: multiset<T>, b: multiset<T>, x: T)
    requires x in a && x in b
    ensures a <= b <==> a - multiset{x} <= b - multiset{x}
  {
    if a - multiset{x} <= b - multiset{x} {
      assert a == a - multiset{x} + multiset{x};
      assert b == b - multiset{x} + multiset{x};
    }
  }

  lemma Without(cs: seq<Candidate>, i: nat) returns (r: seq<Candidate>)
    requires i < |cs|
    ensures |r| == |cs| - 1
    ensures multiset(r) == multiset(cs) - multiset{cs[i]}
    ensures multiset(KeysOf(r)) == multiset(KeysOf(cs)) - multiset{cs[i].key}
    ensures cs[i] in multiset(cs) && cs[i].key in multiset(KeysOf(cs))
  {
    r := RemoveAt(cs, i);
    assert KeysOf(r) == RemoveAt(KeysOf(cs), i);
    assert KeysOf(cs)[i] == cs[i].key;
  }

  lemma {:induction false} KeysMonotone(a: seq<Candidate>, b: seq<Candidate>)
    requires multiset(a) <= multiset(b)
    ensures multiset(KeysOf(a)) <= multiset(KeysOf(b))
    decreases |a|
  {
    if a != [] {
      var x := a[0];
      assert x in multiset(b);
      var i :| 0 <= i < |b| && b[i] == x;
      SubMultiset(multiset(a), multiset(b), x);
      var a' := Without(a, 0);
      var b' := Without(b, i);
      KeysMonotone(a', b');
      SubMultiset(multiset(KeysOf(a)), multiset(KeysOf(b)), x.key);
    } else {
      assert KeysOf(a) == [];
    }
  }

  /** The exact answer: ranked, drawn from `all`, with the k best keys of `all`. */
  ghost predicate IsTopOf(out: seq<Candidate>, all: seq<Candidate>, k: nat) {
    && multiset(out) <= multiset(all)
    && KeysOf(out) == Top(KeysOf(all), k)
  }

  lemma SortedHeapIsTop(out: seq<Candidate>, heap: seq<Candidate>, all: seq<Candidate>, k: nat)
    requires KeepsTop(heap, all, k)
    requires multiset(out) == multiset(heap) && Ranked(KeysOf(out))
    ensures IsTopOf(out, all, k)
  {
    KeysMonotone(out, heap);
    KeysMonotone(heap, out);
    SortRanked(KeysOf(all));
    RankedPrefix(Sort(KeysOf(all)), Min(k, |all|));
    RankedUnique(KeysOf(out), Top(KeysOf(all), k));
  }

  /** A key counted more often in s than in its k best is found after the cut. */
  lemma BelowCut(s: seq<Key>, k: nat, x: Key) returns (j: nat)
    requires multiset(Top(s, k))[x] < multiset(s)[x]
    ensures k <= j < |s| && Sort(s)[j] == x
  {
    var sorted := Sort(s);
    SortContents(s);
    var n := Min(k, |s|);
    assert sorted == sorted[..n] + sorted[n..];
    assert x in multiset(sorted[n..]);
    var i :| 0 <= i < |sorted[n..]| && sorted[n..][i] == x;
    j := n + i;
  }

  /**
    A candidate left out of an exact answer beats nothing in it, and something is
    left out only when the answer already holds k.
   */
  lemma OmittedNeverBeats(out: seq<Candidate>, all: seq<Candidate>, k: nat, c: Candidate)
    requires IsTopOf(out, all, k)
    requires multiset(out)[c] < multiset(all)[c]
    ensures |out| == k
    ensures forall o | o in out :: !Beats(c.key, o.key)
  {
    var ks := KeysOf(all);
    KeysMonotone(out + [c], all);
    assert KeysOf(out + [c]) == KeysOf(out) + [c.key];
    var j := BelowCut(ks, k, c.key);
    SortRanked(ks);
    forall o | o in out ensures !Beats(c.key, o.key) {
      var i :| 0 <= i < |out| && out[i] == o;
      assert KeysOf(out)[i] == Sort(ks)[i];
    }
  }
}
