/**
  The partition migrator: moves the rows of symbols between nodes, retrying each
  move with dual writes around every attempt, rolling back what a failed copy left
  and saving a checkpoint after each attempt.

  What the network does to the attempts is given as a function of how many came
  before.  The rows of a node's table are kept by symbol.
 */
module Migrator {
  import opened Rebalance

  type Symbol = nat

  datatype Row = Row(price: int, volume: int, timestamp: int)

  type Tables = map<(NodeId, Symbol), seq<Row>>

  datatype MoveState = Pending | DualWrite | Copying | Committed | Failed

  datatype MoveError = NoError | TimedOut | CopyFailed(attempt: int)

  datatype MoveStatus = MoveStatus(move: Move, state: MoveState, error: MoveError, rows: nat, attempts: int)

  /** What goes wrong in one attempt; `reached` rows arrive when the transfer breaks off. */
  datatype Trouble = Trouble(selectFails: bool, transferFails: bool, reached: nat, late: bool, deleteFails: bool)

  datatype RouterCall = Begin(symbol: Symbol, from: NodeId, to: NodeId) | Commit(symbol: Symbol, owner: NodeId) | Abort(symbol: Symbol) | End(symbol: Symbol)

  function RowsAt(tables: Tables, node: NodeId, symbol: Symbol): seq<Row> {
    if (node, symbol) in tables then tables[(node, symbol)] else []
  }

  /** Every other symbol on every other node keeps its rows. */
  ghost predicate OthersKept(a: Tables, b: Tables, node: NodeId, symbol: Symbol) {
    forall n: NodeId, s: Symbol | (n, s) != (node, symbol) :: RowsAt(a, n, s) == RowsAt(b, n, s)
  }

  lemma OthersKeptTwice(a: Tables, b: Tables, c: Tables, node: NodeId, symbol: Symbol)
    requires OthersKept(a, b, node, symbol) && OthersKept(b, c, node, symbol)
    ensures OthersKept(a, c, node, symbol)
  {
    hide RowsAt;
  }

  /** Whether the copy of an attempt succeeds. */
  predicate Copies(known: bool, source: seq<Row>, t: Trouble) {
    known && !t.selectFails && (source == [] || !t.transferFails)
  }

  /** The rows a copy brings over, whether or not it succeeds. */
  function Arrive(known: bool, source: seq<Row>, t: Trouble): seq<Row> {
    if !known || t.selectFails then []
    else if !t.transferFails then source
    else if t.reached < |source| then source[..t.reached] else source
  }

  /** The destination's rows after an attempt. */
  function AfterAttempt(timeouts: bool, known: bool, destKnown: bool, source: seq<Row>, dest: seq<Row>, t: Trouble): seq<Row> {
    var there := dest + Arrive(known, source, t);
    if (timeouts && t.late) || Copies(known, source, t) || !destKnown || t.deleteFails then there else []
  }

  /** The state an attempt ends in. */
  function EndOf(timeouts: bool, known: bool, source: seq<Row>, t: Trouble): MoveState {
    if !(timeouts && t.late) && Copies(known, source, t) then Committed else Failed
  }

  /** The router call that closes an attempt. */
  function ClosingCall(timeouts: bool, known: bool, source: seq<Row>, mv: Move, t: Trouble): RouterCall {
    if timeouts && t.late then End(mv.symbol)
    else if Copies(known, source, t) then Commit(mv.symbol, mv.to)
    else Abort(mv.symbol)
  }

  /** Every attempt opens with a begin and is closed once, for the same symbol. */
  predicate Bracketed(calls: seq<RouterCall>) {
    calls == [] ||
    (var n := |calls|;
     n >= 2 && calls[n - 2].Begin? && !calls[n - 1].Begin? && calls[n - 1].symbol == calls[n - 2].symbol && Bracketed(calls[..n - 2]))
  }

  lemma BracketedMore(calls: seq<RouterCall>, open: RouterCall, close: RouterCall)
    requires Bracketed(calls) && open.Begin? && !close.Begin? && close.symbol == open.symbol
    ensures Bracketed(calls + [open, close])
  {
    assert (calls + [open, close])[..|calls|] == calls;
  }

  lemma {:induction false} BracketedConcat(a: seq<RouterCall>, b: seq<RouterCall>)
    requires Bracketed(a) && Bracketed(b)
    ensures Bracketed(a + b)
    decreases |b|
  {
    if b == [] {
      assert a + b == a;
    } else {
      var n := |b|;
      BracketedConcat(a, b[..n - 2]);
      BracketedMore(a + b[..n - 2], b[n - 2], b[n - 1]);
      assert a + b == a + b[..n - 2] + [b[n - 2], b[n - 1]];
    }
  }

  // ---------------------------------------------------------------------
  // What the attempts at one move do to the destination.
  // ---------------------------------------------------------------------

  /** The circumstances of a move: they stay the same over its attempts. */
  datatype Setting = Setting(timeouts: bool, known: bool, destKnown: bool, source: seq<Row>, net: nat -> Trouble)

  predicate Commits(s: Setting, k: nat) {
    EndOf(s.timeouts, s.known, s.source, s.net(k)) == Committed
  }

  /** The destination's rows after attempts n up to m. */
  function AfterAttempts(s: Setting, dest: seq<Row>, n: nat, m: nat): seq<Row> {
    if m <= n then dest
    else AfterAttempt(s.timeouts, s.known, s.destKnown, s.source, AfterAttempts(s, dest, n, m - 1), s.net(m - 1))
  }

  /** All attempts but the last failed. */
  predicate Retried(s: Setting, n: nat, m: nat) {
    forall k | n <= k < m - 1 :: !Commits(s, k)
  }

  /** An attempt whose rollback removes what is there. */
  predicate Cleans(s: Setting, k: nat) {
    !(s.timeouts && s.net(k).late) && !Copies(s.known, s.source, s.net(k)) && s.destKnown && !s.net(k).deleteFails
  }

  predicate Leaves(s: Setting, k: nat) {
    Arrive(s.known, s.source, s.net(k)) != []
  }

  /** Rows of attempt k are still there before attempt m. */
  predicate LeftOver(s: Setting, k: nat, m: nat) {
    Leaves(s, k) && forall r | k <= r < m :: !Cleans(s, r)
  }

  predicate NoneLeftOver(s: Setting, n: nat, m: nat) {
    forall k | n <= k < m :: !LeftOver(s, k, m)
  }

  /** Failed attempts leave an empty destination empty exactly if every one that brought rows over is followed by a rollback that works. */
  lemma {:induction false} FailuresLeaveNothing(s: Setting, n: nat, m: nat)
    requires n <= m && forall k | n <= k < m :: !Commits(s, k)
    ensures AfterAttempts(s, [], n, m) == [] <==> NoneLeftOver(s, n, m)
    decreases m
  {
    if n < m {
      FailuresLeaveNothing(s, n, m - 1);
      if Cleans(s, m - 1) {
        assert AfterAttempts(s, [], n, m) == [];
      } else {
        LastFailureKeeps(s, n, m);
        LeftOverStep(s, n, m);
        var before, more := AfterAttempts(s, [], n, m - 1), Arrive(s.known, s.source, s.net(m - 1));
        assert |before + more| == |before| + |more|;
      }
    }
  }

  lemma LeftOverStep(s: Setting, n: nat, m: nat)
    requires n < m && !Cleans(s, m - 1)
    ensures NoneLeftOver(s, n, m) <==> NoneLeftOver(s, n, m - 1) && !Leaves(s, m - 1)
  {
    hide Cleans;
    hide Leaves;
    var p := m - 1;
    assert LeftOver(s, p, m) <==> Leaves(s, p);
    forall k: nat | n <= k < p ensures LeftOver(s, k, m) <==> LeftOver(s, k, p) {
    }
    if NoneLeftOver(s, n, m) {
      forall k | n <= k < p ensures !LeftOver(s, k, p) {
        assert !LeftOver(s, k, m);
      }
    }
  }

  lemma LastFailureKeeps(s: Setting, n: nat, m: nat)
    requires n < m && !Commits(s, m - 1) && !Cleans(s, m - 1)
    ensures AfterAttempts(s, [], n, m) == AfterAttempts(s, [], n, m - 1) + Arrive(s.known, s.source, s.net(m - 1))
  {
  }

  /**
    A committed move into an empty destination ends with exactly one copy of the
    source rows if and only if no failed attempt's rows were left over.
   */
  lemma ExactlyOneCopy(s: Setting, n: nat, m: nat)
    requires n < m && Retried(s, n, m) && Commits(s, m - 1)
    ensures AfterAttempts(s, [], n, m) == s.source <==> NoneLeftOver(s, n, m - 1)
  {
    FailuresLeaveNothing(s, n, m - 1);
    var there := AfterAttempts(s, [], n, m - 1);
    assert AfterAttempts(s, [], n, m) == there + s.source;
    assert |there + s.source| == |there| + |s.source|;
    assert [] + s.source == s.source;
  }

  /** Without timeouts and with working deletes: exactly one copy, or none. */
  lemma OneCopyOrNone(s: Setting, n: nat, m: nat)
    requires n < m && Retried(s, n, m) && (s.known ==> s.destKnown)
    requires forall k | n <= k < m :: !(s.timeouts && s.net(k).late) && !s.net(k).deleteFails
    ensures AfterAttempts(s, [], n, m) == if Commits(s, m - 1) then s.source else []
  {
    forall k | n <= k < m && !Commits(s, k) && Leaves(s, k) ensures Cleans(s, k) {
    }
    FailuresLeaveNothing(s, n, m - 1);
    if Commits(s, m - 1) {
      ExactlyOneCopy(s, n, m);
    } else {
      FailuresLeaveNothing(s, n, m);
    }
  }

  /** A timed-out attempt whose copy arrives after all, then one that commits: every row is there twice. */
  lemma LateCopyDuplicates(s: Setting, n: nat)
    requires s.timeouts && s.known && s.net(n).late && !s.net(n).selectFails && !s.net(n).transferFails
    requires Commits(s, n + 1)
    ensures AfterAttempts(s, [], n, n + 2) == s.source + s.source
  {
    assert AfterAttempts(s, [], n, n) == [];
    assert AfterAttempts(s, [], n, n + 1) == [] + s.source;
    assert AfterAttempts(s, [], n, n + 2) == AfterAttempts(s, [], n, n + 1) + s.source;
  }

  /** Attempts n up to m took the destination from `dest` to `now`, and only the last may have committed. */
  ghost predicate Attempted(s: Setting, dest: seq<Row>, n: nat, m: nat, now: seq<Row>, committed: bool) {
    && n <= m && now == AfterAttempts(s, dest, n, m) && Retried(s, n, m)
    && (committed <==> m > n && Commits(s, m - 1))
  }

  lemma NotYetAttempted(s: Setting, dest: seq<Row>, n: nat)
    ensures Attempted(s, dest, n, n, dest, false)
  {
  }

  lemma AttemptedAgain(s: Setting, dest: seq<Row>, n: nat, m: nat, now: seq<Row>, next: seq<Row>)
    requires Attempted(s, dest, n, m, now, false)
    requires next == AfterAttempt(s.timeouts, s.known, s.destKnown, s.source, now, s.net(m))
    ensures Attempted(s, dest, n, m + 1, next, Commits(s, m))
  {
  }

  // ---------------------------------------------------------------------
  // What a resume does to a move.
  // ---------------------------------------------------------------------

  /** A move is retried only while it is pending or failed and has attempts left. */
  predicate Due(ms: MoveStatus, maxRetries: int) {
    (ms.state == Pending || ms.state == Failed) && ms.attempts < maxRetries
  }

  /** What a resume makes of a move. */
  predicate Resumed(before: MoveStatus, after: MoveStatus, maxRetries: int) {
    && after.move == before.move
    && (Due(before, maxRetries) ==>
          && before.attempts < after.attempts <= maxRetries
          && ((after.state == Committed && after.error == NoError) || (after.state == Failed && after.attempts == maxRetries)))
    && (!Due(before, maxRetries) ==> after == before.(state := if before.state == Failed then Pending else before.state))
  }

  lemma ResumedMeans(before: MoveStatus, after: MoveStatus, maxRetries: int)
    ensures Resumed(before, after, maxRetries) <==>
      && after.move == before.move
      && ((before.state == Pending || before.state == Failed) && before.attempts < maxRetries ==>
            && before.attempts < after.attempts <= maxRetries
            && ((after.state == Committed && after.error == NoError) || (after.state == Failed && after.attempts == maxRetries)))
      && (!((before.state == Pending || before.state == Failed) && before.attempts < maxRetries) ==>
            after == before.(state := if before.state == Failed then Pending else before.state))
  {
  }

  type Checkpoint = seq<MoveStatus>

  /** The same moves, and every one committed earlier is still as it was. */
  ghost predicate Behind(early: Checkpoint, late: Checkpoint) {
    && |early| == |late|
    && forall i | 0 <= i < |early| :: early[i].move == late[i].move && (early[i].state == Committed ==> late[i] == early[i])
  }

  ghost predicate AllBehind(saves: seq<Checkpoint>, late: Checkpoint) {
    forall s: Checkpoint | s in saves :: Behind(s, late)
  }

  lemma BehindLater(saves: seq<Checkpoint>, a: Checkpoint, b: Checkpoint)
    requires AllBehind(saves, a) && Behind(a, b)
    ensures AllBehind(saves, b)
  {
  }

  /** A move not yet committed may change, and nothing saved before is contradicted. */
  lemma MoveGoesOn(saves: seq<Checkpoint>, cp: Checkpoint, i: nat, a: MoveStatus, b: MoveStatus)
    requires i < |cp| && AllBehind(saves, cp[i := a]) && a.state != Committed && a.move == b.move
    ensures AllBehind(saves, cp[i := b])
  {
    BehindLater(saves, cp[i := a], cp[i := b]);
  }

  // ---------------------------------------------------------------------
  // A whole plan.
  // ---------------------------------------------------------------------

  /** The attempts made at all moves of a checkpoint. */
  function Attempts(cp: Checkpoint): int {
    if cp == [] then 0 else Attempts(cp[..|cp| - 1]) + cp[|cp| - 1].attempts
  }

  lemma {:induction false} AttemptsUpdate(cp: Checkpoint, i: nat, ms: MoveStatus)
    requires i < |cp|
    ensures Attempts(cp[i := ms]) == Attempts(cp) - cp[i].attempts + ms.attempts
  {
    var n := |cp| - 1;
    if i < n {
      AttemptsUpdate(cp[..n], i, ms);
      assert cp[i := ms][..n] == cp[..n][i := ms];
    } else {
      assert cp[i := ms][..n] == cp[..n];
    }
  }

  lemma {:induction false} NoAttempts(cp: Checkpoint)
    requires forall i | 0 <= i < |cp| :: cp[i].attempts == 0
    ensures Attempts(cp) == 0
  {
    if cp != [] {
      NoAttempts(cp[..|cp| - 1]);
    }
  }

  /** The symbols of the first n moves that are to be retried. */
  function DueSymbols(cp: Checkpoint, n: nat, maxRetries: int): set<Symbol> {
    set i | 0 <= i < n && i < |cp| && Due(cp[i], maxRetries) :: cp[i].move.symbol
  }

  /** The calls behind the first n concern these symbols. */
  predicate CallsFor(calls: seq<RouterCall>, n: nat, symbols: set<Symbol>) {
    n <= |calls| && forall k | n <= k < |calls| :: calls[k].symbol in symbols
  }

  lemma CallsForMore(log: seq<RouterCall>, calls: seq<RouterCall>, n: nat, some: set<Symbol>, more: set<Symbol>, all: set<Symbol>)
    requires CallsFor(log, n, some) && log <= calls && CallsFor(calls, |log|, more)
    requires some <= all && (more <= all || |calls| == |log|)
    ensures CallsFor(calls, n, all)
  {
    forall k | n <= k < |calls| ensures calls[k].symbol in all {
      if k < |log| { assert calls[k] == log[k]; }
    }
  }

  lemma DueGrows(cp: Checkpoint, i: nat, maxRetries: int)
    requires i < |cp|
    ensures DueSymbols(cp, i, maxRetries) <= DueSymbols(cp, i + 1, maxRetries)
    ensures Due(cp[i], maxRetries) ==> {cp[i].move.symbol} <= DueSymbols(cp, i + 1, maxRetries)
  {
  }

  /** A plan none of whose moves has been tried. */
  function FreshPlan(moves: seq<Move>): (cp: Checkpoint)
    ensures |cp| == |moves| && forall i | 0 <= i < |moves| :: cp[i] == MoveStatus(moves[i], Pending, NoError, 0, 0)
  {
    seq(|moves|, i requires 0 <= i < |moves| => MoveStatus(moves[i], Pending, NoError, 0, 0))
  }

  lemma Tail<T>(a: seq<T>, b: seq<T>, c: seq<T>)
    ensures (a + b + c)[..|a|] == a && (a + b + c)[|a|..] == b + c
  {
  }

  /** A move's rows after a resume: one copy at the destination or none, and no other node's rows touched. */
  ghost predicate Delivered(before: MoveStatus, after: MoveStatus, a: Tables, b: Tables, maxRetries: int) {
    var mv := before.move;
    && RowsAt(b, mv.to, mv.symbol) ==
         (if !Due(before, maxRetries) then RowsAt(a, mv.to, mv.symbol)
          else if after.state == Committed then RowsAt(a, mv.from, mv.symbol) else [])
    && forall node: NodeId | node != mv.to :: RowsAt(b, node, mv.symbol) == RowsAt(a, node, mv.symbol)
  }

  /** Every symbol once, between different nodes, and nothing of it at the destination of a move still to do. */
  predicate CleanPlan(cp: Checkpoint, tables: Tables, maxRetries: int) {
    && (forall i, j | 0 <= i < j < |cp| :: cp[i].move.symbol != cp[j].move.symbol)
    && (forall i | 0 <= i < |cp| :: cp[i].move.from != cp[i].move.to)
    && (forall i | 0 <= i < |cp| && Due(cp[i], maxRetries) :: RowsAt(tables, cp[i].move.to, cp[i].move.symbol) == [])
  }

  ghost predicate Untouched(cp: Checkpoint, i: nat, a: Tables, b: Tables) {
    forall j, node: NodeId | i <= j < |cp| :: RowsAt(b, node, cp[j].move.symbol) == RowsAt(a, node, cp[j].move.symbol)
  }

  ghost predicate DeliveredTo(cp: Checkpoint, out: Checkpoint, i: nat, a: Tables, b: Tables, maxRetries: int) {
    |out| == |cp| && forall j | 0 <= j < i && j < |cp| :: Delivered(cp[j], out[j], a, b, maxRetries)
  }

  lemma DeliverNext(cp: Checkpoint, out: Checkpoint, i: nat, after: MoveStatus, a: Tables, b: Tables, c: Tables, maxRetries: int)
    requires i < |cp| == |out| && CleanPlan(cp, a, maxRetries)
    requires DeliveredTo(cp, out, i, a, b, maxRetries) && Untouched(cp, i, a, b)
    requires OthersKept(b, c, cp[i].move.to, cp[i].move.symbol) && Delivered(cp[i], after, b, c, maxRetries)
    ensures DeliveredTo(cp, out[i := after], i + 1, a, c, maxRetries) && Untouched(cp, i + 1, a, c)
  {
    hide RowsAt;
    forall j | 0 <= j <= i ensures Delivered(cp[j], out[i := after][j], a, c, maxRetries) {
      if j < i {
        assert Delivered(cp[j], out[j], a, b, maxRetries);
        assert cp[j].move.symbol != cp[i].move.symbol;
      }
    }
    forall j, node: NodeId | i + 1 <= j < |cp| ensures RowsAt(c, node, cp[j].move.symbol) == RowsAt(a, node, cp[j].move.symbol) {
      assert cp[i].move.symbol != cp[j].move.symbol;
    }
  }

  class PartitionMigrator {
    const nodes: set<NodeId>
    const maxRetries: int
    const timeouts: bool
    const checkpoints: bool
    const net: nat -> Trouble

    var made: nat
    var tables: Tables
    var migrating: map<Symbol, (NodeId, NodeId)>
    var recent: map<Symbol, (NodeId, NodeId)>
    var pinned: map<Symbol, NodeId>
    var calls: seq<RouterCall>
    var saves: seq<Checkpoint>
    var movesCompleted: nat
    var movesFailed: nat
    var rowsMigrated: nat

    constructor (nodes: set<NodeId>, maxRetries: int, timeouts: bool, checkpoints: bool, net: nat -> Trouble, tables: Tables)
      ensures this.tables == tables && calls == [] && saves == [] && migrating == map[] && made == 0
      ensures this.nodes == nodes && this.maxRetries == maxRetries && this.timeouts == timeouts && this.checkpoints == checkpoints && this.net == net
    {
      this.nodes, this.maxRetries, this.timeouts, this.checkpoints, this.net := nodes, maxRetries, timeouts, checkpoints, net;
      made, this.tables, migrating, recent, pinned := 0, tables, map[], map[], map[];
      calls, saves, movesCompleted, movesFailed, rowsMigrated := [], [], 0, 0, 0;
    }

    predicate Known(mv: Move) {
      mv.from in nodes && mv.to in nodes
    }

    /** Copies a symbol's rows to another node. */
    method MigrateSymbol(mv: Move, t: Trouble) returns (ok: bool, rows: nat)
      modifies this`tables, this`movesCompleted, this`movesFailed, this`rowsMigrated
      ensures ok <==> Copies(Known(mv), RowsAt(old(tables), mv.from, mv.symbol), t)
      ensures rows == if ok then |RowsAt(old(tables), mv.from, mv.symbol)| else 0
      ensures RowsAt(tables, mv.to, mv.symbol) ==
        RowsAt(old(tables), mv.to, mv.symbol) + Arrive(Known(mv), RowsAt(old(tables), mv.from, mv.symbol), t)
      ensures OthersKept(old(tables), tables, mv.to, mv.symbol)
    {
      rows := 0;
      if mv.from !in nodes || mv.to !in nodes { return false, rows; }
      if t.selectFails {
        movesFailed := movesFailed + 1;
        return false, rows;
      }
      var batch := RowsAt(tables, mv.from, mv.symbol);
      if batch == [] {
        movesCompleted := movesCompleted + 1;
        return true, rows;
      }
      var arrived := if t.transferFails && t.reached < |batch| then batch[..t.reached] else batch;
      tables := tables[(mv.to, mv.symbol) := RowsAt(tables, mv.to, mv.symbol) + arrived];
      if t.transferFails {
        movesFailed := movesFailed + 1;
        return false, rows;
      }
      rows := |batch|;
      movesCompleted := movesCompleted + 1;
      rowsMigrated := rowsMigrated + |batch|;
      return true, rows;
    }

    /** Deletes whatever the destination holds of the symbol. */
    method RollbackMove(symbol: Symbol, dest: NodeId, t: Trouble)
      modifies this`tables
      ensures RowsAt(tables, dest, symbol) == if dest in nodes && !t.deleteFails then [] else RowsAt(old(tables), dest, symbol)
      ensures OthersKept(old(tables), tables, dest, symbol)
    {
      if dest !in nodes { return; }
      if !t.deleteFails {
        tables := tables - {(dest, symbol)};
      }
    }

    method BeginMigration(symbol: Symbol, from: NodeId, to: NodeId)
      modifies this`migrating, this`calls
      ensures migrating == old(migrating)[symbol := (from, to)] && calls == old(calls) + [Begin(symbol, from, to)]
    {
      migrating := migrating[symbol := (from, to)];
      calls := calls + [Begin(symbol, from, to)];
    }

    method EndMigration(symbol: Symbol)
      modifies this`migrating, this`recent, this`calls
      ensures migrating == old(migrating) - {symbol} && calls == old(calls) + [End(symbol)]
      ensures recent == if symbol in old(migrating) then old(recent)[symbol := old(migrating)[symbol]] else old(recent)
    {
      if symbol in migrating {
        recent := recent[symbol := migrating[symbol]];
      }
      migrating := migrating - {symbol};
      calls := calls + [End(symbol)];
    }

    method CommitMigration(symbol: Symbol, owner: NodeId)
      modifies this`migrating, this`recent, this`pinned, this`calls
      ensures migrating == old(migrating) - {symbol} && recent == old(recent) - {symbol} && pinned == old(pinned)[symbol := owner]
      ensures calls == old(calls) + [Commit(symbol, owner)]
    {
      pinned := pinned[symbol := owner];
      migrating := migrating - {symbol};
      recent := recent - {symbol};
      calls := calls + [Commit(symbol, owner)];
    }

    method AbortMigration(symbol: Symbol)
      modifies this`migrating, this`calls
      ensures migrating == old(migrating) - {symbol} && calls == old(calls) + [Abort(symbol)]
    {
      migrating := migrating - {symbol};
      calls := calls + [Abort(symbol)];
    }

    /** One attempt. */
    method ExecuteMove(before: MoveStatus) returns (ms: MoveStatus)
      modifies this`made, this`tables, this`migrating, this`recent, this`pinned, this`calls, this`movesCompleted, this`movesFailed, this`rowsMigrated
      ensures made == old(made) + 1 && ms.move == before.move && ms.attempts == before.attempts + 1
      ensures var mv, t := before.move, net(old(made));
        var source, dest := RowsAt(old(tables), mv.from, mv.symbol), RowsAt(old(tables), mv.to, mv.symbol);
        && ms.state == EndOf(timeouts, Known(mv), source, t)
        && (ms.state == Committed ==> ms.error == NoError && ms.rows == |source| && mv.symbol in pinned && pinned[mv.symbol] == mv.to)
        && (ms.state == Failed ==> pinned == old(pinned))
        && RowsAt(tables, mv.to, mv.symbol) == AfterAttempt(timeouts, Known(mv), mv.to in nodes, source, dest, t)
        && calls == old(calls) + [Begin(mv.symbol, mv.from, mv.to), ClosingCall(timeouts, Known(mv), source, mv, t)]
      ensures OthersKept(old(tables), tables, before.move.to, before.move.symbol)
      ensures migrating == old(migrating) - {before.move.symbol}
    {
      hide OthersKept;
      hide RowsAt;
      hide Copies;
      hide Arrive;
      var mv, t := before.move, net(made);
      made := made + 1;
      ms := before.(attempts := before.attempts + 1, state := DualWrite);
      BeginMigration(mv.symbol, mv.from, mv.to);
      ms := ms.(state := Copying);
      var ok, rows := MigrateSymbol(mv, t);
      ghost var copied := tables;
      if timeouts && t.late {
        ms := ms.(state := Failed, error := TimedOut);
        EndMigration(mv.symbol);
        return;
      }
      if ok {
        ms := ms.(state := Committed, rows := rows, error := NoError);
        CommitMigration(mv.symbol, mv.to);
      } else {
        RollbackMove(mv.symbol, mv.to, t);
        OthersKeptTwice(old(tables), copied, tables, mv.to, mv.symbol);
        ms := ms.(state := Failed, error := CopyFailed(ms.attempts));
        AbortMigration(mv.symbol);
      }
    }

    function SettingOf(mv: Move): Setting
      reads this`tables
    {
      Setting(timeouts, Known(mv), mv.to in nodes, RowsAt(tables, mv.from, mv.symbol), net)
    }

    /** The attempts so far at a move between two nodes. */
    ghost predicate OnTrack(mv: Move, s: Setting, dest: seq<Row>, n: nat, committed: bool)
      reads this`tables, this`made
    {
      mv.from != mv.to ==> SettingOf(mv) == s && Attempted(s, dest, n, made, RowsAt(tables, mv.to, mv.symbol), committed)
    }

    /** The router calls since `base`: two for each of `k` attempts. */
    ghost predicate Logged(base: seq<RouterCall>, k: int)
      reads this`calls
    {
      |base| <= |calls| && calls[..|base|] == base && Bracketed(calls[|base|..]) && |calls| == |base| + 2 * k
    }

    /** All of them for one symbol. */
    ghost predicate LoggedFor(base: seq<RouterCall>, k: int, symbol: Symbol)
      reads this`calls
    {
      Logged(base, k) && CallsFor(calls, |base|, {symbol})
    }

    lemma LoggedNone(symbol: Symbol)
      ensures Logged(calls, 0) && LoggedFor(calls, 0, symbol)
    {
    }

    /** ExecuteMove, as one more of the attempts at a move. */
    method NextAttempt(before: MoveStatus, ghost s: Setting, ghost dest: seq<Row>, ghost n: nat, ghost base: seq<RouterCall>, ghost k: int)
      returns (ms: MoveStatus)
      requires OnTrack(before.move, s, dest, n, false) && LoggedFor(base, k, before.move.symbol)
      modifies this`made, this`tables, this`migrating, this`recent, this`pinned, this`calls, this`movesCompleted, this`movesFailed, this`rowsMigrated
      ensures made == old(made) + 1 && ms.move == before.move && ms.attempts == before.attempts + 1
      ensures (ms.state == Committed && ms.error == NoError) || ms.state == Failed
      ensures OnTrack(before.move, s, dest, n, ms.state == Committed) && LoggedFor(base, k + 1, before.move.symbol)
      ensures OthersKept(old(tables), tables, before.move.to, before.move.symbol)
      ensures migrating == old(migrating) - {before.move.symbol}
    {
      hide Copies;
      hide Arrive;
      hide AfterAttempt;
      hide Attempted;
      hide Bracketed;
      hide CallsFor;
      var mv := before.move;
      ghost var t, source, now := net(made), RowsAt(tables, mv.from, mv.symbol), RowsAt(tables, mv.to, mv.symbol);
      ghost var log := calls;
      hide RowsAt;
      ms := ExecuteMove(before);
      if mv.from != mv.to {
        AttemptedAgain(s, dest, n, old(made), now, RowsAt(tables, mv.to, mv.symbol));
      }
      LoggedMore(base, log, Begin(mv.symbol, mv.from, mv.to), ClosingCall(timeouts, Known(mv), source, mv, t));
    }

    lemma LoggedMore(base: seq<RouterCall>, log: seq<RouterCall>, open: RouterCall, close: RouterCall)
      requires |base| <= |log| && log[..|base|] == base && Bracketed(log[|base|..]) && CallsFor(log, |base|, {open.symbol})
      requires open.Begin? && !close.Begin? && close.symbol == open.symbol && calls == log + [open, close]
      ensures |base| <= |calls| && calls[..|base|] == base && Bracketed(calls[|base|..]) && CallsFor(calls, |base|, {open.symbol})
    {
      BracketedMore(log[|base|..], open, close);
      assert calls[|base|..] == log[|base|..] + [open, close];
      assert calls[..|base|] == base;
    }

    /** Notes a checkpoint, if a path for it is set. */
    method Save(cp: Checkpoint, ghost since: nat)
      requires since <= |saves| && AllBehind(saves[since..], cp)
      modifies this`saves
      ensures saves == if checkpoints then old(saves) + [cp] else old(saves)
      ensures since <= |saves| && AllBehind(saves[since..], cp)
    {
      if checkpoints {
        assert (saves + [cp])[since..] == saves[since..] + [cp];
        saves := saves + [cp];
      }
    }

    /**
      Retries one move until it commits or its retries are used up.  `since` is
      where the saves of this resume begin.
     */
    method RetryMove(cp: Checkpoint, i: nat, ghost since: nat) returns (out: Checkpoint)
      requires i < |cp| && since <= |saves| && AllBehind(saves[since..], cp)
      modifies this`made, this`tables, this`migrating, this`recent, this`pinned, this`calls, this`movesCompleted, this`movesFailed, this`rowsMigrated, this`saves
      ensures |out| == |cp| && out == cp[i := out[i]] && Resumed(cp[i], out[i], maxRetries)
      ensures since <= |saves| && AllBehind(saves[since..], out)
      ensures made == old(made) + (out[i].attempts - cp[i].attempts) && LoggedFor(old(calls), made - old(made), cp[i].move.symbol)
      ensures OthersKept(old(tables), tables, cp[i].move.to, cp[i].move.symbol)
      ensures migrating == if made > old(made) then old(migrating) - {cp[i].move.symbol} else old(migrating)
      ensures OnTrack(cp[i].move, old(SettingOf(cp[i].move)), RowsAt(old(tables), cp[i].move.to, cp[i].move.symbol), old(made),
                      made > old(made) && out[i].state == Committed)
    {
      var ms, mv := cp[i], cp[i].move;
      if ms.state == Committed {
        out := cp;
        NotYetAttempted(SettingOf(mv), RowsAt(tables, mv.to, mv.symbol), made);
        LoggedNone(mv.symbol);
        return;
      }
      ghost var s, dest, n := SettingOf(mv), RowsAt(tables, mv.to, mv.symbol), made;
      assert cp[i := ms] == cp;
      assert OthersKept(tables, tables, mv.to, mv.symbol);
      NotYetAttempted(s, dest, n);
      LoggedNone(mv.symbol);
      assert OnTrack(mv, s, dest, n, false);
      hide *;
      if ms.state == Failed {
        MoveGoesOn(saves[since..], cp, i, ms, ms.(state := Pending));
        ms := ms.(state := Pending);
      }
      while ms.state == Pending && ms.attempts < maxRetries
        invariant since <= |saves| && AllBehind(saves[since..], cp[i := ms])
        invariant ms.move == mv && n <= made == n + (ms.attempts - cp[i].attempts)
        invariant OnTrack(mv, s, dest, n, made > n && ms.state == Committed) && LoggedFor(old(calls), made - n, mv.symbol)
        invariant OthersKept(old(tables), tables, mv.to, mv.symbol)
        invariant migrating == if made > n then old(migrating) - {mv.symbol} else old(migrating)
        invariant made == n ==> ms == cp[i].(state := if cp[i].state == Failed then Pending else cp[i].state)
        invariant made > n ==> (cp[i].state == Pending || cp[i].state == Failed) && cp[i].attempts < ms.attempts <= maxRetries
        invariant made > n ==>
          (ms.state == Committed && ms.error == NoError) || (ms.state == Failed && ms.attempts == maxRetries) || (ms.state == Pending && ms.attempts < maxRetries)
        decreases maxRetries - ms.attempts
      {
        ghost var was, last := tables, ms;
        ms := NextAttempt(ms, s, dest, n, old(calls), made - n);
        OthersKeptTwice(old(tables), was, tables, mv.to, mv.symbol);
        MoveGoesOn(saves[since..], cp, i, last, ms);
        Save(cp[i := ms], since);
        if ms.state == Committed { break; }
        if ms.state == Failed && ms.attempts < maxRetries {
          MoveGoesOn(saves[since..], cp, i, ms, ms.(state := Pending));
          ms := ms.(state := Pending);
        }
      }
      ResumedMeans(cp[i], ms, maxRetries);
      out := cp[i := ms];
    }

    /** No copy arrives late and every delete works. */
    ghost predicate GoodNetwork() {
      forall k: nat :: !(timeouts && net(k).late) && !net(k).deleteFails
    }

    lemma DeliverOne(before: MoveStatus, after: MoveStatus, a: Tables, s: Setting, n: nat)
      requires before.move.from != before.move.to && GoodNetwork()
      requires s == Setting(timeouts, Known(before.move), before.move.to in nodes, RowsAt(a, before.move.from, before.move.symbol), net)
      requires RowsAt(a, before.move.to, before.move.symbol) == [] || !Due(before, maxRetries)
      requires OthersKept(a, tables, before.move.to, before.move.symbol)
      requires Attempted(s, RowsAt(a, before.move.to, before.move.symbol), n, made, RowsAt(tables, before.move.to, before.move.symbol),
                         made > n && after.state == Committed)
      requires Due(before, maxRetries) <==> made > n
      ensures Delivered(before, after, a, tables, maxRetries)
    {
      if made > n {
        OneCopyOrNone(s, n, made);
      }
    }

    lemma LoggedOn(base: seq<RouterCall>, log: seq<RouterCall>, m: int, k: int)
      requires |base| <= |log| && log[..|base|] == base && Bracketed(log[|base|..]) && |log| == |base| + 2 * m
      requires Logged(log, k)
      ensures Logged(base, m + k)
    {
      var x, y := log[|base|..], calls[|log|..];
      BracketedConcat(x, y);
      hide Bracketed;
      assert log == base + x;
      assert calls == log + y;
      Tail(base, x, y);
    }

    /** How far a resume of `cp` has come when its first i moves are done. */
    ghost predicate Progress(cp: Checkpoint, out: Checkpoint, i: nat, since: nat, base: seq<RouterCall>, n: nat)
      reads this`saves, this`calls, this`made, this`migrating
    {
      && i <= |cp| == |out|
      && (forall j | 0 <= j < i :: Resumed(cp[j], out[j], maxRetries)) && (forall j | i <= j < |cp| :: out[j] == cp[j])
      && since <= |saves| && AllBehind(saves[since..], out)
      && n <= made && Logged(base, made - n) && made - n == Attempts(out) - Attempts(cp)
      && CallsFor(calls, |base|, DueSymbols(cp, i, maxRetries))
      && (forall j | 0 <= j < i && Due(cp[j], maxRetries) :: cp[j].move.symbol !in migrating)
    }

    ghost predicate Deliveries(cp: Checkpoint, out: Checkpoint, i: nat, a: Tables)
      reads this`tables
    {
      CleanPlan(cp, a, maxRetries) && GoodNetwork() ==>
        DeliveredTo(cp, out, i, a, tables, maxRetries) && Untouched(cp, i, a, tables)
    }

    method ResumeNext(ghost cp: Checkpoint, done: Checkpoint, i: nat, ghost since: nat, ghost base: seq<RouterCall>, ghost n: nat, ghost a: Tables)
      returns (out: Checkpoint)
      requires i < |cp| && Progress(cp, done, i, since, base, n) && Deliveries(cp, done, i, a)
      modifies this`made, this`tables, this`migrating, this`recent, this`pinned, this`calls, this`movesCompleted, this`movesFailed, this`rowsMigrated, this`saves
      ensures Progress(cp, out, i + 1, since, base, n) && Deliveries(cp, out, i + 1, a)
    {
      hide Bracketed;
      hide AllBehind;
      hide OnTrack;
      hide OthersKept;
      hide RowsAt;
      hide DeliveredTo;
      hide Untouched;
      hide CleanPlan;
      hide Delivered;
      hide Attempts;
      hide DueSymbols;
      hide CallsFor;
      ghost var log, before := calls, tables;
      out := RetryMove(done, i, since);
      AttemptsUpdate(done, i, out[i]);
      DueGrows(cp, i, maxRetries);
      CallsForMore(log, calls, |base|, DueSymbols(cp, i, maxRetries), {cp[i].move.symbol}, DueSymbols(cp, i + 1, maxRetries));
      LoggedOn(base, log, old(made) - n, made - old(made));
      DeliverStep(cp, done, i, out[i], a, before, old(SettingOf(cp[i].move)), old(made));
    }

    lemma DeliverStep(cp: Checkpoint, done: Checkpoint, i: nat, after: MoveStatus, a: Tables, before: Tables, s: Setting, n: nat)
      requires i < |cp| == |done| && done[i] == cp[i] && Resumed(cp[i], after, maxRetries) && n <= made
      requires made - n == after.attempts - cp[i].attempts
      requires CleanPlan(cp, a, maxRetries) && GoodNetwork() ==> DeliveredTo(cp, done, i, a, before, maxRetries) && Untouched(cp, i, a, before)
      requires s == Setting(timeouts, Known(cp[i].move), cp[i].move.to in nodes, RowsAt(before, cp[i].move.from, cp[i].move.symbol), net)
      requires OthersKept(before, tables, cp[i].move.to, cp[i].move.symbol)
      requires OnTrack(cp[i].move, s, RowsAt(before, cp[i].move.to, cp[i].move.symbol), n, made > n && after.state == Committed)
      ensures Deliveries(cp, done[i := after], i + 1, a)
    {
      if CleanPlan(cp, a, maxRetries) && GoodNetwork() {
        var mv := cp[i].move;
        assert RowsAt(before, mv.to, mv.symbol) == RowsAt(a, mv.to, mv.symbol);
        hide RowsAt;
        hide DeliveredTo;
        hide Untouched;
        hide Attempted;
        hide OthersKept;
        DeliverOne(cp[i], after, before, s, n);
        DeliverNext(cp, done, i, after, a, before, tables, maxRetries);
      }
    }

    /** Takes up every move that is not committed, in order. */
    method ResumePlan(cp: Checkpoint) returns (out: Checkpoint)
      modifies this`made, this`tables, this`migrating, this`recent, this`pinned, this`calls, this`movesCompleted, this`movesFailed, this`rowsMigrated, this`saves
      ensures |out| == |cp| && forall i | 0 <= i < |cp| :: Resumed(cp[i], out[i], maxRetries)
      ensures |old(saves)| <= |saves| && AllBehind(saves[|old(saves)|..], out)
      ensures old(made) <= made && Logged(old(calls), made - old(made))
      ensures made - old(made) == Attempts(out) - Attempts(cp)
      ensures CallsFor(calls, |old(calls)|, DueSymbols(cp, |cp|, maxRetries))
      ensures forall i | 0 <= i < |cp| && Due(cp[i], maxRetries) :: cp[i].move.symbol !in migrating
      ensures CleanPlan(cp, old(tables), maxRetries) && GoodNetwork() ==>
        forall i | 0 <= i < |cp| :: Delivered(cp[i], out[i], old(tables), tables, maxRetries)
    {
      out := cp;
      ghost var since := |saves|;
      assert saves[since..] == [];
      assert AllBehind([], cp);
      LoggedNone(0);
      assert Progress(cp, out, 0, since, calls, made);
      assert Deliveries(cp, out, 0, tables);
      for i := 0 to |cp|
        invariant |out| == |cp| && Progress(cp, out, i, since, old(calls), old(made)) && Deliveries(cp, out, i, old(tables))
      {
        hide Progress;
        hide Deliveries;
        out := ResumeNext(cp, out, i, since, old(calls), old(made), old(tables));
        ProgressSize(cp, out, i + 1, since, old(calls), old(made));
      }
    }

    lemma ProgressSize(cp: Checkpoint, out: Checkpoint, i: nat, since: nat, base: seq<RouterCall>, n: nat)
      requires Progress(cp, out, i, since, base, n)
      ensures |out| == |cp|
    {
    }

    /**
      A fresh plan: with a retry allowed, each move ends committed, or failed with its
      retries used up; on a good network an empty destination has one copy or none.
     */
    method ExecutePlan(moves: seq<Move>) returns (out: Checkpoint)
      modifies this`made, this`tables, this`migrating, this`recent, this`pinned, this`calls, this`movesCompleted, this`movesFailed, this`rowsMigrated, this`saves
      ensures |out| == |moves| && forall i | 0 <= i < |moves| :: out[i].move == moves[i]
      ensures maxRetries >= 1 ==>
        forall i | 0 <= i < |moves| :: out[i].state == Committed || (out[i].state == Failed && out[i].attempts == maxRetries)
      ensures |old(saves)| <= |saves| && AllBehind(saves[|old(saves)|..], out)
      ensures old(made) <= made && Logged(old(calls), made - old(made)) && made - old(made) == Attempts(out)
      ensures CallsFor(calls, |old(calls)|, set mv | mv in moves :: mv.symbol)
      ensures CleanPlan(FreshPlan(moves), old(tables), maxRetries) && GoodNetwork() ==>
        forall i | 0 <= i < |moves| :: Delivered(FreshPlan(moves)[i], out[i], old(tables), tables, maxRetries)
    {
      hide Logged;
      hide AllBehind;
      hide Attempts;
      hide Delivered;
      hide CleanPlan;
      var cp := FreshPlan(moves);
      NoAttempts(cp);
      out := ResumePlan(cp);
      assert DueSymbols(cp, |cp|, maxRetries) <= set mv | mv in moves :: mv.symbol;
    }
  }
}
