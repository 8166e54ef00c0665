/**
  The rebalance manager: one worker thread runs a plan of partition moves while
  other threads start, pause, resume and cancel.

  A step is what one thread does between two points where another can be seen:
  a critical section of the manager's mutex, a load or a compare-exchange of the
  atomic state.  `Apply` performs a step; a step that is not enabled does nothing.
 */
module Rebalance {
  import opened Vectors

  type NodeId = nat

  datatype Move = Move(symbol: nat, from: NodeId, to: NodeId)

  datatype Action = NoAction | AddNode | RemoveNode

  datatype RunState = Idle | Running | Paused | Cancelling

  /** How far a start call has come. */
  datatype Phase = Wrote | Won | Installed | Launched | Rejected

  /** A start call; one made by the load policy may write no action at all. */
  datatype Call = Call(action: Action, node: NodeId, writes: bool, moves: seq<Move>, phase: Phase)

  datatype Pc =
    | Off
    | Top(i: nat)
    | Waiting(i: nat)
    | Awake(i: nat)
    | Ready(i: nat)
    | Moving(i: nat)
    | Deciding
    | Decided(action: Action, node: NodeId, completed: nat, failed: nat)
    | Applying(action: Action, node: NodeId)
    | Pinning
    | Finishing
    | Storing

  /** Who wrote the action fields last. */
  datatype Writer = ByCall(id: nat) | Cleared

  /** A ring change made by a run, with the run's call and the write it acted on. */
  datatype Change = Change(action: Action, node: NodeId, owner: nat, cause: Writer, outcomes: seq<bool>)

  datatype Entry = Entry(action: Action, node: NodeId, total: nat, completed: nat, failed: nat, cancelled: bool)

  const MAX_HISTORY: nat := 50

  /** What the start calls say the run is for. */
  datatype Note = Note(action: Action, node: NodeId, writer: Writer)

  /**
    The run: its plan and counters, the outcome of each move so far, the moves
    started after the cancel, and whose note it acted on.
   */
  datatype Job = Job(plan: seq<Move>, completed: nat, failed: nat, outcomes: seq<bool>, lateStarts: nat, readFrom: Writer)

  /** What the runs left behind: history, ring, ring changes and pins. */
  datatype Trail = Trail(history: seq<Entry>, ring: set<NodeId>, changes: seq<Change>, pins: seq<Change>)

  datatype Manager = Manager(
    state: RunState, consensus: bool, pc: Pc, owner: Option<nat>, calls: map<nat, Call>, note: Note, job: Job, trail: Trail)

  function Init(ring: set<NodeId>, consensus: bool): Manager {
    Manager(Idle, consensus, Off, None, map[], Note(NoAction, 0, Cleared), Job([], 0, 0, [], 0, Cleared), Trail([], ring, [], []))
  }

  datatype Op =
    | StartWrite(id: nat, action: Action, node: NodeId, moves: seq<Move>)
    | StartPlain(id: nat, moves: seq<Move>)
    | Contend(id: nat)
    | Install(id: nat)
    | Launch(id: nat)
    | Work(committed: bool)
    | Pause
    | Resume
    | Cancel

  predicate InPhase(m: Manager, id: nat, phase: Phase) {
    id in m.calls && m.calls[id].phase == phase
  }

  function SetPhase(m: Manager, id: nat, phase: Phase): map<nat, Call>
    requires id in m.calls
  {
    m.calls[id := m.calls[id].(phase := phase)]
  }

  // ---------------------------------------------------------------------
  // The steps.
  // ---------------------------------------------------------------------

  /** A start call notes what its run is for, before it knows whether there will be one. */
  function DoStartWrite(m: Manager, id: nat, action: Action, node: NodeId, moves: seq<Move>): Manager {
    if id in m.calls || moves == [] then m
    else
      var n := if action == NoAction then 0 else node;
      m.(note := Note(action, n, ByCall(id)), calls := m.calls[id := Call(action, n, true, moves, Wrote)])
  }

  function DoStartPlain(m: Manager, id: nat, moves: seq<Move>): Manager {
    if id in m.calls || moves == [] then m
    else m.(calls := m.calls[id := Call(NoAction, 0, false, moves, Wrote)])
  }

  /** The compare-exchange from idle to running. */
  function DoContend(m: Manager, id: nat): Manager {
    if !InPhase(m, id, Wrote) then m
    else if m.state.Idle? then m.(state := Running, owner := Some(id), calls := SetPhase(m, id, Won))
    else m.(calls := SetPhase(m, id, Rejected))
  }

  /** The winner joins the last worker, if any, and installs its plan. */
  function DoInstall(m: Manager, id: nat): Manager {
    if !InPhase(m, id, Won) || !m.pc.Off? then m
    else m.(job := Job(m.calls[id].moves, 0, 0, [], 0, m.job.readFrom), calls := SetPhase(m, id, Phase.Installed))
  }

  function DoLaunch(m: Manager, id: nat): Manager {
    if !InPhase(m, id, Phase.Installed) then m else m.(pc := Top(0), calls := SetPhase(m, id, Launched))
  }

  function Trim(history: seq<Entry>): seq<Entry> {
    if |history| >= MAX_HISTORY then history[1..] else history
  }

  predicate InLoop(pc: Pc) {
    pc.Top? || pc.Waiting? || pc.Awake? || pc.Ready? || pc.Moving?
  }

  /** A move ended. */
  function Tally(j: Job, committed: bool): Job {
    j.(outcomes := j.outcomes + [committed],
       completed := j.completed + (if committed then 1 else 0), failed := j.failed + if committed then 0 else 1)
  }

  /** The worker's next step in its loop over the moves; `committed` is the outcome if a move ends in it. */
  function DoLoop(m: Manager, committed: bool): Manager
    requires InLoop(m.pc)
  {
    match m.pc
    case Top(i) =>
      if i >= |m.job.plan| || m.state.Cancelling? then m.(pc := Deciding)
      else if m.state.Paused? then m.(pc := Waiting(i))
      else m.(pc := Ready(i))
    case Waiting(i) =>
      if m.state.Running? || m.state.Cancelling? then m.(pc := Awake(i)) else m
    case Awake(i) =>
      if m.state.Cancelling? then m.(pc := Deciding) else m.(pc := Ready(i))
    case Ready(i) =>
      m.(pc := Moving(i), job := m.job.(lateStarts := m.job.lateStarts + if m.state.Cancelling? then 1 else 0))
    case Moving(i) =>
      m.(pc := Top(i + 1), job := Tally(m.job, committed))
  }

  /** The worker's next step after the loop: read the note, decide, act, record, go idle. */
  function DoEnd(m: Manager): Manager
    requires !InLoop(m.pc)
  {
    match m.pc
    case Off => m
    case Deciding =>
      m.(pc := Decided(m.note.action, m.note.node, m.job.completed, m.job.failed), job := m.job.(readFrom := m.note.writer))
    case Decided(action, node, completed, failed) =>
      if completed > 0 && failed == 0 && !m.state.Cancelling? then
        if !action.NoAction? then m.(pc := Applying(action, node))
        else if m.consensus then m.(pc := Pinning)
        else m.(pc := Finishing)
      else m.(pc := Finishing)
    case Applying(action, node) =>
      m.(pc := Finishing,
         trail := m.trail.(ring := if action == AddNode then m.trail.ring + {node} else m.trail.ring - {node},
                           changes := m.trail.changes + [ChangeBy(m, action, node)]))
    case Pinning =>
      m.(pc := Finishing, trail := m.trail.(pins := m.trail.pins + [ChangeBy(m, NoAction, 0)]))
    case Finishing =>
      m.(pc := Storing, note := Note(NoAction, 0, Cleared), trail := m.trail.(history := Trim(m.trail.history) + [EntryOf(m)]))
    case Storing =>
      m.(pc := Off, state := Idle, owner := None)
  }

  function EntryOf(m: Manager): Entry {
    Entry(m.note.action, m.note.node, |m.job.plan|, m.job.completed, m.job.failed, m.state.Cancelling?)
  }

  function ChangeBy(m: Manager, action: Action, node: NodeId): Change {
    Change(action, node, if m.owner.Some? then m.owner.value else 0, m.job.readFrom, m.job.outcomes)
  }

  function DoWork(m: Manager, committed: bool): Manager {
    if InLoop(m.pc) then DoLoop(m, committed) else DoEnd(m)
  }

  function DoSignal(m: Manager, op: Op): Manager {
    if op.Pause? && m.state.Running? then m.(state := Paused)
    else if op.Resume? && m.state.Paused? then m.(state := Running)
    else if op.Cancel? && (m.state.Running? || m.state.Paused?) then m.(state := Cancelling)
    else m
  }

  function Apply(m: Manager, op: Op): Manager {
    match op
    case StartWrite(id, action, node, moves) => DoStartWrite(m, id, action, node, moves)
    case StartPlain(id, moves) => DoStartPlain(m, id, moves)
    case Contend(id) => DoContend(m, id)
    case Install(id) => DoInstall(m, id)
    case Launch(id) => DoLaunch(m, id)
    case Work(committed) => DoWork(m, committed)
    case _ => DoSignal(m, op)
  }

  /** A run: any interleaving of steps. */
  function Exec(m: Manager, ops: seq<Op>): Manager {
    if ops == [] then m else Apply(Exec(m, ops[..|ops| - 1]), ops[|ops| - 1])
  }

  // ---------------------------------------------------------------------
  // What every reachable state satisfies.
  // ---------------------------------------------------------------------

  function Successes(outcomes: seq<bool>): nat {
    if outcomes == [] then 0 else Successes(outcomes[..|outcomes| - 1]) + if outcomes[|outcomes| - 1] then 1 else 0
  }

  predicate AllCommitted(outcomes: seq<bool>) {
    forall i | 0 <= i < |outcomes| :: outcomes[i]
  }

  type Calls = map<nat, Call>

  /** A writer's call exists and wrote. */
  predicate Known(calls: Calls, w: Writer) {
    w.ByCall? ==> w.id in calls && calls[w.id].writes && (calls[w.id].action == NoAction ==> calls[w.id].node == 0)
  }

  /** The action and node a writer left behind. */
  predicate Left(calls: Calls, w: Writer, action: Action, node: NodeId) {
    && Known(calls, w)
    && (w.ByCall? ==> action == calls[w.id].action && node == calls[w.id].node)
    && (w.Cleared? ==> action == NoAction && node == 0)
  }

  /** One plan at a time: the state is busy exactly while one call owns the run, from its win until its worker ends. */
  ghost predicate OneOwner(idle: bool, off: bool, owner: Option<nat>, calls: Calls) {
    && (idle <==> owner.None?)
    && (owner.Some? ==> owner.value in calls)
    && (forall id | id in calls && (calls[id].phase.Won? || calls[id].phase.Installed?) :: owner == Some(id) && off)
    && (!off ==> owner.Some? && calls[owner.value].phase.Launched?)
    && (owner.Some? && off ==> calls[owner.value].phase.Won? || calls[owner.value].phase.Installed?)
    && (forall id | id in calls :: calls[id].moves != [])
  }

  /** The counters count the outcomes. */
  predicate Counted(job: Job) {
    job.completed == Successes(job.outcomes) && job.completed + job.failed == |job.outcomes|
  }

  /** Once installed, the run's plan is its owner's. */
  predicate OwnPlan(owner: Option<nat>, calls: Calls, job: Job) {
    owner.Some? && owner.value in calls && (calls[owner.value].phase.Installed? || calls[owner.value].phase.Launched?) ==>
      && job.plan == calls[owner.value].moves
      && (calls[owner.value].phase.Installed? ==> job.outcomes == [] && job.lateStarts == 0)
  }

  predicate PastLoop(pc: Pc) {
    pc.Deciding? || pc.Decided? || pc.Applying? || pc.Pinning? || pc.Finishing?
  }

  /** Where the worker is says how many moves were processed; it leaves the loop early only when cancelled. */
  predicate Placed(cancelling: bool, pc: Pc, processed: nat, moves: nat) {
    && (InLoop(pc) ==> pc.i == processed <= moves)
    && (InLoop(pc) && !pc.Top? ==> pc.i < moves)
    && (PastLoop(pc) ==> processed <= moves)
    && (PastLoop(pc) && !cancelling ==> processed == moves)
    && (pc.Applying? || pc.Pinning? ==> processed == moves)
  }

  /** After the cancel at most the move about to start still starts. */
  predicate LateStartsBounded(cancelling: bool, pc: Pc, lateStarts: nat) {
    && lateStarts <= 1
    && (lateStarts == 1 && !pc.Off? ==> cancelling && (pc.Moving? || pc.Top? || !InLoop(pc)))
  }

  /** What the worker holds is what it read. */
  predicate Held(calls: Calls, consensus: bool, pc: Pc, readFrom: Writer, completed: nat, failed: nat) {
    && Known(calls, readFrom)
    && (pc.Decided? ==> Left(calls, readFrom, pc.action, pc.node) && pc.completed == completed && pc.failed == failed)
    && (pc.Applying? ==> Left(calls, readFrom, pc.action, pc.node) && pc.action != NoAction)
    && (pc.Pinning? ==> Left(calls, readFrom, NoAction, 0) && consensus)
    && (pc.Applying? || pc.Pinning? ==> failed == 0)
  }

  /** The whole plan of the run that made a change was committed, and the change is what the run read. */
  predicate Earned(calls: Calls, c: Change) {
    && c.owner in calls && |c.outcomes| == |calls[c.owner].moves| > 0 && AllCommitted(c.outcomes)
    && Left(calls, c.cause, c.action, c.node)
  }

  ghost predicate AllEarned(calls: Calls, consensus: bool, trail: Trail) {
    && (forall c | c in trail.changes :: Earned(calls, c) && c.action != NoAction)
    && (forall c | c in trail.pins :: Earned(calls, c) && c.action == NoAction && consensus)
    && |trail.history| <= MAX_HISTORY
  }

  ghost predicate Safe(m: Manager) {
    && OneOwner(m.state.Idle?, m.pc.Off?, m.owner, m.calls)
    && Counted(m.job) && OwnPlan(m.owner, m.calls, m.job)
    && Placed(m.state.Cancelling?, m.pc, |m.job.outcomes|, |m.job.plan|)
    && LateStartsBounded(m.state.Cancelling?, m.pc, m.job.lateStarts)
    && Left(m.calls, m.note.writer, m.note.action, m.note.node)
    && Held(m.calls, m.consensus, m.pc, m.job.readFrom, m.job.completed, m.job.failed)
    && AllEarned(m.calls, m.consensus, m.trail)
  }

  lemma {:induction false} NoFailures(outcomes: seq<bool>)
    ensures Successes(outcomes) <= |outcomes|
    ensures Successes(outcomes) == |outcomes| <==> AllCommitted(outcomes)
  {
    if outcomes != [] {
      var n := |outcomes| - 1;
      NoFailures(outcomes[..n]);
      assert forall i | 0 <= i < n :: outcomes[..n][i] == outcomes[i];
    }
  }

  lemma InitSafe(ring: set<NodeId>, consensus: bool)
    ensures Safe(Init(ring, consensus))
  {
  }

  predicate SameRequest(a: Call, b: Call) {
    a.action == b.action && a.node == b.node && a.writes == b.writes && a.moves == b.moves
  }

  /** Calls only get added or change phase. */
  ghost predicate Extends(a: Calls, b: Calls) {
    forall id | id in a :: id in b && SameRequest(a[id], b[id])
  }

  lemma StillEarned(a: Calls, b: Calls, consensus: bool, trail: Trail)
    requires AllEarned(a, consensus, trail) && Extends(a, b)
    ensures AllEarned(b, consensus, trail)
  {
    forall c | Earned(a, c) ensures Earned(b, c) {
    }
  }

  /** What is known of earlier calls stays known. */
  lemma StillKnown(m: Manager, calls: Calls)
    requires Safe(m) && Extends(m.calls, calls)
    ensures AllEarned(calls, m.consensus, m.trail)
    ensures Left(calls, m.note.writer, m.note.action, m.note.node)
    ensures Held(calls, m.consensus, m.pc, m.job.readFrom, m.job.completed, m.job.failed)
  {
    StillEarned(m.calls, calls, m.consensus, m.trail);
    hide AllEarned;
    hide OneOwner;
    hide Counted;
    hide OwnPlan;
    hide Placed;
    hide LateStartsBounded;
  }

  /** A new call joins, or one moves on to a phase that does not own the run. */
  lemma CallsAround(m: Manager, id: nat, c: Call)
    requires Safe(m) && c.moves != [] && (c.phase.Wrote? || c.phase.Rejected?)
    requires id in m.calls ==> m.calls[id].phase.Wrote? && SameRequest(m.calls[id], c)
    ensures var calls := m.calls[id := c];
      && OneOwner(m.state.Idle?, m.pc.Off?, m.owner, calls) && OwnPlan(m.owner, calls, m.job) && Extends(m.calls, calls)
  {
    hide Counted;
    hide Placed;
    hide LateStartsBounded;
    hide Left;
    hide Held;
    hide AllEarned;
  }

  lemma StartKeepsSafe(m: Manager, op: Op)
    requires Safe(m) && (op.StartWrite? || op.StartPlain?)
    ensures Safe(Apply(m, op))
  {
    var m' := Apply(m, op);
    if op.id !in m.calls && op.moves != [] {
      CallsAround(m, op.id, m'.calls[op.id]);
      StillKnown(m, m'.calls);
    }
    hide OneOwner;
    hide Counted;
    hide OwnPlan;
    hide Placed;
    hide LateStartsBounded;
    hide Held;
    hide AllEarned;
    hide Extends;
  }

  lemma ContendKeepsSafe(m: Manager, id: nat)
    requires Safe(m)
    ensures Safe(DoContend(m, id))
  {
    var m' := DoContend(m, id);
    if InPhase(m, id, Wrote) {
      if m.state.Idle? {
        WinnerOwns(m, id);
      } else {
        CallsAround(m, id, m'.calls[id]);
      }
      StillKnown(m, m'.calls);
    }
    hide OneOwner;
    hide Counted;
    hide OwnPlan;
    hide LateStartsBounded;
    hide Left;
    hide Held;
    hide AllEarned;
    hide Extends;
  }

  lemma WinnerOwns(m: Manager, id: nat)
    requires Safe(m) && m.state.Idle? && InPhase(m, id, Wrote)
    ensures var calls := SetPhase(m, id, Won);
      && OneOwner(false, m.pc.Off?, Some(id), calls) && OwnPlan(Some(id), calls, m.job) && Extends(m.calls, calls) && m.pc.Off?
      && LateStartsBounded(false, m.pc, m.job.lateStarts)
  {
    hide Counted;
    hide Placed;
    hide Left;
    hide Held;
    hide AllEarned;
  }

  lemma InstallKeepsSafe(m: Manager, id: nat)
    requires Safe(m)
    ensures Safe(DoInstall(m, id))
  {
    var m' := DoInstall(m, id);
    assert Successes([]) == 0;
    hide Successes;
    if InPhase(m, id, Won) && m.pc.Off? {
      OwnerMovesOn(m, id, Phase.Installed, true);
      StillKnown(m, m'.calls);
      hide OneOwner;
      hide AllEarned;
      hide Extends;
      hide Left;
    }
  }

  lemma OwnerMovesOn(m: Manager, id: nat, phase: Phase, off: bool)
    requires Safe(m) && id in m.calls
    requires if off then m.calls[id].phase.Won? && phase.Installed? else m.calls[id].phase.Installed? && phase.Launched?
    ensures var calls := SetPhase(m, id, phase);
      && m.owner == Some(id) && m.pc.Off? && OneOwner(m.state.Idle?, off, m.owner, calls) && Extends(m.calls, calls)
  {
    hide Counted;
    hide OwnPlan;
    hide Placed;
    hide LateStartsBounded;
    hide Left;
    hide Held;
    hide AllEarned;
  }

  lemma LaunchKeepsSafe(m: Manager, id: nat)
    requires Safe(m)
    ensures Safe(DoLaunch(m, id))
  {
    var m' := DoLaunch(m, id);
    hide Counted;
    if InPhase(m, id, Phase.Installed) {
      OwnerMovesOn(m, id, Launched, false);
      StillKnown(m, m'.calls);
      hide OneOwner;
      hide AllEarned;
      hide Extends;
      hide Left;
    }
  }

  lemma SignalKeepsSafe(m: Manager, op: Op)
    requires Safe(m)
    ensures Safe(DoSignal(m, op))
  {
    hide OneOwner;
    hide Counted;
    hide OwnPlan;
    hide Left;
    hide Held;
    hide AllEarned;
  }

  lemma TallyCounts(j: Job, committed: bool)
    requires Counted(j)
    ensures Counted(Tally(j, committed)) && |Tally(j, committed).outcomes| == |j.outcomes| + 1
  {
    assert (j.outcomes + [committed])[..|j.outcomes|] == j.outcomes;
  }

  lemma LoopKeepsSafe(m: Manager, committed: bool)
    requires Safe(m) && InLoop(m.pc)
    ensures Safe(DoLoop(m, committed))
  {
    LaunchedOwner(m);
    TallyCounts(m.job, committed);
    hide Counted;
    hide OneOwner;
    hide Left;
    hide AllEarned;
    hide Successes;
  }

  lemma LaunchedOwner(m: Manager)
    requires Safe(m) && !m.pc.Off?
    ensures m.owner.Some? && m.owner.value in m.calls && m.calls[m.owner.value].phase.Launched?
    ensures m.job.plan == m.calls[m.owner.value].moves != []
  {
    hide Counted;
    hide Placed;
    hide LateStartsBounded;
    hide Left;
    hide Held;
    hide AllEarned;
  }

  /** A change made now is earned. */
  lemma JustEarned(m: Manager)
    requires Safe(m)
    ensures m.pc.Applying? ==> Earned(m.calls, ChangeBy(m, m.pc.action, m.pc.node)) && m.pc.action != NoAction
    ensures m.pc.Pinning? ==> Earned(m.calls, ChangeBy(m, NoAction, 0)) && m.consensus
  {
    if m.pc.Applying? || m.pc.Pinning? {
      LaunchedOwner(m);
      NoFailures(m.job.outcomes);
      hide Successes;
      hide OneOwner;
      hide OwnPlan;
      hide AllEarned;
      hide LateStartsBounded;
      hide Left;
    }
  }

  lemma EndKeepsSafe(m: Manager)
    requires Safe(m) && !InLoop(m.pc)
    ensures Safe(DoEnd(m))
  {
    if m.pc.Applying? || m.pc.Pinning? {
      ActKeepsSafe(m);
    } else {
      LastStep(m);
      NothingLeft(m.calls);
      LeftNothing(m.calls, m.job.readFrom);
      hide OneOwner;
      hide Successes;
      hide Earned;
      hide Left;
    }
  }

  lemma LeftNothing(calls: Calls, w: Writer)
    ensures forall node | Left(calls, w, NoAction, node) :: node == 0
  {
  }

  lemma ActKeepsSafe(m: Manager)
    requires Safe(m) && (m.pc.Applying? || m.pc.Pinning?)
    ensures Safe(DoEnd(m))
  {
    JustEarned(m);
    hide OneOwner;
    hide Counted;
    hide OwnPlan;
    hide Earned;
    hide Left;
  }

  lemma NothingLeft(calls: Calls)
    ensures Left(calls, Cleared, NoAction, 0)
  {
  }

  /** The worker's last step frees the manager for the next owner. */
  lemma LastStep(m: Manager)
    requires Safe(m)
    ensures !m.pc.Off? ==> OneOwner(true, true, None, m.calls) && OwnPlan(None, m.calls, m.job)
    ensures !m.pc.Off? ==> OneOwner(m.state.Idle?, false, m.owner, m.calls)
    ensures Known(m.calls, m.note.writer)
  {
    hide Counted;
    hide Placed;
    hide LateStartsBounded;
    hide Held;
    hide AllEarned;
  }

  lemma StepKeepsSafe(m: Manager, op: Op)
    requires Safe(m)
    ensures Safe(Apply(m, op))
  {
    hide Safe;
    hide DoStartWrite;
    hide DoStartPlain;
    hide DoContend;
    hide DoInstall;
    hide DoLaunch;
    hide DoSignal;
    hide DoLoop;
    hide DoEnd;
    match op
    case StartWrite(id, action, node, moves) => StartKeepsSafe(m, op);
    case StartPlain(id, moves) => StartKeepsSafe(m, op);
    case Contend(id) => ContendKeepsSafe(m, id);
    case Install(id) => InstallKeepsSafe(m, id);
    case Launch(id) => LaunchKeepsSafe(m, id);
    case Work(committed) =>
      if InLoop(m.pc) {
        LoopKeepsSafe(m, committed);
      } else {
        EndKeepsSafe(m);
      }
    case Pause => SignalKeepsSafe(m, op);
    case Resume => SignalKeepsSafe(m, op);
    case Cancel => SignalKeepsSafe(m, op);
  }

  /** Every interleaving of the worker with start, pause, resume and cancel calls is safe. */
  lemma {:induction false} EveryRunIsSafe(m: Manager, ops: seq<Op>)
    requires Safe(m)
    ensures Safe(Exec(m, ops))
  {
    hide Safe;
    hide Apply;
    if ops != [] {
      EveryRunIsSafe(m, ops[..|ops| - 1]);
      StepKeepsSafe(Exec(m, ops[..|ops| - 1]), ops[|ops| - 1]);
    }
  }

  // ---------------------------------------------------------------------
  // What that says to a caller.
  // ---------------------------------------------------------------------

  predicate Active(m: Manager, id: nat) {
    id in m.calls && (m.calls[id].phase.Won? || m.calls[id].phase.Installed? || (!m.pc.Off? && m.owner == Some(id)))
  }

  /**
    At any point of any run: at most one call's plan is active, the moves processed
    are those counted as completed or failed, and at most one move started after
    the cancel.
   */
  lemma RunsOneAtATime(ring: set<NodeId>, consensus: bool, ops: seq<Op>, a: nat, b: nat)
    ensures var m := Exec(Init(ring, consensus), ops);
      && (Active(m, a) && Active(m, b) ==> a == b)
      && (InLoop(m.pc) ==> m.job.completed + m.job.failed == m.pc.i)
      && m.job.lateStarts <= 1
  {
    InitSafe(ring, consensus);
    EveryRunIsSafe(Init(ring, consensus), ops);
    hide Exec;
    hide AllEarned;
    hide Held;
    hide Left;
  }

  /**
    A ring change is made only by a run whose whole plan committed, and it is the
    change last asked for before the run looked; it is the run's own if no other
    note came in between.
   */
  lemma RingChangesAreEarned(ring: set<NodeId>, consensus: bool, ops: seq<Op>, c: Change)
    requires c in Exec(Init(ring, consensus), ops).trail.changes
    ensures var calls := Exec(Init(ring, consensus), ops).calls;
      && c.owner in calls && |c.outcomes| == |calls[c.owner].moves| > 0 && AllCommitted(c.outcomes)
      && c.cause.ByCall? && c.cause.id in calls && c.action == calls[c.cause.id].action && c.node == calls[c.cause.id].node
  {
    InitSafe(ring, consensus);
    EveryRunIsSafe(Init(ring, consensus), ops);
    hide Exec;
    hide OneOwner;
    hide Held;
  }

  /** A step that writes the note: a start call's, or the worker clearing it. */
  predicate Overwrites(m: Manager, op: Op) {
    || (op.StartWrite? && op.id !in m.calls && op.moves != [])
    || (op.Work? && m.pc.Finishing?)
  }

  /** No step of the run writes the note. */
  predicate Undisturbed(m: Manager, ops: seq<Op>) {
    ops == [] || (Undisturbed(m, ops[..|ops| - 1]) && !Overwrites(Exec(m, ops[..|ops| - 1]), ops[|ops| - 1]))
  }

  /** A call's note is still the last one exactly if no step since overwrote it. */
  lemma {:induction false} NoteSurvives(m: Manager, ops: seq<Op>, id: nat)
    requires m.note.writer == ByCall(id) && id in m.calls
    ensures id in Exec(m, ops).calls
    ensures Exec(m, ops).note.writer == ByCall(id) <==> Undisturbed(m, ops)
  {
    if ops != [] {
      hide Overwrites;
      hide Apply;
      NoteSurvives(m, ops[..|ops| - 1], id);
      NoteAfter(Exec(m, ops[..|ops| - 1]), ops[|ops| - 1], id);
    }
  }

  /** A run acts on its own call's note exactly if nothing overwrote it before the worker looked. */
  lemma ReadsOwnNote(m: Manager, ops: seq<Op>, id: nat, committed: bool)
    requires m.note.writer == ByCall(id) && id in m.calls && Exec(m, ops).pc.Deciding?
    ensures Apply(Exec(m, ops), Work(committed)).job.readFrom == ByCall(id) <==> Undisturbed(m, ops)
  {
    NoteSurvives(m, ops, id);
    hide Exec;
  }

  lemma NoteAfter(m: Manager, op: Op, id: nat)
    requires id in m.calls
    ensures id in Apply(m, op).calls
    ensures Apply(m, op).note.writer == ByCall(id) <==> m.note.writer == ByCall(id) && !Overwrites(m, op)
  {
    if op.Work? {
      NoteAfterWork(m, op.committed);
    }
    hide DoWork;
  }

  lemma NoteAfterWork(m: Manager, committed: bool)
    ensures DoWork(m, committed).calls == m.calls
    ensures DoWork(m, committed).note == if m.pc.Finishing? then Note(NoAction, 0, Cleared) else m.note
  {
    hide ChangeBy;
    hide Tally;
    hide EntryOf;
    hide Trim;
  }

  // ---------------------------------------------------------------------
  // Whose ring change it is.
  // ---------------------------------------------------------------------

  /** At step i the call leaves its note. */
  predicate LeavesNote(m: Manager, ops: seq<Op>, i: nat, id: nat) {
    && i < |ops| && ops[i].StartWrite? && ops[i].id == id && ops[i].moves != [] && id !in Exec(m, ops[..i]).calls
  }

  /** At step j the worker of the call's plan reads the note. */
  predicate ReadsNote(m: Manager, ops: seq<Op>, j: nat, id: nat) {
    j < |ops| && ops[j].Work? && Exec(m, ops[..j]).pc.Deciding? && Exec(m, ops[..j]).owner == Some(id)
  }

  lemma CallsAfter(m: Manager, op: Op, id: nat)
    ensures id in Apply(m, op).calls && Apply(m, op).calls[id].writes ==>
      (id in m.calls && m.calls[id].writes) || (op.StartWrite? && op.id == id && op.moves != [] && id !in m.calls)
  {
    if op.Work? { NoteAfterWork(m, op.committed); }
    hide DoWork;
  }

  /** Every call that notes anything did so at some step. */
  lemma {:induction false} NotedAt(m: Manager, ops: seq<Op>, id: nat) returns (i: nat)
    requires m.calls == map[] && id in Exec(m, ops).calls && Exec(m, ops).calls[id].writes
    ensures LeavesNote(m, ops, i, id)
  {
    hide Apply;
    var n := |ops| - 1;
    var before := Exec(m, ops[..n]);
    CallsAfter(before, ops[n], id);
    if id in before.calls && before.calls[id].writes {
      i := NotedAt(m, ops[..n], id);
      assert ops[..n][..i] == ops[..i];
    } else {
      i := n;
    }
  }

  /** What the worker holds after it has looked. */
  predicate HasRead(pc: Pc) {
    pc.Decided? || pc.Applying?
  }

  lemma StillHolds(m: Manager, op: Op)
    requires Safe(m) && HasRead(Apply(m, op).pc)
    ensures (HasRead(m.pc) && Apply(m, op).owner == m.owner && Apply(m, op).job.readFrom == m.job.readFrom)
      || (op.Work? && m.pc.Deciding? && Apply(m, op).owner == m.owner && Apply(m, op).job.readFrom == m.note.writer)
  {
    hide AllEarned;
    hide Held;
    hide Placed;
    hide Counted;
    hide Left;
    hide ChangeBy;
    hide EntryOf;
  }

  /** A worker that has looked did so at some step of its own run. */
  lemma {:induction false} ReadAt(m: Manager, ops: seq<Op>) returns (j: nat)
    requires Safe(m) && m.pc.Off? && HasRead(Exec(m, ops).pc) && Exec(m, ops).owner.Some?
    ensures ReadsNote(m, ops, j, Exec(m, ops).owner.value) && Exec(m, ops).job.readFrom == Exec(m, ops[..j]).note.writer
  {
    hide Safe;
    hide Apply;
    var n := |ops| - 1;
    EveryRunIsSafe(m, ops[..n]);
    StillHolds(Exec(m, ops[..n]), ops[n]);
    if HasRead(Exec(m, ops[..n]).pc) {
      j := ReadAt(m, ops[..n]);
      assert ops[..n][..j] == ops[..j];
    } else {
      j := n;
    }
  }

  lemma ChangesAfter(m: Manager, op: Op, c: Change)
    requires Safe(m) && c in Apply(m, op).trail.changes
    ensures c in m.trail.changes || (op.Work? && m.pc.Applying? && m.owner == Some(c.owner) && c.cause == m.job.readFrom)
  {
    if op.Work? && m.pc.Applying? { LaunchedOwner(m); }
    hide AllEarned;
    hide Held;
    hide Placed;
    hide Counted;
    hide Left;
    hide EntryOf;
  }

  /** Every ring change acts on the note its run read at some step. */
  lemma {:induction false} ChangeReadAt(m: Manager, ops: seq<Op>, c: Change) returns (j: nat)
    requires Safe(m) && m.pc.Off? && m.trail.changes == [] && c in Exec(m, ops).trail.changes
    ensures ReadsNote(m, ops, j, c.owner) && c.cause == Exec(m, ops[..j]).note.writer
  {
    hide Safe;
    hide Apply;
    var n := |ops| - 1;
    EveryRunIsSafe(m, ops[..n]);
    ChangesAfter(Exec(m, ops[..n]), ops[n], c);
    if c in Exec(m, ops[..n]).trail.changes {
      j := ChangeReadAt(m, ops[..n], c);
    } else {
      j := ReadAt(m, ops[..n]);
    }
    assert ops[..n][..j] == ops[..j];
  }

  lemma OwnerKnown(m: Manager)
    requires Safe(m)
    ensures m.owner.Some? ==> m.owner.value in m.calls
  {
  }

  lemma {:induction false} CallsStay(m: Manager, a: seq<Op>, b: seq<Op>, id: nat)
    requires id in Exec(m, a).calls
    ensures id in Exec(m, a + b).calls && Exec(m, a + b).calls[id].writes == Exec(m, a).calls[id].writes
    decreases |b|
  {
    hide Apply;
    if b == [] {
      assert a + b == a;
    } else {
      CallsStay(m, a, b[..|b| - 1], id);
      assert (a + b)[..|a + b| - 1] == a + b[..|b| - 1];
      CallStays(Exec(m, a + b[..|b| - 1]), b[|b| - 1], id);
    }
  }

  lemma CallStays(m: Manager, op: Op, id: nat)
    requires id in m.calls
    ensures id in Apply(m, op).calls && Apply(m, op).calls[id].writes == m.calls[id].writes
  {
    if op.Work? { NoteAfterWork(m, op.committed); }
    hide DoWork;
  }

  lemma NoteLeft(m: Manager, op: Op)
    requires op.StartWrite? && op.moves != [] && op.id !in m.calls
    ensures Apply(m, op).note.writer == ByCall(op.id) && op.id in Apply(m, op).calls
  {
  }

  /**
    Any ring change of any run, made by the plan of a call that left a note: it is that
    call's own change if and only if nothing overwrote the note between the step that
    left it and the step at which the plan's worker read it.
   */
  lemma OwnChangeExactlyWhen(ring: set<NodeId>, consensus: bool, ops: seq<Op>, c: Change) returns (i: nat, j: nat)
    requires var m := Exec(Init(ring, consensus), ops);
      c in m.trail.changes && c.owner in m.calls && m.calls[c.owner].writes
    ensures var m := Init(ring, consensus);
      && i < j && LeavesNote(m, ops, i, c.owner) && ReadsNote(m, ops, j, c.owner)
      && (c.cause == ByCall(c.owner) <==> Undisturbed(Exec(m, ops[..i + 1]), ops[i + 1..j]))
  {
    var m := Init(ring, consensus);
    InitSafe(ring, consensus);
    hide Safe;
    hide Apply;
    j := ChangeReadAt(m, ops, c);
    EveryRunIsSafe(m, ops[..j]);
    OwnerKnown(Exec(m, ops[..j]));
    assert ops[..j] + ops[j..] == ops;
    CallsStay(m, ops[..j], ops[j..], c.owner);
    i := NotedAt(m, ops[..j], c.owner);
    assert ops[..j][..i] == ops[..i];
    assert ops[..i + 1][..i] == ops[..i];
    NoteLeft(Exec(m, ops[..i]), ops[i]);
    assert ops[..i + 1] + ops[i + 1..j] == ops[..j];
    ExecConcat(m, ops[..i + 1], ops[i + 1..j]);
    NoteSurvives(Exec(m, ops[..i + 1]), ops[i + 1..j], c.owner);
    hide Exec;
  }

  // ---------------------------------------------------------------------
  // Every run ends.
  // ---------------------------------------------------------------------

  /** How many more steps the worker can take. */
  function StepsLeft(pc: Pc, moves: nat): nat {
    match pc
    case Off => 0
    case Storing => 1
    case Finishing => 2
    case Applying(_, _) => 3
    case Pinning => 3
    case Decided(_, _, _, _) => 4
    case Deciding => 5
    case Top(i) => if i < moves then 6 + 5 * (moves - i) else 6
    case Waiting(i) => if i < moves then 5 + 5 * (moves - i) else 6
    case Awake(i) => if i < moves then 4 + 5 * (moves - i) else 6
    case Ready(i) => if i < moves then 3 + 5 * (moves - i) else 6
    case Moving(i) => if i < moves then 2 + 5 * (moves - i) else 6
  }

  /** Only a paused worker that waits makes no progress. */
  lemma WorkProgresses(m: Manager, committed: bool)
    requires Safe(m) && !m.pc.Off? && !(m.pc.Waiting? && m.state.Paused?)
    ensures var m' := DoWork(m, committed);
      && StepsLeft(m'.pc, |m'.job.plan|) < StepsLeft(m.pc, |m.job.plan|)
      && (m'.pc.Off? || m'.state == m.state)
  {
    LaunchedOwner(m);
    hide OwnPlan;
    hide Counted;
    hide Left;
    hide Held;
    hide AllEarned;
    hide ChangeBy;
    hide EntryOf;
    hide Trim;
  }

  function WorkOps(outcomes: seq<bool>): seq<Op> {
    seq(|outcomes|, i requires 0 <= i < |outcomes| => Work(outcomes[i]))
  }

  /** A cancelled run goes idle after a bounded number of its worker's steps, whatever its moves do. */
  lemma {:induction false} CancelledRunEnds(m: Manager, outcomes: seq<bool>)
    requires Safe(m) && (Free(m) || (m.state.Cancelling? && !m.pc.Off?)) && |outcomes| >= StepsLeft(m.pc, |m.job.plan|)
    ensures Free(Exec(m, WorkOps(outcomes)))
    decreases |outcomes|
  {
    if outcomes == [] {
      assert WorkOps(outcomes) == [];
      hide AllEarned;
    } else {
      var m' := DoWork(m, outcomes[0]);
      if !m.pc.Off? {
        WorkProgresses(m, outcomes[0]);
        LastStepFrees(m, outcomes[0]);
      }
      StepKeepsSafe(m, Work(outcomes[0]));
      assert Exec(m, [Work(outcomes[0])]) == m' by {
        assert [Work(outcomes[0])][..0] == [];
      }
      hide Safe;
      hide DoWork;
      hide StepsLeft;
      CancelledRunEnds(m', outcomes[1..]);
      assert WorkOps(outcomes) == [Work(outcomes[0])] + WorkOps(outcomes[1..]);
      ExecConcat(m, [Work(outcomes[0])], WorkOps(outcomes[1..]));
    }
  }

  lemma LastStepFrees(m: Manager, committed: bool)
    requires !m.pc.Off?
    ensures DoWork(m, committed).pc.Off? ==> Free(DoWork(m, committed))
  {
  }

  // ---------------------------------------------------------------------
  // Two runs that go wrong.
  // ---------------------------------------------------------------------

  lemma {:induction false} ExecConcat(m: Manager, a: seq<Op>, b: seq<Op>)
    ensures Exec(m, a + b) == Exec(Exec(m, a), b)
  {
    if b == [] {
      assert a + b == a;
    } else {
      ExecConcat(m, a, b[..|b| - 1]);
      assert (a + b)[..|a + b| - 1] == a + b[..|b| - 1];
      hide Apply;
    }
  }

  lemma Take(m: Manager, ops: seq<Op>, now: Manager, op: Op) returns (more: seq<Op>, next: Manager)
    requires Exec(m, ops) == now
    ensures more == ops + [op] && next == Apply(now, op) && Exec(m, more) == next
  {
    more, next := ops + [op], Apply(now, op);
    assert more[..|ops|] == ops;
  }

  /** Idle, with no worker. */
  predicate Free(m: Manager) {
    m.state.Idle? && m.pc.Off?
  }

  /** A call that left its note has started its one-move plan. */
  lemma StartOne(m: Manager, id: nat) returns (ops: seq<Op>)
    requires Free(m) && InPhase(m, id, Wrote)
    ensures Exec(m, ops) ==
      m.(state := Running, pc := Top(0), owner := Some(id), job := Job(m.calls[id].moves, 0, 0, [], 0, m.job.readFrom),
         calls := SetPhase(m, id, Launched))
  {
    var now := m;
    ops := [];
    ops, now := Take(m, ops, now, Contend(id));
    ops, now := Take(m, ops, now, Install(id));
    ops, now := Take(m, ops, now, Launch(id));
    assert now.calls == SetPhase(m, id, Launched);
  }

  /** A worker at the start of a one-move plan. */
  predicate AtOneMove(m: Manager) {
    && m.state.Running? && m.pc == Top(0) && m.owner.Some? && |m.job.plan| == 1
    && m.job.completed == m.job.failed == 0 && m.job.outcomes == []
  }

  /** Its move commits and it reads the note. */
  lemma CommitOne(m: Manager) returns (ops: seq<Op>, now: Manager)
    requires AtOneMove(m)
    ensures now == Exec(m, ops)
    ensures now.pc == Decided(m.note.action, m.note.node, 1, 0) && now.state.Running? && now.job.readFrom == m.note.writer
    ensures now.job.outcomes == [true] && now.owner == m.owner && now.calls == m.calls && now.trail == m.trail && now.consensus == m.consensus
  {
    now := m;
    ops := [];
    ops, now := Take(m, ops, now, Work(true));
    ops, now := Take(m, ops, now, Work(true));
    ops, now := Take(m, ops, now, Work(true));
    ops, now := Take(m, ops, now, Work(true));
    hide Exec;
    ops, now := Take(m, ops, now, Work(true));
  }

  /** It acts on the note and goes idle. */
  lemma ActOnNote(m: Manager) returns (ops: seq<Op>, now: Manager)
    requires m.pc.Decided? && m.pc.completed == 1 && m.pc.failed == 0 && m.state.Running? && m.owner.Some? && !m.consensus
    ensures now == Exec(m, ops)
    ensures Free(now) && now.calls == m.calls && now.note == Note(NoAction, 0, Cleared) && now.consensus == m.consensus
    ensures now.trail.changes == if m.pc.action == NoAction then m.trail.changes else m.trail.changes + [ChangeBy(m, m.pc.action, m.pc.node)]
  {
    now := m;
    ops := [];
    ops, now := Take(m, ops, now, Work(true));
    if m.pc.action != NoAction {
      ops, now := Take(m, ops, now, Work(true));
    }
    hide Exec;
    var rest, end := GoIdle(now);
    ExecConcat(m, ops, rest);
    ops, now := ops + rest, end;
  }

  lemma GoIdle(m: Manager) returns (ops: seq<Op>, now: Manager)
    requires m.pc.Finishing?
    ensures now == Exec(m, ops)
    ensures Free(now) && now.calls == m.calls && now.note == Note(NoAction, 0, Cleared) && now.consensus == m.consensus
    ensures now.trail.changes == m.trail.changes
  {
    hide EntryOf;
    hide Trim;
    ops, now := Take(m, [], m, Work(true));
    ops, now := Take(m, ops, now, Work(true));
  }

  /** A one-move run with no consensus makes the change its worker finds in the note. */
  lemma RunOne(m: Manager) returns (ops: seq<Op>)
    requires AtOneMove(m) && !m.consensus
    ensures var now := Exec(m, ops);
      && Free(now) && now.calls == m.calls && now.note == Note(NoAction, 0, Cleared) && !now.consensus
      && now.trail.changes == (if m.note.action == NoAction then m.trail.changes
                               else m.trail.changes + [Change(m.note.action, m.note.node, m.owner.value, m.note.writer, [true])])
  {
    hide Apply;
    hide Exec;
    var first, mid := CommitOne(m);
    var rest, end := ActOnNote(mid);
    ExecConcat(m, first, rest);
    ops := first + rest;
  }

  /**
    A start call that comes second and is turned away has still left its note:
    the run of the first call makes the second call's ring change.
   */
  lemma RejectedStartHijacksChange(m: Manager, a: nat, b: nat, mv: Move, nodeA: NodeId, nodeB: NodeId) returns (ops: seq<Op>)
    requires Free(m) && !m.consensus && a != b && a !in m.calls && b !in m.calls
    ensures var now := Exec(m, ops);
      && a in now.calls && now.calls[a].action == AddNode && now.calls[a].node == nodeA
      && b in now.calls && now.calls[b].phase.Rejected?
      && now.trail.changes == m.trail.changes + [Change(RemoveNode, nodeB, a, ByCall(b), [true])]
  {
    var m1 := Apply(m, StartWrite(a, AddNode, nodeA, [mv]));
    var o1, now1 := Take(m, [], m, StartWrite(a, AddNode, nodeA, [mv]));
    var o2 := StartOne(m1, a);
    ExecConcat(m, o1, o2);
    var m2 := Exec(m, o1 + o2);
    var o3, m3 := Take(m, o1 + o2, m2, StartWrite(b, RemoveNode, nodeB, [mv]));
    var o4, m4 := Take(m, o3, m3, Contend(b));
    hide Exec;
    var o5 := RunOne(m4);
    ExecConcat(m, o4, o5);
    ops := o4 + o5;
  }

  /**
    A start call that left its note while an earlier run was ending, and wins
    afterwards, finds the note cleared: its plan commits and no ring change is made.
   */
  lemma EndingRunLosesNote(m: Manager, a: nat, b: nat, mv: Move, nodeA: NodeId, nodeB: NodeId) returns (ops: seq<Op>)
    requires AtOneMove(m) && m.note == Note(AddNode, nodeA, ByCall(a)) && !m.consensus && m.owner == Some(a) && a != b && b !in m.calls
    ensures var now := Exec(m, ops);
      && Free(now) && b in now.calls && now.calls[b].action == RemoveNode && now.calls[b].phase.Launched?
      && now.trail.changes == m.trail.changes + [Change(AddNode, nodeA, a, ByCall(a), [true])]
  {
    var first, mid := CommitOne(m);
    var o1, m1 := Take(m, first, mid, StartWrite(b, RemoveNode, nodeB, [mv]));
    hide Exec;
    var o2, m2 := ActOnNote(m1);
    ExecConcat(m, o1, o2);
    var o3 := StartOne(m2, b);
    ExecConcat(m, o1 + o2, o3);
    var m3 := Exec(m, o1 + o2 + o3);
    var o4 := RunOne(m3);
    ExecConcat(m, o1 + o2 + o3, o4);
    ops := o1 + o2 + o3 + o4;
  }
}
