/**
 Serialized mutation and bounded blocking work, as a transition system. A task is one
 `mutate` or `read` call; each step is one grant, release or synchronous section of the
 code, so a run is any interleaving of calls, cancellations and panics.
 */
module Runtime {
  import opened Core

  const WORKERS: nat := 4

  /** The published value: its network boundary and everything else it holds. */
  datatype Facade = Facade(workspace: Option<string>, content: string)

  /** A mutation body: what it leaves in the snapshot, also when it panics. */
  datatype Body = Body(run: Facade -> Facade, panics: Facade -> bool)

  /** Whether a facade's provenance lies inside a workspace root. */
  datatype Policy = Policy(admits: (string, string) -> bool) {
    /** `restrict_workspace`: refuse, or set the boundary. */
    function Restrict(f: Facade, root: string): Option<Facade> {
      if admits(f.content, root) then Some(f.(workspace := Some(root))) else None
    }

    /** The boundary check between a body and the publication of its snapshot. */
    function Checked(base: Facade, after: Facade): Option<Facade> {
      if base.workspace.Some? && after.workspace != base.workspace
      then Restrict(after, base.workspace.value)
      else Some(after)
    }

    /** What a mutation of `base` publishes, if anything. */
    function Publication(body: Body, base: Facade): Option<Facade> {
      Checked(base, body.run(base))
    }
  }

  datatype Outcome = Returned | Panicked | Refused | Cancelled

  datatype Phase =
    // mutate: waiting for the gate; holding it and waiting for the pool; on the pool.
    | AwaitingGate
    | AwaitingPool
    | Queued
    | Reading
    | Snapshotted(base: Facade)
    | Ran(base: Facade, after: Facade, panicked: bool)
    | Approved(base: Facade, after: Facade, panicked: bool)
    | Writing(base: Facade, after: Facade, panicked: bool)
    | Settled(outcome: Outcome)
    | Leaving(outcome: Outcome)
    // read: waiting for the read guard; holding it; waiting for the pool; on the pool.
    | AwaitingGuard
    | Cloning
    | Holding(snapshot: Facade)
    | Querying(snapshot: Facade)
    | Done(outcome: Outcome)

  datatype Call = Mutate(body: Body) | Read(panics: bool)

  datatype Task = Task(owner: nat, call: Call, gate: nat, phase: Phase, detached: bool)

  /** A one-permit semaphore and its number of strong references. */
  datatype Gate = Gate(permits: nat, strong: nat)

  /** A reader-writer lock. */
  datatype Guard = Guard(readers: nat, writer: bool)

  datatype State = State(
    tasks: seq<Task>,
    gates: seq<Gate>,
    table: map<nat, nat>,
    pool: nat,
    guards: seq<Guard>,
    values: seq<Facade>,
    log: seq<seq<nat>>)

  // ------------------------------------------------------------------ the gates

  datatype Opened = Opened(table: map<nat, nat>, gates: seq<Gate>, gate: nat)

  predicate Live(gates: seq<Gate>, g: nat) {
    g < |gates| && 0 < gates[g].strong
  }

  /** Drop dead entries, then upgrade the owner's weak entry or replace it by a new gate. */
  function OpenGate(table: map<nat, nat>, gates: seq<Gate>, owner: nat): (r: Opened) {
    var kept := map o | o in table && Live(gates, table[o]) :: table[o];
    if owner in kept then
      var g := kept[owner];
      Opened(kept, gates[g := gates[g].(strong := gates[g].strong + 1)], g)
    else
      Opened(kept[owner := |gates|], gates + [Gate(1, 1)], |gates|)
  }

  /** The process-wide registry that `mutation_gate` updates under its mutex. */
  class GateRegistry {
    var table: map<nat, nat>
    var gates: seq<Gate>

    constructor ()
      ensures table == map[] && gates == []
    {
      table, gates := map[], [];
    }

    method MutationGate(owner: nat) returns (gate: nat)
      modifies this
      ensures Opened(table, gates, gate) == OpenGate(old(table), old(gates), owner)
      ensures Live(gates, gate) && owner in table && table[owner] == gate
    {
      table := map o | o in table && Live(gates, table[o]) :: table[o];
      if owner in table {
        gate := table[owner];
        gates := gates[gate := gates[gate].(strong := gates[gate].strong + 1)];
        return;
      }
      gate := |gates|;
      gates := gates + [Gate(1, 1)];
      table := table[owner := gate];
    }
  }

  // ------------------------------------------------------------------ the steps

  function Start(values: seq<Facade>): State {
    State([], [], map[], WORKERS, seq(|values|, _ => Guard(0, false)), values, seq(|values|, _ => []))
  }

  datatype Label =
    | CallMutate(owner: nat, body: Body)
    | CallRead(owner: nat, panics: bool)
    | Advance(task: nat)
    | Cancel(task: nat)

  predicate OwnerOf(s: State, t: Task) {
    t.owner < |s.values| && |s.values| == |s.guards| == |s.log|
  }

  /** Whether the lock or permit the task waits for can be granted. */
  predicate CanAdvance(s: State, i: nat) {
    i < |s.tasks| && OwnerOf(s, s.tasks[i]) &&
    var t := s.tasks[i];
    match t.phase
    case AwaitingGate => t.gate < |s.gates| && 0 < s.gates[t.gate].permits
    case AwaitingPool => 0 < s.pool
    case Queued => !s.guards[t.owner].writer
    case Reading => 0 < s.guards[t.owner].readers
    case Snapshotted(_) => t.call.Mutate?
    case Approved(_, _, _) => !s.guards[t.owner].writer && s.guards[t.owner].readers == 0
    case Settled(_) => t.gate < |s.gates| && 0 < s.gates[t.gate].strong
    case AwaitingGuard => !s.guards[t.owner].writer
    case Cloning => 0 < s.guards[t.owner].readers
    case Holding(_) => 0 < s.pool
    case Done(_) => false
    case _ => true
  }

  /** Awaits are the cancellation points; a guard is never held across one. */
  predicate CanCancel(s: State, i: nat) {
    i < |s.tasks| &&
    var t := s.tasks[i];
    && !t.detached && !t.phase.Done? && !t.phase.Cloning?
    && (t.phase.AwaitingGate? || t.phase.AwaitingPool? ==> t.gate < |s.gates| && 0 < s.gates[t.gate].strong)
  }

  predicate Enabled(s: State, l: Label) {
    match l
    case CallMutate(owner, _) => owner < |s.values|
    case CallRead(owner, _) => owner < |s.values|
    case Advance(i) => CanAdvance(s, i)
    case Cancel(i) => CanCancel(s, i)
  }

  function MoveTask(s: State, i: nat, phase: Phase): State
    requires i < |s.tasks|
  {
    s.(tasks := s.tasks[i := s.tasks[i].(phase := phase)])
  }

  function WithGate(s: State, g: nat, gate: Gate): State
    requires g < |s.gates|
  {
    s.(gates := s.gates[g := gate])
  }

  function WithGuard(s: State, o: nat, guard: Guard): State
    requires o < |s.guards|
  {
    s.(guards := s.guards[o := guard])
  }

  function AdvanceTask(policy: Policy, s: State, i: nat): State
    requires CanAdvance(s, i)
  {
    var t := s.tasks[i];
    var o := t.owner;
    match t.phase
    case AwaitingGate =>
      WithGate(MoveTask(s, i, AwaitingPool), t.gate, s.gates[t.gate].(permits := s.gates[t.gate].permits - 1))
    case AwaitingPool =>
      MoveTask(s, i, Queued).(pool := s.pool - 1)
    case Queued =>
      WithGuard(MoveTask(s, i, Reading), o, s.guards[o].(readers := s.guards[o].readers + 1))
    case Reading =>
      WithGuard(MoveTask(s, i, Snapshotted(s.values[o])), o, s.guards[o].(readers := s.guards[o].readers - 1))
    case Snapshotted(base) =>
      MoveTask(s, i, Ran(base, t.call.body.run(base), t.call.body.panics(base)))
    case Ran(base, after, panicked) =>
      var checked := policy.Checked(base, after);
      MoveTask(s, i, if checked.Some? then Approved(base, checked.value, panicked) else Settled(Refused))
    case Approved(base, after, panicked) =>
      WithGuard(MoveTask(s, i, Writing(base, after, panicked)), o, s.guards[o].(writer := true))
    case Writing(base, after, panicked) =>
      WithGuard(MoveTask(s, i, Settled(if panicked then Panicked else Returned)), o, s.guards[o].(writer := false))
      .(values := s.values[o := after], log := s.log[o := s.log[o] + [i]])
    case Settled(outcome) =>
      ReleaseGate(MoveTask(s, i, Leaving(outcome)), t.gate, 1)
    case Leaving(outcome) =>
      MoveTask(s, i, Done(outcome)).(pool := s.pool + 1)
    case AwaitingGuard =>
      WithGuard(MoveTask(s, i, Cloning), o, s.guards[o].(readers := s.guards[o].readers + 1))
    case Cloning =>
      WithGuard(MoveTask(s, i, Holding(s.values[o])), o, s.guards[o].(readers := s.guards[o].readers - 1))
    case Holding(snapshot) =>
      MoveTask(s, i, Querying(snapshot)).(pool := s.pool - 1)
    case Querying(_) =>
      MoveTask(s, i, Done(if t.call.Read? && t.call.panics then Panicked else Returned)).(pool := s.pool + 1)
  }

  /** Drop a reference to a gate, with the permit it carried if any. */
  function ReleaseGate(s: State, g: nat, permits: nat): State
    requires g < |s.gates| && 0 < s.gates[g].strong
  {
    WithGate(s, g, Gate(s.gates[g].permits + permits, s.gates[g].strong - 1))
  }

  /** Dropping the future frees what it owns; a spawned worker keeps running with its permits. */
  function CancelTask(s: State, i: nat): State
    requires CanCancel(s, i)
  {
    var t := s.tasks[i];
    match t.phase
    case AwaitingGate => ReleaseGate(MoveTask(s, i, Done(Cancelled)), t.gate, 0)
    case AwaitingPool => ReleaseGate(MoveTask(s, i, Done(Cancelled)), t.gate, 1)
    case AwaitingGuard => MoveTask(s, i, Done(Cancelled))
    case Holding(_) => MoveTask(s, i, Done(Cancelled))
    case _ => s.(tasks := s.tasks[i := t.(detached := true)])
  }

  function Next(policy: Policy, s: State, l: Label): State
    requires Enabled(s, l)
  {
    match l
    case CallMutate(owner, body) =>
      var access := OpenGate(s.table, s.gates, owner);
      s.(tasks := s.tasks + [Task(owner, Mutate(body), access.gate, AwaitingGate, false)],
         gates := access.gates, table := access.table)
    case CallRead(owner, panics) =>
      s.(tasks := s.tasks + [Task(owner, Read(panics), 0, AwaitingGuard, false)])
    case Advance(i) => AdvanceTask(policy, s, i)
    case Cancel(i) => CancelTask(s, i)
  }

  /** `labels` is a run from `s` that ends in `end`. */
  ghost predicate Run(policy: Policy, s: State, labels: seq<Label>, end: State)
    decreases |labels|
  {
    if labels == [] then s == end
    else Enabled(s, labels[0]) && Run(policy, Next(policy, s, labels[0]), labels[1..], end)
  }

  // ------------------------------------------------------------------ holdings

  predicate HoldsGate(p: Phase) {
    match p
    case AwaitingPool => true
    case Queued => true
    case Reading => true
    case Snapshotted(_) => true
    case Ran(_, _, _) => true
    case Approved(_, _, _) => true
    case Writing(_, _, _) => true
    case Settled(_) => true
    case _ => false
  }

  predicate UsesGate(p: Phase) {
    p.AwaitingGate? || HoldsGate(p)
  }

  predicate OnPool(p: Phase) {
    (HoldsGate(p) && !p.AwaitingPool?) || p.Leaving? || p.Querying?
  }

  /** A permit, reference or guard that a task can own. */
  datatype Claim =
    | GateReference(gate: nat)
    | GatePermit(gate: nat)
    | PoolPermit
    | ReadGuard(owner: nat)
    | WriteGuard(owner: nat)

  predicate Claims(t: Task, c: Claim) {
    match c
    case GateReference(g) => t.gate == g && UsesGate(t.phase)
    case GatePermit(g) => t.gate == g && HoldsGate(t.phase)
    case PoolPermit => OnPool(t.phase)
    case ReadGuard(o) => t.owner == o && (t.phase.Reading? || t.phase.Cloning?)
    case WriteGuard(o) => t.owner == o && t.phase.Writing?
  }

  function Weight(t: Task, c: Claim): nat {
    if Claims(t, c) then 1 else 0
  }

  /** How many tasks own a claim. */
  function Count(tasks: seq<Task>, c: Claim): nat {
    if tasks == [] then 0 else Count(tasks[..|tasks| - 1], c) + Weight(tasks[|tasks| - 1], c)
  }

  /** How many owners of a claim the semaphores and locks account for. */
  function Charged(s: State, c: Claim): int {
    match c
    case GateReference(g) => if g < |s.gates| then s.gates[g].strong else 0
    case GatePermit(g) => if g < |s.gates| then 1 - s.gates[g].permits else 0
    case PoolPermit => WORKERS - s.pool
    case ReadGuard(o) => if o < |s.guards| then s.guards[o].readers else 0
    case WriteGuard(o) => if o < |s.guards| && s.guards[o].writer then 1 else 0
  }

  lemma {:induction false} CountUpdate(tasks: seq<Task>, i: nat, t: Task, c: Claim)
    requires i < |tasks|
    ensures Count(tasks[i := t], c) == Count(tasks, c) - Weight(tasks[i], c) + Weight(t, c)
  {
    var last := |tasks| - 1;
    if i < last {
      CountUpdate(tasks[..last], i, t, c);
      assert tasks[i := t][..last] == tasks[..last][i := t];
    } else {
      assert tasks[i := t][..last] == tasks[..last];
    }
  }

  lemma CountAppend(tasks: seq<Task>, t: Task, c: Claim)
    ensures Count(tasks + [t], c) == Count(tasks, c) + Weight(t, c)
  {
    assert (tasks + [t])[..|tasks|] == tasks;
  }

  lemma {:induction false} CountOwner(tasks: seq<Task>, c: Claim, i: nat)
    requires i < |tasks| && Claims(tasks[i], c)
    ensures 1 <= Count(tasks, c)
  {
    var last := |tasks| - 1;
    if i < last {
      CountOwner(tasks[..last], c, i);
    }
  }

  lemma {:induction false} CountOwners(tasks: seq<Task>, c: Claim, i: nat, j: nat)
    requires i < j < |tasks| && Claims(tasks[i], c) && Claims(tasks[j], c)
    ensures 2 <= Count(tasks, c)
  {
    var last := |tasks| - 1;
    if j < last {
      CountOwners(tasks[..last], c, i, j);
    } else {
      CountOwner(tasks[..last], c, i);
    }
  }

  lemma {:induction false} CountNone(tasks: seq<Task>, c: Claim)
    requires forall i | 0 <= i < |tasks| :: !Claims(tasks[i], c)
    ensures Count(tasks, c) == 0
  {
    if tasks != [] {
      CountNone(tasks[..|tasks| - 1], c);
    }
  }

  // --------------------------------------------------------------- the invariant

  ghost predicate Shape(s: State) {
    && |s.values| == |s.guards| == |s.log|
    && (forall i | 0 <= i < |s.tasks| :: TaskShape(s, s.tasks[i]))
    && (forall o | o in s.table :: s.table[o] < |s.gates|)
    && (forall o, o' | o in s.table && o' in s.table && s.table[o] == s.table[o'] :: o == o')
  }

  /** Calls stay in the phases of their kind, and a gate in use is its owner's table entry. */
  ghost predicate TaskShape(s: State, t: Task) {
    && t.owner < |s.values|
    && (UsesGate(t.phase) ==>
          && t.call.Mutate?
          && t.owner in s.table && s.table[t.owner] == t.gate < |s.gates|)
    && (t.phase.AwaitingGuard? || t.phase.Cloning? || t.phase.Holding? || t.phase.Querying? ==> t.call.Read?)
  }

  /** Every semaphore and lock accounts for exactly the tasks that own its claims. */
  ghost predicate Ledger(s: State) {
    forall c: Claim :: Charged(s, c) == Count(s.tasks, c)
  }

  /** A snapshot is the published value until its own mutation publishes. */
  ghost predicate Current(policy: Policy, s: State, t: Task)
    requires t.owner < |s.values|
  {
    match t.phase
    case Snapshotted(base) => t.call.Mutate? && base == s.values[t.owner]
    case Ran(base, after, panicked) =>
      && t.call.Mutate? && base == s.values[t.owner]
      && after == t.call.body.run(base) && panicked == t.call.body.panics(base)
    case Approved(base, after, panicked) => Accounts(policy, s, t, base, after, panicked)
    case Writing(base, after, panicked) => Accounts(policy, s, t, base, after, panicked)
    case _ => true
  }

  ghost predicate Accounts(policy: Policy, s: State, t: Task, base: Facade, after: Facade, panicked: bool)
    requires t.owner < |s.values|
  {
    && t.call.Mutate? && base == s.values[t.owner]
    && policy.Publication(t.call.body, base) == Some(after)
    && panicked == t.call.body.panics(base)
  }

  /** The bodies of `log` applied one after another, each to what the one before published. */
  function Replay(policy: Policy, tasks: seq<Task>, initial: Facade, log: seq<nat>): Option<Facade> {
    if log == [] then Some(initial)
    else
      var before := Replay(policy, tasks, initial, log[..|log| - 1]);
      var i := log[|log| - 1];
      if before.Some? && i < |tasks| && tasks[i].call.Mutate?
      then policy.Publication(tasks[i].call.body, before.value)
      else None
  }

  predicate HasPublished(p: Phase) {
    match p
    case Settled(outcome) => outcome.Returned? || outcome.Panicked?
    case Leaving(outcome) => outcome.Returned? || outcome.Panicked?
    case Done(outcome) => outcome.Returned? || outcome.Panicked?
    case _ => false
  }

  /** The log of an owner lists its finished mutations, each once. */
  ghost predicate LogExact(s: State, o: nat)
    requires o < |s.log|
  {
    && (forall i: nat :: i in s.log[o] <==>
          i < |s.tasks| && s.tasks[i].owner == o && s.tasks[i].call.Mutate? && HasPublished(s.tasks[i].phase))
    && (forall j, k | 0 <= j < k < |s.log[o]| :: s.log[o][j] != s.log[o][k])
  }

  ghost predicate History(policy: Policy, initial: seq<Facade>, s: State) {
    && |initial| == |s.values| == |s.log|
    && (forall o | 0 <= o < |s.values| ::
          Replay(policy, s.tasks, initial[o], s.log[o]) == Some(s.values[o]) && LogExact(s, o))
  }

  ghost predicate Inv(policy: Policy, initial: seq<Facade>, s: State) {
    && Shape(s)
    && Ledger(s)
    && (forall i | 0 <= i < |s.tasks| :: Current(policy, s, s.tasks[i]))
    && History(policy, initial, s)
  }

  /** Two tasks never hold the gate of one owner at the same time. */
  lemma OneBodyPerOwner(s: State, i: nat, j: nat)
    requires Shape(s) && Ledger(s) && i < |s.tasks| && j < |s.tasks|
    requires HoldsGate(s.tasks[i].phase) && HoldsGate(s.tasks[j].phase)
    requires s.tasks[i].owner == s.tasks[j].owner
    ensures i == j
  {
    if i != j {
      var c := GatePermit(s.tasks[i].gate);
      assert TaskShape(s, s.tasks[i]) && TaskShape(s, s.tasks[j]);
      assert Charged(s, c) <= 1;
      CountOwners(s.tasks, c, if i < j then i else j, if i < j then j else i);
    }
  }

  lemma StartInv(policy: Policy, values: seq<Facade>)
    ensures Inv(policy, values, Start(values))
  {
  }

  // ---- calls

  /** Opening a gate keeps every entry in use and charges one more reference to one gate. */
  lemma OpenGateKeeps(s: State, owner: nat)
    requires Shape(s) && Ledger(s)
    ensures var r := OpenGate(s.table, s.gates, owner);
            && (forall o | o in r.table :: r.table[o] < |r.gates|)
            && (forall o, o' | o in r.table && o' in r.table && r.table[o] == r.table[o'] :: o == o')
            && owner in r.table && r.table[owner] == r.gate && |s.gates| <= |r.gates|
            && (forall i | 0 <= i < |s.tasks| && UsesGate(s.tasks[i].phase) ::
                  s.tasks[i].owner in r.table && r.table[s.tasks[i].owner] == s.tasks[i].gate)
  {
    forall i | 0 <= i < |s.tasks| && UsesGate(s.tasks[i].phase)
      ensures s.tasks[i].gate < |s.gates| && Live(s.gates, s.tasks[i].gate)
      ensures s.tasks[i].owner in s.table && s.table[s.tasks[i].owner] == s.tasks[i].gate
    {
      assert TaskShape(s, s.tasks[i]);
      CountOwner(s.tasks, GateReference(s.tasks[i].gate), i);
      assert Charged(s, GateReference(s.tasks[i].gate)) >= 1;
    }
  }

  lemma CallLedger(policy: Policy, s: State, l: Label)
    requires Shape(s) && Ledger(s) && Enabled(s, l) && (l.CallMutate? || l.CallRead?)
    ensures Ledger(Next(policy, s, l))
  {
    hide AdvanceTask, CancelTask, CanAdvance, CanCancel, TaskShape, Count;
    var s' := Next(policy, s, l);
    var t := s'.tasks[|s.tasks|];
    if l.CallMutate? {
      OpenGateCharges(s, l.owner);
    }
    forall c: Claim
      ensures Charged(s', c) == Count(s'.tasks, c)
    {
      CountAppend(s.tasks, t, c);
      assert Charged(s, c) == Count(s.tasks, c);
    }
  }

  /** Opening a gate changes the charge of one reference only. */
  lemma OpenGateCharges(s: State, owner: nat)
    requires Shape(s)
    ensures var r := OpenGate(s.table, s.gates, owner);
            forall c: Claim ::
              Charged(s.(gates := r.gates), c) ==
              Charged(s, c) + if c == GateReference(r.gate) then 1 else 0
  {
  }

  lemma CallInv(policy: Policy, initial: seq<Facade>, s: State, l: Label)
    requires Inv(policy, initial, s) && Enabled(s, l) && (l.CallMutate? || l.CallRead?)
    ensures Inv(policy, initial, Next(policy, s, l))
  {
    var s' := Next(policy, s, l);
    CallLedger(policy, s, l);
    if l.CallMutate? {
      OpenGateKeeps(s, l.owner);
    }
    forall i | 0 <= i < |s'.tasks|
      ensures TaskShape(s', s'.tasks[i]) && Current(policy, s', s'.tasks[i])
    {
      if i < |s.tasks| {
        assert TaskShape(s, s.tasks[i]) && Current(policy, s, s.tasks[i]);
      }
    }
    HistoryStable(policy, initial, s, s');
  }

  // ---- advancing and cancelling

  /** A step moves one task's phase and nothing else about tasks. */
  lemma AdvanceMovesOne(policy: Policy, s: State, i: nat)
    requires CanAdvance(s, i)
    ensures var s' := AdvanceTask(policy, s, i);
            && |s'.tasks| == |s.tasks| && s'.tasks == s.tasks[i := s.tasks[i].(phase := s'.tasks[i].phase)]
            && s'.table == s.table
  {
  }

  /** A step keeps every count of things, and writes only on publication. */
  lemma AdvanceKeepsSizes(policy: Policy, s: State, i: nat)
    requires CanAdvance(s, i)
    ensures var s' := AdvanceTask(policy, s, i);
            && |s'.gates| == |s.gates| && |s'.guards| == |s.guards|
            && |s'.values| == |s.values| && |s'.log| == |s.log|
  {
  }

  lemma AdvanceWrites(policy: Policy, s: State, i: nat)
    requires CanAdvance(s, i)
    ensures var s' := AdvanceTask(policy, s, i);
            if s.tasks[i].phase.Writing? then
              && s'.values == s.values[s.tasks[i].owner := s.tasks[i].phase.after]
              && s'.log == s.log[s.tasks[i].owner := s.log[s.tasks[i].owner] + [i]]
            else s'.values == s.values && s'.log == s.log
  {
  }

  /** What a step leaves alone, and how it may move a value. */
  lemma AdvanceFrame(policy: Policy, s: State, i: nat)
    requires CanAdvance(s, i)
    ensures var s' := AdvanceTask(policy, s, i);
            && |s'.tasks| == |s.tasks| && (forall j | 0 <= j < |s.tasks| && j != i :: s'.tasks[j] == s.tasks[j])
            && s'.tasks[i] == s.tasks[i].(phase := s'.tasks[i].phase)
            && s'.table == s.table && |s'.gates| == |s.gates| && |s'.guards| == |s.guards|
            && |s'.values| == |s.values| && |s'.log| == |s.log|
            && (forall o | 0 <= o < |s.values| && (o != s.tasks[i].owner || !s.tasks[i].phase.Writing?) ::
                  s'.values[o] == s.values[o])
            && (!s.tasks[i].phase.Writing? ==> s'.values == s.values && s'.log == s.log)
  {
    AdvanceMovesOne(policy, s, i);
    AdvanceKeepsSizes(policy, s, i);
    AdvanceWrites(policy, s, i);
    hide AdvanceTask;
  }

  /** A step changes what is charged for a claim exactly as it changes who owns it. */
  ghost predicate Balances(s: State, s': State, i: nat, c: Claim)
    requires i < |s.tasks|
  {
    && |s'.tasks| == |s.tasks| && s'.tasks == s.tasks[i := s'.tasks[i]]
    && Charged(s', c) - Charged(s, c) == Weight(s'.tasks[i], c) - Weight(s.tasks[i], c)
  }

  lemma AdvanceBalancesReferences(policy: Policy, s: State, i: nat, g: nat)
    requires Shape(s) && CanAdvance(s, i)
    ensures Balances(s, AdvanceTask(policy, s, i), i, GateReference(g))
  {
    assert TaskShape(s, s.tasks[i]);
  }

  lemma AdvanceBalancesPermits(policy: Policy, s: State, i: nat, g: nat)
    requires Shape(s) && CanAdvance(s, i)
    ensures Balances(s, AdvanceTask(policy, s, i), i, GatePermit(g))
  {
    assert TaskShape(s, s.tasks[i]);
  }

  lemma AdvanceBalancesPool(policy: Policy, s: State, i: nat)
    requires Shape(s) && CanAdvance(s, i)
    ensures Balances(s, AdvanceTask(policy, s, i), i, PoolPermit)
  {
  }

  lemma AdvanceBalancesReaders(policy: Policy, s: State, i: nat, o: nat)
    requires Shape(s) && CanAdvance(s, i)
    ensures Balances(s, AdvanceTask(policy, s, i), i, ReadGuard(o))
  {
  }

  /** Only a grant of the write guard and a publication change who writes. */
  lemma AdvanceSetsWriter(policy: Policy, s: State, i: nat, o: nat)
    requires CanAdvance(s, i)
    ensures var s' := AdvanceTask(policy, s, i);
            && |s'.guards| == |s.guards|
            && (o < |s.guards| ==>
                  s'.guards[o].writer ==
                  (if o == s.tasks[i].owner && s.tasks[i].phase.Approved? then true
                   else if o == s.tasks[i].owner && s.tasks[i].phase.Writing? then false
                   else s.guards[o].writer))
            && i < |s'.tasks| && (s'.tasks[i].phase.Writing? <==> s.tasks[i].phase.Approved?)
  {
  }

  lemma AdvanceBalancesWriter(policy: Policy, s: State, i: nat, o: nat)
    requires Shape(s) && CanAdvance(s, i)
    requires Charged(s, WriteGuard(o)) == Count(s.tasks, WriteGuard(o))
    ensures Balances(s, AdvanceTask(policy, s, i), i, WriteGuard(o))
  {
    assert !(s.tasks[i].phase.Approved? && s.guards[s.tasks[i].owner].writer) && s.tasks[i].owner < |s.guards|;
    hide Count, AdvanceTask, CanAdvance, TaskShape;
    AdvanceMovesOne(policy, s, i);
    AdvanceSetsWriter(policy, s, i, o);
    if Claims(s.tasks[i], WriteGuard(o)) {
      CountOwner(s.tasks, WriteGuard(o), i);
    }
  }

  lemma AdvanceLedger(policy: Policy, s: State, i: nat)
    requires Shape(s) && Ledger(s) && CanAdvance(s, i)
    ensures Ledger(AdvanceTask(policy, s, i))
  {
    assert i < |s.tasks|;
    hide AdvanceTask, Charged, Claims, CanAdvance;
    var s' := AdvanceTask(policy, s, i);
    forall c: Claim
      ensures Charged(s', c) == Count(s'.tasks, c)
    {
      assert Charged(s, c) == Count(s.tasks, c);
      match c {
        case PoolPermit => AdvanceBalancesPool(policy, s, i);
        case ReadGuard(o) => AdvanceBalancesReaders(policy, s, i, o);
        case WriteGuard(o) => AdvanceBalancesWriter(policy, s, i, o);
        case GateReference(g) => AdvanceBalancesReferences(policy, s, i, g);
        case GatePermit(g) => AdvanceBalancesPermits(policy, s, i, g);
      }
      CountUpdate(s.tasks, i, s'.tasks[i], c);
    }
  }

  /** A cancellation moves one task, and touches neither table, guards, values, log nor pool. */
  lemma CancelFrame(s: State, i: nat)
    requires CanCancel(s, i)
    ensures var s' := CancelTask(s, i);
            && |s'.tasks| == |s.tasks| && s'.tasks == s.tasks[i := s'.tasks[i]]
            && s'.tasks[i] == s.tasks[i].(phase := s'.tasks[i].phase, detached := s'.tasks[i].detached)
            && (if s'.tasks[i].detached then s'.tasks[i].phase == s.tasks[i].phase
                else s'.tasks[i].phase == Done(Cancelled) && !OnPool(s.tasks[i].phase))
            && s'.table == s.table && |s'.gates| == |s.gates| && s'.guards == s.guards
            && s'.values == s.values && s'.log == s.log && s'.pool == s.pool
  {
  }

  lemma CancelBalances(s: State, i: nat, c: Claim)
    requires Shape(s) && CanCancel(s, i)
    ensures Balances(s, CancelTask(s, i), i, c)
  {
    assert TaskShape(s, s.tasks[i]);
  }

  lemma CancelLedger(s: State, i: nat)
    requires Shape(s) && Ledger(s) && CanCancel(s, i)
    ensures Ledger(CancelTask(s, i))
  {
    assert i < |s.tasks|;
    hide CancelTask, CanCancel, Charged, Claims;
    var s' := CancelTask(s, i);
    forall c: Claim
      ensures Charged(s', c) == Count(s'.tasks, c)
    {
      CancelBalances(s, i, c);
      CountUpdate(s.tasks, i, s'.tasks[i], c);
      assert Charged(s, c) == Count(s.tasks, c);
    }
  }

  lemma {:induction false} ReplayStable(
    policy: Policy, tasks: seq<Task>, tasks': seq<Task>, initial: Facade, log: seq<nat>)
    requires forall i | i in log :: i < |tasks| && i < |tasks'| && tasks[i].call == tasks'[i].call
    ensures Replay(policy, tasks, initial, log) == Replay(policy, tasks', initial, log)
  {
    if log != [] {
      ReplayStable(policy, tasks, tasks', initial, log[..|log| - 1]);
    }
  }

  /** Steps that publish nothing and change no task's call leave the history as it was. */
  lemma HistoryStable(policy: Policy, initial: seq<Facade>, s: State, s': State)
    requires History(policy, initial, s)
    requires s'.values == s.values && s'.log == s.log && |s.tasks| <= |s'.tasks|
    requires forall i | 0 <= i < |s.tasks| ::
               && s.tasks[i].call == s'.tasks[i].call && s.tasks[i].owner == s'.tasks[i].owner
               && (s.tasks[i].call.Mutate? ==>
                     (HasPublished(s.tasks[i].phase) <==> HasPublished(s'.tasks[i].phase)))
    requires forall i | |s.tasks| <= i < |s'.tasks| :: !HasPublished(s'.tasks[i].phase)
    ensures History(policy, initial, s')
  {
    forall o | 0 <= o < |s.values|
      ensures Replay(policy, s'.tasks, initial[o], s'.log[o]) == Some(s'.values[o]) && LogExact(s', o)
    {
      assert LogExact(s, o);
      ReplayStable(policy, s.tasks, s'.tasks, initial[o], s.log[o]);
    }
  }

  lemma AdvancePublishes(policy: Policy, s: State, i: nat)
    requires CanAdvance(s, i) && s.tasks[i].phase.Writing?
    ensures HasPublished(AdvanceTask(policy, s, i).tasks[i].phase)
  {
  }

  /** `s'` continues `s` by the publication of one task. */
  ghost predicate Publishes(s: State, s': State, i: nat, t: Task, after: Facade) {
    && i < |s.tasks| && s.tasks[i].owner < |s.values| && |s.values| == |s.log|
    && t.call == s.tasks[i].call && t.owner == s.tasks[i].owner && t.call.Mutate?
    && HasPublished(t.phase) && !HasPublished(s.tasks[i].phase)
    && s'.tasks == s.tasks[i := t] && s'.values == s.values[t.owner := after]
    && s'.log == s.log[t.owner := s.log[t.owner] + [i]]
  }

  lemma LogGrows(s: State, s': State, i: nat, t: Task, after: Facade, o: nat)
    requires Publishes(s, s', i, t, after) && o < |s.log| && LogExact(s, o)
    ensures LogExact(s', o)
  {
    hide HasPublished;
    assert i !in s.log[o];
    if o == t.owner {
      assert s'.log[o] == s.log[o] + [i];
    } else {
      assert s'.log[o] == s.log[o];
    }
  }

  /** The owner's replay is one body longer, everyone else's is the same. */
  lemma ReplayGrows(policy: Policy, s: State, s': State, i: nat, t: Task, after: Facade, initial: Facade, o: nat)
    requires Publishes(s, s', i, t, after) && o < |s.log| && LogExact(s, o)
    requires policy.Publication(t.call.body, s.values[t.owner]) == Some(after)
    requires Replay(policy, s.tasks, initial, s.log[o]) == Some(s.values[o])
    ensures Replay(policy, s'.tasks, initial, s'.log[o]) == Some(s'.values[o])
  {
    hide HasPublished;
    ReplayStable(policy, s.tasks, s'.tasks, initial, s.log[o]);
    if o == t.owner {
      assert s'.log[o][..|s.log[o]|] == s.log[o];
    }
  }

  /** One more entry in an owner's log and its body applied once more continue the history. */
  lemma HistoryAppends(policy: Policy, initial: seq<Facade>, s: State, s': State, i: nat, t: Task, after: Facade)
    requires History(policy, initial, s) && Publishes(s, s', i, t, after)
    requires policy.Publication(t.call.body, s.values[t.owner]) == Some(after)
    ensures History(policy, initial, s')
  {
    hide LogExact, Replay, HasPublished;
    forall o | 0 <= o < |s.values|
      ensures Replay(policy, s'.tasks, initial[o], s'.log[o]) == Some(s'.values[o]) && LogExact(s', o)
    {
      LogGrows(s, s', i, t, after, o);
      ReplayGrows(policy, s, s', i, t, after, initial[o], o);
    }
  }

  /** Publishing appends the task to its owner's log and applies its body once more. */
  lemma HistoryPublishes(policy: Policy, initial: seq<Facade>, s: State, i: nat)
    requires Inv(policy, initial, s) && CanAdvance(s, i) && s.tasks[i].phase.Writing?
    ensures History(policy, initial, AdvanceTask(policy, s, i))
  {
    assert Current(policy, s, s.tasks[i]) && Accounts(policy, s, s.tasks[i], s.tasks[i].phase.base,
                                                     s.tasks[i].phase.after, s.tasks[i].phase.panicked);
    hide AdvanceTask, CanAdvance, History, Ledger, Current;
    var s' := AdvanceTask(policy, s, i);
    AdvanceMovesOne(policy, s, i);
    AdvanceWrites(policy, s, i);
    AdvancePublishes(policy, s, i);
    HistoryAppends(policy, initial, s, s', i, s'.tasks[i], s.tasks[i].phase.after);
  }

  /** The task that moves ends in a phase of its kind. */
  lemma AdvanceKeepsShape(policy: Policy, s: State, i: nat)
    requires Shape(s) && CanAdvance(s, i)
    ensures var s' := AdvanceTask(policy, s, i);
            i < |s'.tasks| && TaskShape(s', s'.tasks[i])
  {
    assert TaskShape(s, s.tasks[i]);
  }

  lemma AdvanceKeepsCurrent(policy: Policy, s: State, i: nat)
    requires Shape(s) && CanAdvance(s, i) && Current(policy, s, s.tasks[i])
    ensures var s' := AdvanceTask(policy, s, i);
            && i < |s'.tasks| && s'.tasks[i].owner < |s'.values| && Current(policy, s', s'.tasks[i])
            && (s.tasks[i].call.Mutate? && !s.tasks[i].phase.Writing? ==>
                  (HasPublished(s.tasks[i].phase) <==> HasPublished(s'.tasks[i].phase)))
  {
    assert TaskShape(s, s.tasks[i]);
  }

  /** Only the holder of an owner's gate changes its value, so other snapshots stay current. */
  lemma AdvanceKeepsOthers(policy: Policy, s: State, i: nat, j: nat)
    requires Shape(s) && Ledger(s) && CanAdvance(s, i) && j < |s.tasks| && j != i
    requires Current(policy, s, s.tasks[j])
    ensures var s' := AdvanceTask(policy, s, i);
            j < |s'.tasks| && TaskShape(s', s'.tasks[j]) && Current(policy, s', s'.tasks[j])
  {
    assert i < |s.tasks|;
    hide AdvanceTask, CanAdvance;
    AdvanceFrame(policy, s, i);
    assert TaskShape(s, s.tasks[j]);
    if s.tasks[i].phase.Writing? && HoldsGate(s.tasks[j].phase) && s.tasks[i].owner == s.tasks[j].owner {
      OneBodyPerOwner(s, i, j);
    }
  }

  lemma AdvanceInv(policy: Policy, initial: seq<Facade>, s: State, i: nat)
    requires Inv(policy, initial, s) && CanAdvance(s, i)
    ensures Inv(policy, initial, AdvanceTask(policy, s, i))
  {
    assert i < |s.tasks| && Current(policy, s, s.tasks[i]);
    hide AdvanceTask, CanAdvance, Current, HasPublished;
    var s' := AdvanceTask(policy, s, i);
    AdvanceFrame(policy, s, i);
    AdvanceLedger(policy, s, i);
    AdvanceKeepsShape(policy, s, i);
    AdvanceKeepsCurrent(policy, s, i);
    forall j | 0 <= j < |s'.tasks|
      ensures TaskShape(s', s'.tasks[j]) && Current(policy, s', s'.tasks[j])
    {
      if j != i {
        AdvanceKeepsOthers(policy, s, i, j);
      }
    }
    if s.tasks[i].phase.Writing? {
      HistoryPublishes(policy, initial, s, i);
    } else {
      HistoryStable(policy, initial, s, s');
    }
  }

  lemma CancelPublishesNothing(s: State, i: nat)
    requires CanCancel(s, i)
    ensures HasPublished(CancelTask(s, i).tasks[i].phase) <==> HasPublished(s.tasks[i].phase)
  {
  }

  lemma CancelInv(policy: Policy, initial: seq<Facade>, s: State, i: nat)
    requires Inv(policy, initial, s) && CanCancel(s, i)
    ensures Inv(policy, initial, CancelTask(s, i))
  {
    assert i < |s.tasks|;
    hide CancelTask, CanCancel, HasPublished;
    var s' := CancelTask(s, i);
    CancelFrame(s, i);
    CancelLedger(s, i);
    CancelPublishesNothing(s, i);
    forall j | 0 <= j < |s'.tasks|
      ensures TaskShape(s', s'.tasks[j]) && Current(policy, s', s'.tasks[j])
    {
      assert TaskShape(s, s.tasks[j]) && Current(policy, s, s.tasks[j]);
    }
    HistoryStable(policy, initial, s, s');
  }

  lemma NextInv(policy: Policy, initial: seq<Facade>, s: State, l: Label)
    requires Inv(policy, initial, s) && Enabled(s, l)
    ensures Inv(policy, initial, Next(policy, s, l))
  {
    match l
    case Advance(i) => AdvanceInv(policy, initial, s, i);
    case Cancel(i) => CancelInv(policy, initial, s, i);
    case _ => CallInv(policy, initial, s, l);
  }

  lemma {:induction false} RunInv(policy: Policy, initial: seq<Facade>, s: State, labels: seq<Label>, end: State)
    requires Inv(policy, initial, s) && Run(policy, s, labels, end)
    ensures Inv(policy, initial, end)
    decreases |labels|
  {
    if labels != [] {
      NextInv(policy, initial, s, labels[0]);
      RunInv(policy, initial, Next(policy, s, labels[0]), labels[1..], end);
    }
  }

  // ------------------------------------------------------------------- theorems

  ghost predicate Reachable(policy: Policy, values: seq<Facade>, labels: seq<Label>, s: State) {
    Run(policy, Start(values), labels, s)
  }

  lemma ReachableInv(policy: Policy, values: seq<Facade>, labels: seq<Label>, s: State)
    requires Reachable(policy, values, labels, s)
    ensures Inv(policy, values, s)
  {
    StartInv(policy, values);
    RunInv(policy, values, Start(values), labels, s);
  }

  lemma {:induction false} CountWitness(tasks: seq<Task>, c: Claim) returns (i: nat)
    requires 0 < Count(tasks, c)
    ensures i < |tasks| && Claims(tasks[i], c)
  {
    i := |tasks| - 1;
    if !Claims(tasks[i], c) {
      i := CountWitness(tasks[..i], c);
    }
  }

  /** Every live gate is the entry of an owner with a call in flight, so no owner has two. */
  lemma LiveGatesAreEntries(s: State)
    requires Shape(s) && Ledger(s)
    ensures forall g | 0 <= g < |s.gates| && Live(s.gates, g) ::
              exists i | 0 <= i < |s.tasks| ::
                UsesGate(s.tasks[i].phase) && s.tasks[i].owner in s.table && s.table[s.tasks[i].owner] == g
  {
    forall g | 0 <= g < |s.gates| && Live(s.gates, g)
      ensures exists i | 0 <= i < |s.tasks| ::
                UsesGate(s.tasks[i].phase) && s.tasks[i].owner in s.table && s.table[s.tasks[i].owner] == g
    {
      assert 0 < Charged(s, GateReference(g));
      var i := CountWitness(s.tasks, GateReference(g));
      assert TaskShape(s, s.tasks[i]);
    }
  }

  /**
   However calls, cancellations and panics interleave: every live gate is its owner's
   only one, at most one call per owner is past it, and the published value is the
   outcome of the finished bodies applied one after another, each of them once.
   */
  lemma MutationsSerialize(policy: Policy, values: seq<Facade>, labels: seq<Label>, s: State)
    requires Reachable(policy, values, labels, s)
    ensures forall g | 0 <= g < |s.gates| && Live(s.gates, g) ::
              exists i | 0 <= i < |s.tasks| ::
                UsesGate(s.tasks[i].phase) && s.tasks[i].owner in s.table && s.table[s.tasks[i].owner] == g
    ensures forall i | 0 <= i < |s.tasks| && UsesGate(s.tasks[i].phase) ::
              && s.tasks[i].gate < |s.gates| && Live(s.gates, s.tasks[i].gate)
              && s.tasks[i].owner in s.table && s.table[s.tasks[i].owner] == s.tasks[i].gate
    ensures forall i, j | 0 <= i < |s.tasks| && 0 <= j < |s.tasks| && s.tasks[i].owner == s.tasks[j].owner ::
              HoldsGate(s.tasks[i].phase) && HoldsGate(s.tasks[j].phase) ==> i == j
    ensures |s.values| == |s.log| == |values|
    ensures forall o | 0 <= o < |values| ::
              Replay(policy, s.tasks, values[o], s.log[o]) == Some(s.values[o]) && LogExact(s, o)
    ensures forall o, k | 0 <= o < |values| && 0 <= k < |s.log[o]| ::
              var i, base := s.log[o][k], Replay(policy, s.tasks, values[o], s.log[o][..k]);
              && base.Some? && i < |s.tasks| && s.tasks[i].call.Mutate?
              && OutcomeOf(s.tasks[i].phase) ==
                 Some(if s.tasks[i].call.body.panics(base.value) then Panicked else Returned)
  {
    hide Replay, OutcomeOf;
    ReachableInv(policy, values, labels, s);
    MutationsReportTruly(policy, values, labels, s);
    LiveGatesAreEntries(s);
    forall i | 0 <= i < |s.tasks| && UsesGate(s.tasks[i].phase)
      ensures s.tasks[i].gate < |s.gates| && Live(s.gates, s.tasks[i].gate)
      ensures s.tasks[i].owner in s.table && s.table[s.tasks[i].owner] == s.tasks[i].gate
    {
      assert TaskShape(s, s.tasks[i]);
      CountOwner(s.tasks, GateReference(s.tasks[i].gate), i);
      assert 1 <= Charged(s, GateReference(s.tasks[i].gate));
    }
    forall i, j | 0 <= i < |s.tasks| && 0 <= j < |s.tasks| && s.tasks[i].owner == s.tasks[j].owner
      ensures HoldsGate(s.tasks[i].phase) && HoldsGate(s.tasks[j].phase) ==> i == j
    {
      if HoldsGate(s.tasks[i].phase) && HoldsGate(s.tasks[j].phase) {
        OneBodyPerOwner(s, i, j);
      }
    }
  }

  lemma {:induction false} ReplayKeepsBoundary(
    policy: Policy, tasks: seq<Task>, initial: Facade, log: seq<nat>, value: Facade)
    requires initial.workspace.Some? && Replay(policy, tasks, initial, log) == Some(value)
    ensures value.workspace == initial.workspace
  {
    if log != [] {
      var front := log[..|log| - 1];
      ReplayKeepsBoundary(policy, tasks, initial, front, Replay(policy, tasks, initial, front).value);
    }
  }

  /** No run of mutations, whatever their bodies do, publishes a facade outside its boundary. */
  lemma BoundaryIsNeverLost(policy: Policy, values: seq<Facade>, labels: seq<Label>, s: State, o: nat)
    requires Reachable(policy, values, labels, s) && o < |values| && values[o].workspace.Some?
    ensures o < |s.values| && s.values[o].workspace == values[o].workspace
  {
    ReachableInv(policy, values, labels, s);
    ReplayKeepsBoundary(policy, s.tasks, values[o], s.log[o], s.values[o]);
  }

  /** Permits are conserved: exactly the tasks on the pool account for those taken. */
  lemma PoolIsConserved(policy: Policy, values: seq<Facade>, labels: seq<Label>, s: State)
    requires Reachable(policy, values, labels, s)
    ensures Count(s.tasks, PoolPermit) + s.pool == 4
  {
    ReachableInv(policy, values, labels, s);
    assert Charged(s, PoolPermit) == Count(s.tasks, PoolPermit);
  }

  /** Cancelling a caller takes nothing from a worker and returns what a waiting future owned. */
  lemma CancelAccounting(policy: Policy, values: seq<Facade>, labels: seq<Label>, s: State, i: nat)
    requires Reachable(policy, values, labels, s) && CanCancel(s, i)
    ensures var s' := CancelTask(s, i);
            && s'.pool == s.pool && s'.guards == s.guards && s'.values == s.values && s'.log == s.log
            && |s'.tasks| == |s.tasks| && |s'.gates| == |s.gates|
            && (OnPool(s.tasks[i].phase) ==> s'.tasks[i].phase == s.tasks[i].phase && s'.gates == s.gates)
            && (!OnPool(s.tasks[i].phase) ==>
                  && s'.tasks[i].phase == Done(Cancelled)
                  && forall c: Claim :: !Claims(s'.tasks[i], c))
            && (s.tasks[i].phase.AwaitingPool? ==>
                  s.tasks[i].gate < |s'.gates| && s'.gates[s.tasks[i].gate].permits == 1)
  {
    ReachableInv(policy, values, labels, s);
    if s.tasks[i].phase.AwaitingPool? {
      var c := GatePermit(s.tasks[i].gate);
      CountOwner(s.tasks, c, i);
      assert Charged(s, c) == Count(s.tasks, c);
    }
  }

  predicate Finished(s: State) {
    forall i | 0 <= i < |s.tasks| :: s.tasks[i].phase.Done?
  }

  lemma ChargedOwner(s: State, c: Claim, i: nat)
    requires Ledger(s) && i < |s.tasks| && Claims(s.tasks[i], c)
    ensures 1 <= Charged(s, c)
  {
    CountOwner(s.tasks, c, i);
  }

  lemma ChargedNone(s: State, c: Claim)
    requires Ledger(s) && forall i | 0 <= i < |s.tasks| :: !Claims(s.tasks[i], c)
    ensures Charged(s, c) == 0
  {
    CountNone(s.tasks, c);
    assert Charged(s, c) == Count(s.tasks, c);
  }

  /** Whoever holds a guard can go on; the code never waits while holding one. */
  lemma GuardHolderAdvances(s: State, i: nat)
    requires Shape(s) && Ledger(s) && i < |s.tasks|
    requires s.tasks[i].phase.Reading? || s.tasks[i].phase.Cloning? || s.tasks[i].phase.Writing?
    ensures CanAdvance(s, i)
  {
    assert TaskShape(s, s.tasks[i]);
    if !s.tasks[i].phase.Writing? {
      ChargedOwner(s, ReadGuard(s.tasks[i].owner), i);
    }
  }

  predicate HoldsGuard(p: Phase) {
    p.Reading? || p.Cloning? || p.Writing?
  }

  /** With no guard held, whoever is on the pool or waits only for a guard can go on. */
  lemma WorkerAdvances(policy: Policy, s: State, i: nat)
    requires Shape(s) && Ledger(s) && i < |s.tasks| && Current(policy, s, s.tasks[i])
    requires forall j | 0 <= j < |s.tasks| :: !HoldsGuard(s.tasks[j].phase)
    requires OnPool(s.tasks[i].phase) || s.tasks[i].phase.AwaitingGuard?
    ensures CanAdvance(s, i)
  {
    var t := s.tasks[i];
    assert TaskShape(s, t);
    ChargedNone(s, ReadGuard(t.owner));
    ChargedNone(s, WriteGuard(t.owner));
    if t.phase.Settled? {
      ChargedOwner(s, GateReference(t.gate), i);
    }
  }

  /** With the pool empty its permits are free, and then so is every gate nobody waits behind. */
  lemma WaiterAdvances(s: State, i: nat)
    requires Shape(s) && Ledger(s) && i < |s.tasks|
    requires forall j | 0 <= j < |s.tasks| :: !OnPool(s.tasks[j].phase)
    requires s.tasks[i].phase.AwaitingPool? || s.tasks[i].phase.Holding? ||
             (s.tasks[i].phase.AwaitingGate? && forall j | 0 <= j < |s.tasks| :: !HoldsGate(s.tasks[j].phase))
    ensures CanAdvance(s, i)
  {
    assert TaskShape(s, s.tasks[i]);
    ChargedNone(s, PoolPermit);
    if s.tasks[i].phase.AwaitingGate? {
      ChargedNone(s, GatePermit(s.tasks[i].gate));
    }
  }

  /** What a phase waits to be granted. */
  datatype Resource = GateOf(gate: nat) | PoolSlot | GuardOf(owner: nat)

  function WaitsFor(t: Task): Option<Resource> {
    match t.phase
    case AwaitingGate => Some(GateOf(t.gate))
    case AwaitingPool => Some(PoolSlot)
    case Holding(_) => Some(PoolSlot)
    case Queued => Some(GuardOf(t.owner))
    case Approved(_, _, _) => Some(GuardOf(t.owner))
    case AwaitingGuard => Some(GuardOf(t.owner))
    case _ => None
  }

  /** All that wait for what `i` waits for can go on, so whichever is granted first. */
  ghost predicate WholeQueueAdvances(s: State, i: nat)
    requires i < |s.tasks|
  {
    WaitsFor(s.tasks[i]).Some? ==>
      forall j | 0 <= j < |s.tasks| && WaitsFor(s.tasks[j]) == WaitsFor(s.tasks[i]) :: CanAdvance(s, j)
  }

  lemma GuardQueueAdvances(policy: Policy, initial: seq<Facade>, s: State, i: nat)
    requires Inv(policy, initial, s) && i < |s.tasks|
    requires forall j | 0 <= j < |s.tasks| :: !HoldsGuard(s.tasks[j].phase)
    requires OnPool(s.tasks[i].phase) || s.tasks[i].phase.AwaitingGuard?
    ensures CanAdvance(s, i) && WholeQueueAdvances(s, i)
  {
    hide CanAdvance, Ledger, Shape, History, Current;
    InvParts(policy, initial, s);
    WorkerAdvances(policy, s, i);
    if WaitsFor(s.tasks[i]).Some? {
      forall j | 0 <= j < |s.tasks| && WaitsFor(s.tasks[j]) == WaitsFor(s.tasks[i])
        ensures CanAdvance(s, j)
      {
        WorkerAdvances(policy, s, j);
      }
    }
  }

  lemma InvParts(policy: Policy, initial: seq<Facade>, s: State)
    requires Inv(policy, initial, s)
    ensures Shape(s) && Ledger(s) && History(policy, initial, s)
    ensures forall i | 0 <= i < |s.tasks| :: s.tasks[i].owner < |s.values| && Current(policy, s, s.tasks[i])
  {
    assert forall i | 0 <= i < |s.tasks| :: TaskShape(s, s.tasks[i]);
    hide Ledger, History, Current;
  }

  lemma PoolQueueAdvances(s: State, i: nat)
    requires Shape(s) && Ledger(s) && i < |s.tasks|
    requires forall j | 0 <= j < |s.tasks| :: !OnPool(s.tasks[j].phase)
    requires s.tasks[i].phase.AwaitingPool? || s.tasks[i].phase.Holding?
    ensures CanAdvance(s, i) && WholeQueueAdvances(s, i)
  {
    hide CanAdvance, Ledger, Shape;
    WaiterAdvances(s, i);
    forall j | 0 <= j < |s.tasks| && WaitsFor(s.tasks[j]) == WaitsFor(s.tasks[i])
      ensures CanAdvance(s, j)
    {
      WaiterAdvances(s, j);
    }
  }

  lemma GateQueueAdvances(s: State, i: nat)
    requires Shape(s) && Ledger(s) && i < |s.tasks| && s.tasks[i].phase.AwaitingGate?
    requires forall j | 0 <= j < |s.tasks| :: !OnPool(s.tasks[j].phase) && !HoldsGate(s.tasks[j].phase)
    ensures CanAdvance(s, i) && WholeQueueAdvances(s, i)
  {
    hide CanAdvance, Ledger, Shape;
    WaiterAdvances(s, i);
    forall j | 0 <= j < |s.tasks| && WaitsFor(s.tasks[j]) == WaitsFor(s.tasks[i])
      ensures CanAdvance(s, j)
    {
      WaiterAdvances(s, j);
    }
  }

  /**
   No deadlock: while a call is unfinished, some call can go on without a cancellation,
   and so can every other call that waits for the same thing. Whoever heads a queue is
   among them, in whatever order its waiters are served.
   */
  lemma SomeoneAdvances(policy: Policy, initial: seq<Facade>, s: State) returns (i: nat)
    requires Inv(policy, initial, s) && !Finished(s)
    ensures CanAdvance(s, i) && WholeQueueAdvances(s, i)
  {
    hide CanAdvance, Inv, Shape, Ledger, History, Current;
    InvParts(policy, initial, s);
    if g :| 0 <= g < |s.tasks| && HoldsGuard(s.tasks[g].phase) {
      i := g;
      GuardHolderAdvances(s, i);
    } else if w :| 0 <= w < |s.tasks| && (OnPool(s.tasks[w].phase) || s.tasks[w].phase.AwaitingGuard?) {
      i := w;
      GuardQueueAdvances(policy, initial, s, i);
    } else if p :| 0 <= p < |s.tasks| && (s.tasks[p].phase.AwaitingPool? || s.tasks[p].phase.Holding?) {
      i := p;
      PoolQueueAdvances(s, i);
    } else {
      i :| 0 <= i < |s.tasks| && !s.tasks[i].phase.Done?;
      GateQueueAdvances(s, i);
    }
  }

  /** Steps a call still needs, counted down to zero when it is done. */
  function Rank(p: Phase): nat {
    match p
    case AwaitingGate => 10
    case AwaitingPool => 9
    case Queued => 8
    case Reading => 7
    case Snapshotted(_) => 6
    case Ran(_, _, _) => 5
    case Approved(_, _, _) => 4
    case Writing(_, _, _) => 3
    case Settled(_) => 2
    case Leaving(_) => 1
    case AwaitingGuard => 4
    case Cloning => 3
    case Holding(_) => 2
    case Querying(_) => 1
    case Done(_) => 0
  }

  /** Steps a call can still take: its phases, and one cancellation while it has a caller. */
  function CallSteps(t: Task): nat {
    Rank(t.phase) + if t.detached then 0 else 1
  }

  function StepsLeft(tasks: seq<Task>): nat {
    if tasks == [] then 0 else StepsLeft(tasks[..|tasks| - 1]) + CallSteps(tasks[|tasks| - 1])
  }

  lemma {:induction false} StepsLeftUpdate(tasks: seq<Task>, i: nat, t: Task)
    requires i < |tasks|
    ensures StepsLeft(tasks[i := t]) == StepsLeft(tasks) - CallSteps(tasks[i]) + CallSteps(t)
  {
    var last := |tasks| - 1;
    if i < last {
      StepsLeftUpdate(tasks[..last], i, t);
      assert tasks[i := t][..last] == tasks[..last][i := t];
    } else {
      assert tasks[i := t][..last] == tasks[..last];
    }
  }

  lemma AdvanceLowersRank(policy: Policy, s: State, i: nat)
    requires CanAdvance(s, i)
    ensures i < |AdvanceTask(policy, s, i).tasks|
    ensures Rank(AdvanceTask(policy, s, i).tasks[i].phase) < Rank(s.tasks[i].phase)
  {
  }

  lemma AdvanceUsesAStep(policy: Policy, s: State, i: nat)
    requires CanAdvance(s, i)
    ensures StepsLeft(AdvanceTask(policy, s, i).tasks) < StepsLeft(s.tasks)
  {
    hide AdvanceTask, Rank;
    var s' := AdvanceTask(policy, s, i);
    AdvanceMovesOne(policy, s, i);
    AdvanceLowersRank(policy, s, i);
    StepsLeftUpdate(s.tasks, i, s'.tasks[i]);
  }

  lemma CancelUsesAStep(s: State, i: nat)
    requires CanCancel(s, i)
    ensures StepsLeft(CancelTask(s, i).tasks) < StepsLeft(s.tasks)
  {
    var s' := CancelTask(s, i);
    CancelFrame(s, i);
    StepsLeftUpdate(s.tasks, i, s'.tasks[i]);
  }

  ghost predicate NoNewCalls(labels: seq<Label>) {
    forall k | 0 <= k < |labels| :: labels[k].Advance? || labels[k].Cancel?
  }

  /** Without new calls nothing runs forever, whoever is cancelled: every continuation is bounded in length. */
  lemma {:induction false} ContinuationsAreBounded(policy: Policy, s: State, labels: seq<Label>, end: State)
    requires Run(policy, s, labels, end) && NoNewCalls(labels)
    ensures |labels| + StepsLeft(end.tasks) <= StepsLeft(s.tasks)
    decreases |labels|
  {
    hide StepsLeft, CanAdvance, CanCancel, AdvanceTask, CancelTask;
    if labels != [] {
      match labels[0] {
        case Advance(i) => AdvanceUsesAStep(policy, s, i);
        case Cancel(i) => CancelUsesAStep(s, i);
      }
      ContinuationsAreBounded(policy, Next(policy, s, labels[0]), labels[1..], end);
    }
  }

  /** A finished state has every permit, reference and guard back. */
  lemma AllReturned(s: State)
    requires Ledger(s) && Finished(s)
    ensures s.pool == WORKERS
    ensures forall g | 0 <= g < |s.gates| :: s.gates[g] == Gate(1, 0)
    ensures forall o | 0 <= o < |s.guards| :: s.guards[o] == Guard(0, false)
  {
    ChargedNone(s, PoolPermit);
    forall g | 0 <= g < |s.gates|
      ensures s.gates[g] == Gate(1, 0)
    {
      ChargedNone(s, GatePermit(g));
      ChargedNone(s, GateReference(g));
    }
    forall o | 0 <= o < |s.guards|
      ensures s.guards[o] == Guard(0, false)
    {
      ChargedNone(s, ReadGuard(o));
      ChargedNone(s, WriteGuard(o));
    }
  }

  // ---- grants in any order

  /** Whom a queue serves next, as a function of everything that has happened. */
  datatype Arbiter = Arbiter(head: (seq<Label>, State, Resource) -> nat)

  /** The head of a queue with waiters is one of them. */
  ghost predicate ServesWaiters(arbiter: Arbiter) {
    forall history, s: State, r, j | 0 <= j < |s.tasks| && WaitsFor(s.tasks[j]) == Some(r) ::
      arbiter.head(history, s, r) < |s.tasks| && WaitsFor(s.tasks[arbiter.head(history, s, r)]) == Some(r)
  }

  /** A step that grants something grants it to the head. */
  ghost predicate Served(arbiter: Arbiter, history: seq<Label>, s: State, l: Label) {
    l.Advance? && l.task < |s.tasks| && WaitsFor(s.tasks[l.task]).Some? ==>
      l.task == arbiter.head(history, s, WaitsFor(s.tasks[l.task]).value)
  }

  ghost predicate Obeys(arbiter: Arbiter, policy: Policy, history: seq<Label>, s: State, labels: seq<Label>)
    decreases |labels|
  {
    labels == [] ||
    (&& Enabled(s, labels[0]) && Served(arbiter, history, s, labels[0])
     && Obeys(arbiter, policy, history + [labels[0]], Next(policy, s, labels[0]), labels[1..]))
  }

  /** However queues are served, some step they allow is enabled. */
  lemma ServedAdvances(policy: Policy, initial: seq<Facade>, s: State, arbiter: Arbiter, history: seq<Label>)
    returns (i: nat)
    requires Inv(policy, initial, s) && !Finished(s) && ServesWaiters(arbiter)
    ensures CanAdvance(s, i) && Served(arbiter, history, s, Advance(i))
  {
    hide Inv, Shape, Finished, CanAdvance;
    i := SomeoneAdvances(policy, initial, s);
    AdvancerExists(s, i);
    if WaitsFor(s.tasks[i]).Some? {
      i := arbiter.head(history, s, WaitsFor(s.tasks[i]).value);
    }
  }

  lemma AdvancerExists(s: State, i: nat)
    requires CanAdvance(s, i)
    ensures i < |s.tasks|
  {
  }

  ghost predicate OnlyAdvances(labels: seq<Label>) {
    forall k | 0 <= k < |labels| :: labels[k].Advance?
  }

  lemma RunFrom(policy: Policy, s: State, l: Label, rest: seq<Label>, end: State, arbiter: Arbiter, history: seq<Label>)
    requires Enabled(s, l) && Run(policy, Next(policy, s, l), rest, end)
    requires Served(arbiter, history, s, l) && Obeys(arbiter, policy, history + [l], Next(policy, s, l), rest)
    ensures Run(policy, s, [l] + rest, end) && Obeys(arbiter, policy, history, s, [l] + rest)
  {
    hide Enabled, Next, Served;
    var labels := [l] + rest;
    assert labels[0] == l && labels[1..] == rest;
  }

  /**
   From every reachable state the calls in flight all finish, whoever was cancelled and
   however the queues of waiting calls are served, first in first out included.
   */
  lemma {:induction false} EveryRunDrains(
    policy: Policy, initial: seq<Facade>, s: State, arbiter: Arbiter, history: seq<Label>)
    returns (labels: seq<Label>, end: State)
    requires Inv(policy, initial, s) && ServesWaiters(arbiter)
    ensures Run(policy, s, labels, end) && OnlyAdvances(labels) && Obeys(arbiter, policy, history, s, labels)
    ensures Inv(policy, initial, end) && Finished(end)
    ensures end.pool == 4
    decreases StepsLeft(s.tasks)
  {
    hide Inv, Finished, CanAdvance, AdvanceTask, StepsLeft, Served, ServesWaiters;
    if Finished(s) {
      InvParts(policy, initial, s);
      labels, end := [], s;
      AllReturned(s);
    } else {
      var i := ServedAdvances(policy, initial, s, arbiter, history);
      AdvanceUsesAStep(policy, s, i);
      AdvanceInv(policy, initial, s, i);
      var rest;
      rest, end := EveryRunDrains(policy, initial, AdvanceTask(policy, s, i), arbiter, history + [Advance(i)]);
      RunFrom(policy, s, Advance(i), rest, end, arbiter, history);
      labels := [Advance(i)] + rest;
    }
  }

  // ---- mutations that publish nothing

  /** What makes the code refuse a finished body's snapshot. */
  predicate Refuses(policy: Policy, body: Body, base: Facade) {
    && base.workspace.Some?
    && body.run(base).workspace != base.workspace
    && !policy.admits(body.run(base).content, base.workspace.value)
  }

  /** A snapshot is not published exactly when its body left the boundary and the policy does not readmit it. */
  lemma RefusedIsUnpublished(policy: Policy, body: Body, base: Facade)
    ensures Refuses(policy, body, base) <==> policy.Publication(body, base).None?
  {
  }

  predicate IsRefused(p: Phase) {
    p == Settled(Refused)
  }

  /**
   In every reachable state a step refuses a mutation exactly when it ends the check of
   one whose body, run on the published value, left the boundary beyond what the policy
   admits; no other step does.
   */
  lemma RefusalIsExact(policy: Policy, initial: seq<Facade>, s: State, l: Label, i: nat)
    requires Inv(policy, initial, s) && Enabled(s, l) && i < |s.tasks| && !IsRefused(s.tasks[i].phase)
    ensures i < |Next(policy, s, l).tasks| && s.tasks[i].owner < |s.values|
    ensures IsRefused(Next(policy, s, l).tasks[i].phase) <==>
              && l == Advance(i) && s.tasks[i].phase.Ran? && s.tasks[i].call.Mutate?
              && Refuses(policy, s.tasks[i].call.body, s.values[s.tasks[i].owner])
  {
    hide Inv, Shape, Ledger, History, Current, CanAdvance, CanCancel, AdvanceTask, CancelTask, Refuses;
    InvParts(policy, initial, s);
    match l
    case Advance(j) =>
      AdvancerExists(s, j);
      AdvanceMovesOne(policy, s, j);
      if j == i {
        AdvanceRefuses(policy, s, i);
      }
    case Cancel(j) =>
      CancelFrame(s, j);
    case _ =>
  }

  lemma AdvanceRefuses(policy: Policy, s: State, i: nat)
    requires CanAdvance(s, i) && s.tasks[i].owner < |s.values| && Current(policy, s, s.tasks[i])
    requires !IsRefused(s.tasks[i].phase)
    ensures i < |AdvanceTask(policy, s, i).tasks|
    ensures IsRefused(AdvanceTask(policy, s, i).tasks[i].phase) <==>
              && s.tasks[i].phase.Ran? && s.tasks[i].call.Mutate?
              && Refuses(policy, s.tasks[i].call.body, s.values[s.tasks[i].owner])
  {
  }

  lemma {:induction false} RunConcat(
    policy: Policy, s: State, a: seq<Label>, middle: State, b: seq<Label>, end: State)
    requires Run(policy, s, a, middle) && Run(policy, middle, b, end)
    ensures Run(policy, s, a + b, end)
    decreases |a|
  {
    hide Enabled, Next;
    if a == [] {
      assert a + b == b;
    } else {
      RunConcat(policy, Next(policy, s, a[0]), a[1..], middle, b, end);
      assert (a + b)[0] == a[0] && (a + b)[1..] == a[1..] + b;
    }
  }

  lemma RunThree(policy: Policy, s0: State, l0: Label, s1: State, l1: Label, s2: State, l2: Label, s3: State)
    requires Enabled(s0, l0) && Next(policy, s0, l0) == s1
    requires Enabled(s1, l1) && Next(policy, s1, l1) == s2
    requires Enabled(s2, l2) && Next(policy, s2, l2) == s3
    ensures Run(policy, s0, [l0, l1, l2], s3)
  {
    hide Enabled, Next;
    assert [l0, l1, l2][1..] == [l1, l2] && [l1, l2][1..] == [l2] && [l2][1..] == [];
    assert Run(policy, s3, [], s3);
    assert Run(policy, s2, [l2], s3);
    assert Run(policy, s1, [l1, l2], s3);
  }

  /** The state of one owner with one mutation. */
  function Lone(v: Facade, body: Body, phase: Phase, gate: Gate, pool: nat, readers: nat): State {
    State([Task(0, Mutate(body), 0, phase, false)], [gate], map[0 := 0], pool, [Guard(readers, false)], [v], [[]])
  }

  lemma LoneEnters(policy: Policy, v: Facade, body: Body)
    ensures Run(policy, Start([v]), [CallMutate(0, body), Advance(0), Advance(0)],
                Lone(v, body, Queued, Gate(0, 1), 3, 0))
  {
    var s1, s2 := Lone(v, body, AwaitingGate, Gate(1, 1), 4, 0), Lone(v, body, AwaitingPool, Gate(0, 1), 4, 0);
    assert Next(policy, Start([v]), CallMutate(0, body)) == s1;
    assert AdvanceTask(policy, s1, 0) == s2;
    assert AdvanceTask(policy, s2, 0) == Lone(v, body, Queued, Gate(0, 1), 3, 0);
    RunThree(policy, Start([v]), CallMutate(0, body), s1, Advance(0), s2, Advance(0),
             Lone(v, body, Queued, Gate(0, 1), 3, 0));
  }

  lemma LoneRuns(policy: Policy, v: Facade, body: Body)
    ensures Run(policy, Lone(v, body, Queued, Gate(0, 1), 3, 0), [Advance(0), Advance(0), Advance(0)],
                Lone(v, body, Ran(v, body.run(v), body.panics(v)), Gate(0, 1), 3, 0))
  {
    var s0, s1 := Lone(v, body, Queued, Gate(0, 1), 3, 0), Lone(v, body, Reading, Gate(0, 1), 3, 1);
    var s2 := Lone(v, body, Snapshotted(v), Gate(0, 1), 3, 0);
    var s3 := Lone(v, body, Ran(v, body.run(v), body.panics(v)), Gate(0, 1), 3, 0);
    assert AdvanceTask(policy, s0, 0) == s1;
    assert AdvanceTask(policy, s1, 0) == s2;
    assert AdvanceTask(policy, s2, 0) == s3;
    RunThree(policy, s0, Advance(0), s1, Advance(0), s2, Advance(0), s3);
  }

  lemma LoneLeaves(policy: Policy, v: Facade, body: Body)
    requires Refuses(policy, body, v)
    ensures Run(policy, Lone(v, body, Ran(v, body.run(v), body.panics(v)), Gate(0, 1), 3, 0),
                [Advance(0), Advance(0), Advance(0)], Lone(v, body, Done(Refused), Gate(1, 0), 4, 0))
  {
    var s0 := Lone(v, body, Ran(v, body.run(v), body.panics(v)), Gate(0, 1), 3, 0);
    var s1, s2 := Lone(v, body, Settled(Refused), Gate(0, 1), 3, 0), Lone(v, body, Leaving(Refused), Gate(1, 0), 3, 0);
    assert AdvanceTask(policy, s0, 0) == s1;
    assert AdvanceTask(policy, s1, 0) == s2;
    assert AdvanceTask(policy, s2, 0) == Lone(v, body, Done(Refused), Gate(1, 0), 4, 0);
    RunThree(policy, s0, Advance(0), s1, Advance(0), s2, Advance(0), Lone(v, body, Done(Refused), Gate(1, 0), 4, 0));
  }

  /** A body the check refuses runs to its end and leaves value, log and every permit as they were. */
  lemma RefusedRun(policy: Policy, v: Facade, body: Body) returns (labels: seq<Label>, end: State)
    requires Refuses(policy, body, v)
    ensures Reachable(policy, [v], labels, end)
    ensures end.tasks == [Task(0, Mutate(body), 0, Done(Refused), false)]
    ensures end.values == [v] && end.log == [[]] && end.pool == WORKERS
  {
    LoneEnters(policy, v, body);
    LoneRuns(policy, v, body);
    LoneLeaves(policy, v, body);
    hide Run;
    end := Lone(v, body, Done(Refused), Gate(1, 0), 4, 0);
    var run, leave := [Advance(0), Advance(0), Advance(0)], [Advance(0), Advance(0), Advance(0)];
    RunConcat(policy, Lone(v, body, Queued, Gate(0, 1), 3, 0), run,
              Lone(v, body, Ran(v, body.run(v), body.panics(v)), Gate(0, 1), 3, 0), leave, end);
    labels := [CallMutate(0, body), Advance(0), Advance(0)] + (run + leave);
    RunConcat(policy, Start([v]), [CallMutate(0, body), Advance(0), Advance(0)],
              Lone(v, body, Queued, Gate(0, 1), 3, 0), run + leave, end);
  }

  /** One such body: it replaces the facade by one without a boundary, under a policy that admits nothing. */
  lemma RefusalHappens() returns (labels: seq<Label>, end: State)
    ensures var policy := Policy((content, root) => false);
            var v := Facade(Some("workspace"), "indexed");
            var body := Body(f => Facade(None, "replaced"), f => false);
            && Reachable(policy, [v], labels, end)
            && end.tasks == [Task(0, Mutate(body), 0, Done(Refused), false)]
            && body.run(v) != v && end.values == [v] && end.log == [[]]
  {
    labels, end := RefusedRun(
      Policy((content, root) => false), Facade(Some("workspace"), "indexed"),
      Body(f => Facade(None, "replaced"), f => false));
  }

  // ---- what callers are told and readers are given

  /** The outcome a finished call is to report. */
  function OutcomeOf(p: Phase): Option<Outcome> {
    match p
    case Settled(outcome) => Some(outcome)
    case Leaving(outcome) => Some(outcome)
    case Done(outcome) => Some(outcome)
    case _ => None
  }

  /** Every publication is reported as its body ended when run on what was published before. */
  ghost predicate Reports(policy: Policy, tasks: seq<Task>, initial: Facade, log: seq<nat>) {
    log == [] ||
    var front, i := log[..|log| - 1], log[|log| - 1];
    var before := Replay(policy, tasks, initial, front);
    && Reports(policy, tasks, initial, front)
    && before.Some? && i < |tasks| && tasks[i].call.Mutate?
    && OutcomeOf(tasks[i].phase) == Some(if tasks[i].call.body.panics(before.value) then Panicked else Returned)
  }

  /** A value that was published at some time: the replay of a prefix of the log. */
  ghost predicate WasPublished(policy: Policy, tasks: seq<Task>, initial: Facade, log: seq<nat>, f: Facade) {
    || Replay(policy, tasks, initial, log) == Some(f)
    || (log != [] && WasPublished(policy, tasks, initial, log[..|log| - 1], f))
  }

  /** A read works on a published value, and what ran is reported as it ended. */
  ghost predicate ReadsTruly(policy: Policy, tasks: seq<Task>, initial: Facade, log: seq<nat>, t: Task) {
    match t.phase
    case Holding(f) => WasPublished(policy, tasks, initial, log, f)
    case Querying(f) => WasPublished(policy, tasks, initial, log, f)
    case Leaving(_) => t.call.Mutate?
    case Done(outcome) =>
      t.call.Read? && outcome != Cancelled ==> outcome == if t.call.panics then Panicked else Returned
    case _ => true
  }

  /** Callers and readers of every owner are served the truth. */
  ghost predicate Tells(policy: Policy, initial: seq<Facade>, s: State) {
    && |initial| == |s.log| == |s.values|
    && (forall o | 0 <= o < |initial| :: Reports(policy, s.tasks, initial[o], s.log[o]))
    && (forall i | 0 <= i < |s.tasks| ::
          && s.tasks[i].owner < |initial|
          && ReadsTruly(policy, s.tasks, initial[s.tasks[i].owner], s.log[s.tasks[i].owner], s.tasks[i]))
  }

  lemma {:induction false} ReportsStable(
    policy: Policy, tasks: seq<Task>, tasks': seq<Task>, initial: Facade, log: seq<nat>)
    requires Reports(policy, tasks, initial, log)
    requires forall i | i in log ::
               && i < |tasks| && i < |tasks'| && tasks[i].call == tasks'[i].call
               && (OutcomeOf(tasks[i].phase).Some? ==> OutcomeOf(tasks'[i].phase) == OutcomeOf(tasks[i].phase))
    ensures Reports(policy, tasks', initial, log)
  {
    hide OutcomeOf, Replay;
    if log != [] {
      ReportsStable(policy, tasks, tasks', initial, log[..|log| - 1]);
      ReplayStable(policy, tasks, tasks', initial, log[..|log| - 1]);
    }
  }

  lemma {:induction false} WasPublishedStable(
    policy: Policy, tasks: seq<Task>, tasks': seq<Task>, initial: Facade, log: seq<nat>, f: Facade)
    requires forall i | i in log :: i < |tasks| && i < |tasks'| && tasks[i].call == tasks'[i].call
    ensures WasPublished(policy, tasks, initial, log, f) <==> WasPublished(policy, tasks', initial, log, f)
  {
    hide Replay;
    ReplayStable(policy, tasks, tasks', initial, log);
    if log != [] {
      WasPublishedStable(policy, tasks, tasks', initial, log[..|log| - 1], f);
    }
  }

  /** What any step keeps about the tasks there are. */
  ghost predicate KeepsTasks(s: State, s': State) {
    && |s.tasks| <= |s'.tasks|
    && forall i | 0 <= i < |s.tasks| ::
         && s'.tasks[i].call == s.tasks[i].call && s'.tasks[i].owner == s.tasks[i].owner
         && (OutcomeOf(s.tasks[i].phase).Some? ==> OutcomeOf(s'.tasks[i].phase) == OutcomeOf(s.tasks[i].phase))
  }

  lemma AdvanceKeepsOutcome(policy: Policy, s: State, i: nat)
    requires CanAdvance(s, i)
    ensures i < |AdvanceTask(policy, s, i).tasks|
    ensures OutcomeOf(s.tasks[i].phase).Some? ==>
              OutcomeOf(AdvanceTask(policy, s, i).tasks[i].phase) == OutcomeOf(s.tasks[i].phase)
  {
  }

  lemma CancelKeepsOutcome(s: State, i: nat)
    requires CanCancel(s, i)
    ensures i < |s.tasks| && i < |CancelTask(s, i).tasks|
    ensures OutcomeOf(s.tasks[i].phase).Some? ==>
              OutcomeOf(CancelTask(s, i).tasks[i].phase) == OutcomeOf(s.tasks[i].phase)
  {
  }

  lemma NextKeepsTasks(policy: Policy, s: State, l: Label)
    requires Enabled(s, l)
    ensures KeepsTasks(s, Next(policy, s, l))
  {
    hide AdvanceTask, CancelTask, CanAdvance, CanCancel, OutcomeOf, OpenGate;
    match l
    case Advance(i) =>
      AdvancerExists(s, i);
      AdvanceMovesOne(policy, s, i);
      AdvanceKeepsOutcome(policy, s, i);
    case Cancel(i) =>
      CancelKeepsOutcome(s, i);
      CancelFrame(s, i);
    case _ =>
  }

  /** What was published in `s` was published in `s'`, and the reports of `s'` are true. */
  ghost predicate LogContinues(policy: Policy, s: State, s': State, initial: Facade, o: nat)
    requires o < |s.log| && o < |s'.log|
  {
    && Reports(policy, s'.tasks, initial, s'.log[o])
    && forall f | WasPublished(policy, s.tasks, initial, s.log[o], f) ::
         WasPublished(policy, s'.tasks, initial, s'.log[o], f)
  }

  lemma LogStays(policy: Policy, s: State, s': State, initial: Facade, o: nat)
    requires o < |s.log| && o < |s'.log| && s'.log[o] == s.log[o]
    requires LogExact(s, o) && KeepsTasks(s, s') && Reports(policy, s.tasks, initial, s.log[o])
    ensures LogContinues(policy, s, s', initial, o)
    ensures Replay(policy, s'.tasks, initial, s.log[o]) == Replay(policy, s.tasks, initial, s.log[o])
  {
    hide Reports, WasPublished, OutcomeOf, HasPublished, Replay;
    ReportsStable(policy, s.tasks, s'.tasks, initial, s.log[o]);
    ReplayStable(policy, s.tasks, s'.tasks, initial, s.log[o]);
    forall f | WasPublished(policy, s.tasks, initial, s.log[o], f)
      ensures WasPublished(policy, s'.tasks, initial, s.log[o], f)
    {
      WasPublishedStable(policy, s.tasks, s'.tasks, initial, s.log[o], f);
    }
  }

  /** A publication adds one report, and hides nothing published before. */
  lemma LogTellsMore(policy: Policy, tasks: seq<Task>, initial: Facade, log: seq<nat>, i: nat, base: Facade)
    requires Reports(policy, tasks, initial, log) && Replay(policy, tasks, initial, log) == Some(base)
    requires i < |tasks| && tasks[i].call.Mutate?
    requires OutcomeOf(tasks[i].phase) == Some(if tasks[i].call.body.panics(base) then Panicked else Returned)
    ensures Reports(policy, tasks, initial, log + [i])
    ensures forall f | WasPublished(policy, tasks, initial, log, f) ::
              WasPublished(policy, tasks, initial, log + [i], f)
  {
    hide OutcomeOf, Replay;
    assert (log + [i])[..|log|] == log;
  }

  /** The step that publishes tells how its body ended. */
  lemma PublisherTells(policy: Policy, s: State, i: nat)
    requires CanAdvance(s, i) && s.tasks[i].phase.Writing?
    ensures i < |AdvanceTask(policy, s, i).tasks|
    ensures OutcomeOf(AdvanceTask(policy, s, i).tasks[i].phase) ==
            Some(if s.tasks[i].phase.panicked then Panicked else Returned)
  {
  }

  lemma LogPublishes(policy: Policy, initial: seq<Facade>, s: State, i: nat)
    requires Inv(policy, initial, s) && Tells(policy, initial, s) && CanAdvance(s, i) && s.tasks[i].phase.Writing?
    ensures var s' := AdvanceTask(policy, s, i);
            var o := s.tasks[i].owner;
            o < |s.log| && o < |s'.log| && LogContinues(policy, s, s', initial[o], o)
  {
    var s', o := AdvanceTask(policy, s, i), s.tasks[i].owner;
    assert Current(policy, s, s.tasks[i]) && LogExact(s, o);
    hide AdvanceTask, CanAdvance, OutcomeOf, Replay, Reports, WasPublished, LogExact, Ledger, Shape;
    NextKeepsTasks(policy, s, Advance(i));
    AdvanceMovesOne(policy, s, i);
    AdvanceWrites(policy, s, i);
    PublisherTells(policy, s, i);
    LogStays(policy, s, s'.(log := s.log), initial[o], o);
    LogTellsMore(policy, s'.tasks, initial[o], s.log[o], i, s.values[o]);
  }

  /** Every owner's log goes on truthfully over any step. */
  lemma LogsContinue(policy: Policy, initial: seq<Facade>, s: State, l: Label, o: nat)
    requires Inv(policy, initial, s) && Tells(policy, initial, s) && Enabled(s, l) && o < |initial|
    ensures var s' := Next(policy, s, l);
            o < |s'.log| && LogContinues(policy, s, s', initial[o], o)
  {
    var s' := Next(policy, s, l);
    assert LogExact(s, o);
    hide AdvanceTask, CancelTask, CanAdvance, CanCancel, OpenGate, LogContinues, Reports, Replay, LogExact, Inv;
    NextKeepsTasks(policy, s, l);
    match l
    case Advance(i) =>
      AdvancerExists(s, i);
      AdvanceWrites(policy, s, i);
      AdvanceKeepsSizes(policy, s, i);
      if s.tasks[i].phase.Writing? && s.tasks[i].owner == o {
        LogPublishes(policy, initial, s, i);
      } else {
        LogStays(policy, s, s', initial[o], o);
      }
    case Cancel(i) =>
      CancelFrame(s, i);
      LogStays(policy, s, s', initial[o], o);
    case _ =>
      LogStays(policy, s, s', initial[o], o);
  }

  /** A clone takes the published value, and a query works on what was cloned. */
  lemma ReaderGets(policy: Policy, s: State, i: nat)
    requires CanAdvance(s, i) && i < |AdvanceTask(policy, s, i).tasks|
    ensures var p, p' := s.tasks[i].phase, AdvanceTask(policy, s, i).tasks[i].phase;
            && (p'.Holding? ==> p.Cloning? && p'.snapshot == s.values[s.tasks[i].owner])
            && (p'.Querying? ==> p == Holding(p'.snapshot))
  {
  }

  /** A query that ends is reported as it ended. */
  lemma ReaderEnds(policy: Policy, s: State, i: nat)
    requires CanAdvance(s, i) && i < |AdvanceTask(policy, s, i).tasks|
    ensures var p, p' := s.tasks[i].phase, AdvanceTask(policy, s, i).tasks[i].phase;
            && (p'.Leaving? ==> p.Settled?)
            && (p'.Done? ==> p.Leaving? || p.Querying?)
            && (p'.Done? && p.Querying? && s.tasks[i].call.Read? ==>
                  p'.outcome == if s.tasks[i].call.panics then Panicked else Returned)
  {
  }

  lemma MovedTells(policy: Policy, initial: seq<Facade>, s: State, i: nat)
    requires Inv(policy, initial, s) && Tells(policy, initial, s) && CanAdvance(s, i)
    requires var s' := AdvanceTask(policy, s, i);
             var o := s.tasks[i].owner;
             o < |s.log| && o < |s'.log| && o < |initial| && LogContinues(policy, s, s', initial[o], o)
    ensures var s' := AdvanceTask(policy, s, i);
            var o := s.tasks[i].owner;
            i < |s'.tasks| && ReadsTruly(policy, s'.tasks, initial[o], s'.log[o], s'.tasks[i])
  {
    assert TaskShape(s, s.tasks[i]);
    var o := s.tasks[i].owner;
    assert ReadsTruly(policy, s.tasks, initial[o], s.log[o], s.tasks[i]);
    assert Replay(policy, s.tasks, initial[o], s.log[o]) == Some(s.values[o]);
    hide AdvanceTask, CanAdvance, Replay, Reports, Ledger, Shape, TaskShape;
    AdvanceMovesOne(policy, s, i);
    ReaderGets(policy, s, i);
    ReaderEnds(policy, s, i);
  }

  /** A task that does not move is served as before. */
  lemma UnmovedTells(policy: Policy, s: State, s': State, initial: Facade, o: nat, t: Task)
    requires o < |s.log| && o < |s'.log| && LogContinues(policy, s, s', initial, o)
    requires ReadsTruly(policy, s.tasks, initial, s.log[o], t)
    ensures ReadsTruly(policy, s'.tasks, initial, s'.log[o], t)
  {
    hide Reports, WasPublished;
  }

  lemma NextTells(policy: Policy, initial: seq<Facade>, s: State, l: Label)
    requires Inv(policy, initial, s) && Tells(policy, initial, s) && Enabled(s, l)
    ensures Tells(policy, initial, Next(policy, s, l))
  {
    hide Reports, WasPublished, LogContinues, AdvanceTask, CancelTask, CanAdvance, CanCancel, OpenGate, Inv, OutcomeOf,
         ReadsTruly;
    var s' := Next(policy, s, l);
    NextInv(policy, initial, s, l);
    InvParts(policy, initial, s');
    forall o | 0 <= o < |initial|
      ensures Reports(policy, s'.tasks, initial[o], s'.log[o])
    {
      LogsContinue(policy, initial, s, l, o);
      ContinuedReports(policy, s, s', initial[o], o);
    }
    forall j | 0 <= j < |s'.tasks|
      ensures ReadsTruly(policy, s'.tasks, initial[s'.tasks[j].owner], s'.log[s'.tasks[j].owner], s'.tasks[j])
    {
      TaskTells(policy, initial, s, l, j);
    }
  }

  lemma ContinuedReports(policy: Policy, s: State, s': State, initial: Facade, o: nat)
    requires o < |s.log| && o < |s'.log| && LogContinues(policy, s, s', initial, o)
    ensures Reports(policy, s'.tasks, initial, s'.log[o])
  {
  }

  lemma TaskTells(policy: Policy, initial: seq<Facade>, s: State, l: Label, j: nat)
    requires Inv(policy, initial, s) && Tells(policy, initial, s) && Enabled(s, l)
    requires var s' := Next(policy, s, l);
             j < |s'.tasks| && s'.tasks[j].owner < |initial| && |s'.log| == |initial|
    ensures var s' := Next(policy, s, l);
            var o := s'.tasks[j].owner;
            ReadsTruly(policy, s'.tasks, initial[o], s'.log[o], s'.tasks[j])
  {
    hide Reports, WasPublished, LogContinues, AdvanceTask, CancelTask, CanAdvance, CanCancel, OpenGate, Inv, OutcomeOf;
    var s' := Next(policy, s, l);
    var o := s'.tasks[j].owner;
    LogsContinue(policy, initial, s, l, o);
    match l
    case Advance(i) =>
      AdvancerExists(s, i);
      AdvanceMovesOne(policy, s, i);
      if i == j {
        MovedTells(policy, initial, s, i);
      } else {
        UnmovedTells(policy, s, s', initial[o], o, s.tasks[j]);
      }
    case Cancel(i) =>
      CancelFrame(s, i);
      UnmovedTells(policy, s, s', initial[o], o, s.tasks[j]);
    case _ =>
      if j < |s.tasks| {
        UnmovedTells(policy, s, s', initial[o], o, s.tasks[j]);
      }
  }

  lemma {:induction false} RunTells(policy: Policy, initial: seq<Facade>, s: State, labels: seq<Label>, end: State)
    requires Inv(policy, initial, s) && Tells(policy, initial, s) && Run(policy, s, labels, end)
    ensures Tells(policy, initial, end)
    decreases |labels|
  {
    hide Inv, Tells, Enabled, Next;
    if labels != [] {
      NextInv(policy, initial, s, labels[0]);
      NextTells(policy, initial, s, labels[0]);
      RunTells(policy, initial, Next(policy, s, labels[0]), labels[1..], end);
    }
  }

  lemma {:induction false} ReportedAt(policy: Policy, tasks: seq<Task>, initial: Facade, log: seq<nat>, k: nat)
    requires Reports(policy, tasks, initial, log) && k < |log|
    ensures var before := Replay(policy, tasks, initial, log[..k]);
            && before.Some? && log[k] < |tasks| && tasks[log[k]].call.Mutate?
            && OutcomeOf(tasks[log[k]].phase) ==
               Some(if tasks[log[k]].call.body.panics(before.value) then Panicked else Returned)
  {
    hide OutcomeOf, Replay;
    if k < |log| - 1 {
      ReportedAt(policy, tasks, initial, log[..|log| - 1], k);
      assert log[..|log| - 1][..k] == log[..k];
    }
  }

  lemma {:induction false} PublishedIsReplay(
    policy: Policy, tasks: seq<Task>, initial: Facade, log: seq<nat>, f: Facade) returns (k: nat)
    requires WasPublished(policy, tasks, initial, log, f)
    ensures k <= |log| && Replay(policy, tasks, initial, log[..k]) == Some(f)
  {
    hide Replay;
    k := |log|;
    assert log[..|log|] == log;
    if Replay(policy, tasks, initial, log) != Some(f) {
      k := PublishedIsReplay(policy, tasks, initial, log[..|log| - 1], f);
      assert log[..|log| - 1][..k] == log[..k];
    }
  }

  lemma ReachableTells(policy: Policy, values: seq<Facade>, labels: seq<Label>, s: State)
    requires Reachable(policy, values, labels, s)
    ensures Inv(policy, values, s) && Tells(policy, values, s)
  {
    hide Inv, Run;
    StartInv(policy, values);
    StartTells(policy, values);
    RunInv(policy, values, Start(values), labels, s);
    RunTells(policy, values, Start(values), labels, s);
  }

  lemma StartTells(policy: Policy, values: seq<Facade>)
    ensures Tells(policy, values, Start(values))
  {
  }

  /**
   A finished mutation is reported to its caller as its body ended: it panicked exactly
   when the body panics on the value published just before. Cancellation changes nothing.
   */
  lemma MutationsReportTruly(policy: Policy, values: seq<Facade>, labels: seq<Label>, s: State)
    requires Reachable(policy, values, labels, s)
    ensures |s.log| == |values|
    ensures forall o, k | 0 <= o < |values| && 0 <= k < |s.log[o]| ::
              var i, base := s.log[o][k], Replay(policy, s.tasks, values[o], s.log[o][..k]);
              && base.Some? && i < |s.tasks| && s.tasks[i].call.Mutate?
              && OutcomeOf(s.tasks[i].phase) ==
                 Some(if s.tasks[i].call.body.panics(base.value) then Panicked else Returned)
  {
    hide OutcomeOf, Replay, Run, Reports, Inv;
    ReachableTells(policy, values, labels, s);
    forall o, k | 0 <= o < |values| && 0 <= k < |s.log[o]|
      ensures var i, base := s.log[o][k], Replay(policy, s.tasks, values[o], s.log[o][..k]);
              && base.Some? && i < |s.tasks| && s.tasks[i].call.Mutate?
              && OutcomeOf(s.tasks[i].phase) ==
                 Some(if s.tasks[i].call.body.panics(base.value) then Panicked else Returned)
    {
      ReportedAt(policy, s.tasks, values[o], s.log[o], k);
    }
  }

  /** A read that ran ends as its query ended, and queries a value that was published. */
  lemma ReadsAreTrue(policy: Policy, values: seq<Facade>, labels: seq<Label>, s: State, i: nat)
    requires Reachable(policy, values, labels, s) && i < |s.tasks| && s.tasks[i].call.Read?
    ensures s.tasks[i].owner < |values| == |s.log|
    ensures forall outcome | s.tasks[i].phase == Done(outcome) && outcome != Cancelled ::
              outcome == if s.tasks[i].call.panics then Panicked else Returned
    ensures forall f | s.tasks[i].phase == Holding(f) || s.tasks[i].phase == Querying(f) ::
              exists k: nat ::
                k <= |s.log[s.tasks[i].owner]| &&
                Replay(policy, s.tasks, values[s.tasks[i].owner], s.log[s.tasks[i].owner][..k]) == Some(f)
  {
    hide Replay, Run, Reports, WasPublished, Inv;
    ReachableTells(policy, values, labels, s);
    var o := s.tasks[i].owner;
    assert ReadsTruly(policy, s.tasks, values[o], s.log[o], s.tasks[i]);
    if s.tasks[i].phase.Holding? || s.tasks[i].phase.Querying? {
      var k := PublishedIsReplay(policy, s.tasks, values[o], s.log[o], s.tasks[i].phase.snapshot);
    }
  }

  // ---- exclusion

  lemma AdvanceExcludes(policy: Policy, s: State, i: nat)
    requires CanAdvance(s, i)
    requires forall o | 0 <= o < |s.guards| :: s.guards[o].writer ==> s.guards[o].readers == 0
    ensures var s' := AdvanceTask(policy, s, i);
            forall o | 0 <= o < |s'.guards| :: s'.guards[o].writer ==> s'.guards[o].readers == 0
  {
  }

  lemma {:induction false} RunExcludes(policy: Policy, s: State, labels: seq<Label>, end: State)
    requires Run(policy, s, labels, end)
    requires forall o | 0 <= o < |s.guards| :: s.guards[o].writer ==> s.guards[o].readers == 0
    ensures forall o | 0 <= o < |end.guards| :: end.guards[o].writer ==> end.guards[o].readers == 0
    decreases |labels|
  {
    hide AdvanceTask, CancelTask, CanAdvance, CanCancel, OpenGate;
    if labels != [] {
      match labels[0] {
        case Advance(i) => AdvanceExcludes(policy, s, i);
        case Cancel(i) => CancelFrame(s, i);
        case _ =>
      }
      RunExcludes(policy, Next(policy, s, labels[0]), labels[1..], end);
    }
  }

  /** Nobody clones an owner's value while another replaces it. */
  lemma PublicationsExcludeReaders(policy: Policy, values: seq<Facade>, labels: seq<Label>, s: State, i: nat, j: nat)
    requires Reachable(policy, values, labels, s) && i < |s.tasks| && j < |s.tasks|
    requires s.tasks[i].owner == s.tasks[j].owner && s.tasks[i].phase.Writing?
    ensures !s.tasks[j].phase.Reading? && !s.tasks[j].phase.Cloning?
    ensures s.tasks[j].phase.Writing? ==> i == j
  {
    ReachableInv(policy, values, labels, s);
    RunExcludes(policy, Start(values), labels, s);
    assert TaskShape(s, s.tasks[i]);
    hide Inv, Run, Current, History;
    var o := s.tasks[i].owner;
    WritersExclude(s, o, i, j);
  }

  lemma WritersExclude(s: State, o: nat, i: nat, j: nat)
    requires Shape(s) && Ledger(s) && i < |s.tasks| && j < |s.tasks| && o < |s.guards|
    requires s.guards[o].writer ==> s.guards[o].readers == 0
    requires s.tasks[i].owner == o && s.tasks[j].owner == o && s.tasks[i].phase.Writing?
    ensures !s.tasks[j].phase.Reading? && !s.tasks[j].phase.Cloning?
    ensures s.tasks[j].phase.Writing? ==> i == j
  {
    ChargedOwner(s, WriteGuard(o), i);
    if s.tasks[j].phase.Reading? || s.tasks[j].phase.Cloning? {
      ChargedOwner(s, ReadGuard(o), j);
    }
    if s.tasks[j].phase.Writing? && i != j {
      assert Charged(s, WriteGuard(o)) == Count(s.tasks, WriteGuard(o));
      CountOwners(s.tasks, WriteGuard(o), if i < j then i else j, if i < j then j else i);
    }
  }

  // ---- calls

  /** The calls made along a run, in order. */
  function CallsOf(labels: seq<Label>): seq<(nat, Call)> {
    if labels == [] then []
    else
      (match labels[0]
       case CallMutate(owner, body) => [(owner, Mutate(body))]
       case CallRead(owner, panics) => [(owner, Read(panics))]
       case _ => []) + CallsOf(labels[1..])
  }

  function TaskCalls(tasks: seq<Task>): seq<(nat, Call)> {
    seq(|tasks|, i requires 0 <= i < |tasks| => (tasks[i].owner, tasks[i].call))
  }

  lemma NextCalls(policy: Policy, s: State, l: Label)
    requires Enabled(s, l)
    ensures TaskCalls(Next(policy, s, l).tasks) == TaskCalls(s.tasks) + CallsOf([l])
  {
    hide AdvanceTask, CancelTask, CanAdvance, CanCancel, OpenGate;
    assert [l][1..] == [] && CallsOf([]) == [];
    match l
    case Advance(i) =>
      AdvancerExists(s, i);
      AdvanceMovesOne(policy, s, i);
    case Cancel(i) =>
      CancelKeepsOutcome(s, i);
      CancelFrame(s, i);
    case _ =>
  }

  /** The tasks of a run are the calls made, each for its owner and with its body, in order. */
  lemma {:induction false} TasksAreCalls(policy: Policy, s: State, labels: seq<Label>, end: State)
    requires Run(policy, s, labels, end)
    ensures TaskCalls(end.tasks) == TaskCalls(s.tasks) + CallsOf(labels)
    decreases |labels|
  {
    hide Enabled, Next;
    if labels != [] {
      NextCalls(policy, s, labels[0]);
      TasksAreCalls(policy, Next(policy, s, labels[0]), labels[1..], end);
      assert [labels[0]][1..] == [] && CallsOf([]) == [];
    }
  }

  // ---- what a body publishes

  /** A publication is what the body left, inside the boundary the owner had. */
  lemma PublicationIsTheBodys(policy: Policy, body: Body, base: Facade)
    requires policy.Publication(body, base).Some?
    ensures var p := policy.Publication(body, base).value;
            && p.content == body.run(base).content
            && p.workspace == if base.workspace.Some? then base.workspace else body.run(base).workspace
  {
  }
}
