/** The directory cell: immutable snapshots, published latest-wins under one revision counter. */
module DirectoryModel {
  import opened Prelude
  import opened Service

  datatype DirectoryState = Initializing | Ready | Stale | Unavailable | Closed

  datatype Instance = Instance(id: Text, endpoint: Text)

  datatype Snapshot = Snapshot(revision: nat, observedAt: nat, state: DirectoryState, instances: seq<Instance>)

  datatype DirectoryError = LifecycleManaged | RevisionOverflow

  function Initial(now: nat): Snapshot {
    Snapshot(0, now, Initializing, [])
  }

  /** What a publication puts in the cell, or why it is refused; a state-only publication keeps the instances. */
  function Publish(cell: Snapshot, state: DirectoryState, instances: Option<seq<Instance>>, now: nat)
    : Result<Snapshot, DirectoryError>
  {
    if state.Initializing? || state.Closed? then Err(LifecycleManaged)
    else if cell.revision >= U64_MAX then Err(RevisionOverflow)
    else Ok(Snapshot(cell.revision + 1, now, state, if instances.Some? then instances.value else cell.instances))
  }

  /** What the last publisher leaves behind. */
  function Close(cell: Snapshot, now: nat): Snapshot {
    if cell.revision >= U64_MAX then cell else Snapshot(cell.revision + 1, now, Closed, cell.instances)
  }

  // ---------------------------------------------------------------------------------------------
  // Histories of one directory

  datatype Op = PublishOp(state: DirectoryState, instances: Option<seq<Instance>>, now: nat) | CloneOp | DropOp(now: nat)

  /** `holders` counts the publisher handles; nobody can publish once there are none. */
  datatype Cell = Cell(snapshot: Snapshot, holders: nat)

  function Apply(c: Cell, op: Op): Cell {
    if c.holders == 0 then c
    else match op
      case PublishOp(state, instances, now) =>
        var published := Publish(c.snapshot, state, instances, now);
        if published.Ok? then c.(snapshot := published.value) else c
      case CloneOp => c.(holders := c.holders + 1)
      case DropOp(now) =>
        Cell(if c.holders == 1 then Close(c.snapshot, now) else c.snapshot, c.holders - 1)
  }

  function Run(now: nat, ops: seq<Op>): Cell {
    if ops == [] then Cell(Initial(now), 1) else Apply(Run(now, ops[..|ops| - 1]), ops[|ops| - 1])
  }

  /** Publishing states are never the lifecycle-managed ones, and every handle gone means closed. */
  lemma {:induction false} RunShape(now: nat, ops: seq<Op>)
    requires |ops| <= U64_MAX
    ensures var c := Run(now, ops);
            && c.snapshot.revision <= |ops|
            && (c.snapshot.state.Closed? <==> c.holders == 0)
            && (c.snapshot.state.Initializing? <==> c.snapshot.revision == 0)
  {
    if ops != [] { RunShape(now, ops[..|ops| - 1]); }
  }

  /** A later snapshot has a larger revision: equal revisions mean the reader saw the very same snapshot. */
  lemma {:induction false} RevisionIdentifiesSnapshot(now: nat, ops: seq<Op>, i: nat, j: nat)
    requires i <= j <= |ops|
    ensures var earlier, later := Run(now, ops[..i]).snapshot, Run(now, ops[..j]).snapshot;
            earlier.revision <= later.revision && (earlier.revision == later.revision ==> earlier == later)
    decreases j - i
  {
    if i < j {
      RevisionIdentifiesSnapshot(now, ops, i, j - 1);
      assert ops[..j][..j - 1] == ops[..j - 1];
    }
  }

  /** The instances most recently published together with a state. */
  function Retained(ops: seq<Op>): seq<Instance> {
    if ops == [] then []
    else
      var last := ops[|ops| - 1];
      if last.PublishOp? && last.instances.Some? && !last.state.Initializing? && !last.state.Closed?
      then last.instances.value else Retained(ops[..|ops| - 1])
  }

  predicate Open(now: nat, ops: seq<Op>) {
    forall i :: 0 <= i < |ops| ==> Run(now, ops[..i]).holders > 0
  }

  /** State-only publications, refused ones and the closing one all keep the instances. */
  lemma {:induction false} StateChangesRetainInstances(now: nat, ops: seq<Op>)
    requires |ops| <= U64_MAX && Open(now, ops)
    ensures Run(now, ops).snapshot.instances == Retained(ops)
  {
    if ops != [] {
      var shorter := ops[..|ops| - 1];
      forall i | 0 <= i < |shorter| ensures Run(now, shorter[..i]).holders > 0 {
        assert shorter[..i] == ops[..i];
      }
      StateChangesRetainInstances(now, shorter);
      RunShape(now, shorter);
    }
  }

  /** The publications that are accepted: any but of the two states the lifecycle manages. */
  predicate IsAccepted(op: Op) {
    op.PublishOp? && (op.state.Ready? || op.state.Stale? || op.state.Unavailable?)
  }

  function Accepted(ops: seq<Op>): (accepted: seq<Op>)
    ensures forall i :: 0 <= i < |accepted| ==> IsAccepted(accepted[i])
  {
    if ops == [] then []
    else
      var last := ops[|ops| - 1];
      Accepted(ops[..|ops| - 1]) + if IsAccepted(last) then [last] else []
  }

  function Count(ops: seq<Op>, clones: bool): nat {
    if ops == [] then 0
    else
      var last := ops[|ops| - 1];
      Count(ops[..|ops| - 1], clones) + if (clones && last.CloneOp?) || (!clones && last.DropOp?) then 1 else 0
  }

  /**
   * What a reader sees: the last accepted state, as of its publication, under the number of publications so far; and
   * once the last handle is dropped, the closing of that, one revision later.
   */
  lemma {:induction false} CellShowsLastAccepted(now: nat, ops: seq<Op>)
    requires |ops| <= U64_MAX && Open(now, ops)
    ensures var c, accepted := Run(now, ops), Accepted(ops);
            && |accepted| <= |ops| && c.holders == 1 + Count(ops, true) - Count(ops, false)
            && c.snapshot
               == if c.holders == 0 then Snapshot(|accepted| + 1, ops[|ops| - 1].now, Closed, Retained(ops))
                  else if accepted == [] then Snapshot(0, now, Initializing, [])
                  else Snapshot(|accepted|, accepted[|accepted| - 1].now, accepted[|accepted| - 1].state, Retained(ops))
    ensures Run(now, ops).holders == 0 ==> ops != [] && ops[|ops| - 1].DropOp?
  {
    StateChangesRetainInstances(now, ops);
    if ops != [] {
      var shorter := ops[..|ops| - 1];
      forall i | 0 <= i < |shorter| ensures Run(now, shorter[..i]).holders > 0 {
        assert shorter[..i] == ops[..i];
      }
      assert Run(now, shorter).holders > 0;
      CellShowsLastAccepted(now, shorter);
    }
  }
}
