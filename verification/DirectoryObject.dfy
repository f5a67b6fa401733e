/** The publisher of one directory, as an object. */
module DirectoryObject {
  import opened Prelude
  import opened DirectoryModel

  class DirectoryPublisher {
    var revision: nat
    var cell: Snapshot
    var holders: nat

    /** The publisher's counter is the revision of the snapshot it last sent. */
    ghost predicate Valid()
      reads this
    {
      revision == cell.revision <= U64_MAX
    }

    ghost function View(): Cell
      reads this
    {
      Cell(cell, holders)
    }

    constructor (now: nat)
      ensures Valid() && View() == Run(now, [])
    {
      revision, cell, holders := 0, Snapshot(0, now, Initializing, []), 1;
    }

    method Publish(state: DirectoryState, instances: Option<seq<Instance>>, now: nat)
      returns (result: Result<Snapshot, DirectoryError>)
      requires Valid() && holders > 0
      modifies this
      ensures Valid() && result == DirectoryModel.Publish(old(cell), state, instances, now)
      ensures View() == Apply(old(View()), PublishOp(state, instances, now))
    {
      if state.Initializing? || state.Closed? {
        return Err(LifecycleManaged);
      }
      if revision + 1 > U64_MAX {
        return Err(RevisionOverflow);
      }
      revision := revision + 1;
      var kept := cell.instances;
      if instances.Some? {
        kept := instances.value;
      }
      cell := Snapshot(revision, now, state, kept);
      result := Ok(cell);
    }

    method Clone()
      requires Valid() && holders > 0
      modifies this`holders
      ensures View() == Apply(old(View()), CloneOp)
    {
      holders := holders + 1;
    }

    /** Dropping the last handle publishes the closing snapshot. */
    method Drop(now: nat)
      requires Valid() && holders > 0
      modifies this
      ensures Valid() && View() == Apply(old(View()), DropOp(now))
    {
      holders := holders - 1;
      if holders > 0 || revision + 1 > U64_MAX {
        return;
      }
      revision := revision + 1;
      cell := Snapshot(revision, now, Closed, cell.instances);
    }
  }
}
