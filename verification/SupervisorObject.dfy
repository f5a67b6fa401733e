/** The subscription task as an object over the shared publisher and endpoint-breaker index. */
module SupervisorObject {
  import opened Prelude
  import opened Service
  import opened Memberships
  import opened DirectoryModel
  import opened DirectoryObject
  import opened EndpointBreakersObject
  import opened SupervisorModel
  import opened DiscoveryModel

  class Supervisor {
    const selector: Selector
    const maxStaleness: nat
    const publisher: DirectoryPublisher
    const breakers: EndpointBreakers
    var slot: SlotState
    var staleDeadline: Option<nat>
    var place: Place
    var retained: bool
    ghost var log: seq<Generation>

    ghost predicate Valid()
      reads this, publisher, breakers, breakers.store
    {
      && publisher.Valid() && breakers.Valid() && breakers.pending == {}
      && publisher.holders == (if place.Done? then 0 else 1) + (if retained then 1 else 0)
    }

    ghost function Forwarded(): Forward
      reads this, publisher
    {
      Forward(publisher.cell, slot, staleDeadline)
    }

    ghost function View(): Task
      reads this, publisher
    {
      Task(Forwarded(), place, retained, log)
    }

    /** The task and the slot each take one handle of a new publisher. */
    constructor (selector: Selector, maxStaleness: nat, breakers: EndpointBreakers, now: nat)
      requires breakers.Valid() && breakers.pending == {}
      ensures Valid() && fresh(publisher) && this.breakers == breakers && View() == Start(now)
      ensures this.selector == selector && this.maxStaleness == maxStaleness
    {
      this.selector, this.maxStaleness, this.breakers := selector, maxStaleness, breakers;
      var directory := new DirectoryPublisher(now);
      directory.Clone();
      publisher := directory;
      slot, staleDeadline, place, retained, log := SlotInitializing, None, Top, true, [];
    }

    method ReplaceMembers(instances: seq<Instance>)
      requires Valid()
      modifies breakers, breakers.store`entries
      ensures Valid()
      ensures breakers.View() == Replace(old(breakers.View()), selector, MembersOf(selector, Endpoints(instances)))
    {
      var endpoints := seq(|instances|, i requires 0 <= i < |instances| => instances[i].endpoint);
      assert endpoints == Endpoints(instances);
      breakers.ReplaceDiscovery(selector, endpoints, []);
    }

    method StartDeadline(now: nat)
      modifies this`staleDeadline
      ensures staleDeadline == KeepDeadline(old(staleDeadline), now + maxStaleness)
    {
      if staleDeadline.None? {
        staleDeadline := Some(now + maxStaleness);
      }
    }

    /** Forwards one provider snapshot; any but an initializing or closed one replaces the owner's members first. */
    method UpdateSnapshot(raw: Snapshot, now: nat)
      requires Valid() && !place.Done?
      modifies this`slot, this`staleDeadline, publisher, breakers, breakers.store`entries
      ensures Valid() && Forwarded() == SupervisorModel.UpdateSnapshot(old(Forwarded()), raw, now, maxStaleness)
      ensures breakers.View() == Reindex(old(breakers.View()), selector, Changed(raw), false)
    {
      match raw.state
      case Ready =>
        ReplaceMembers(raw.instances);
        var _ := publisher.Publish(Ready, Some(raw.instances), now);
        staleDeadline := None;
        slot := SlotReady;
      case Stale =>
        ReplaceMembers(raw.instances);
        if publisher.cell.state.Ready? || publisher.cell.state.Stale? {
          var _ := publisher.Publish(Stale, Some(raw.instances), now);
          StartDeadline(now);
          slot := SlotStale;
        } else {
          var _ := publisher.Publish(Unavailable, Some(raw.instances), now);
          staleDeadline := None;
          slot := SlotUnavailable;
        }
      case Unavailable =>
        ReplaceMembers(raw.instances);
        var _ := publisher.Publish(Unavailable, Some(raw.instances), now);
        staleDeadline := None;
        slot := SlotUnavailable;
      case Closed => MarkDisconnected(now);
      case Initializing =>
    }

    method MarkDisconnected(now: nat)
      requires Valid() && !place.Done?
      modifies this`slot, this`staleDeadline, publisher
      ensures Valid() && Forwarded() == SupervisorModel.MarkDisconnected(old(Forwarded()), now, maxStaleness)
    {
      match publisher.cell.state
      case Ready =>
        var _ := publisher.Publish(Stale, None, now);
        StartDeadline(now);
        slot := SlotStale;
      case Stale =>
        StartDeadline(now);
        slot := SlotStale;
      case Initializing =>
        var _ := publisher.Publish(Unavailable, None, now);
        slot := SlotUnavailable;
      case _ =>
    }

    method ExpireStale(now: nat)
      requires Valid() && !place.Done?
      modifies this`slot, this`staleDeadline, publisher
      ensures Valid() && Forwarded() == SupervisorModel.ExpireStale(old(Forwarded()), now)
    {
      if publisher.cell.state.Stale? {
        var _ := publisher.Publish(Unavailable, None, now);
        if slot.SlotReady? || slot.SlotStale? {
          slot := SlotUnavailable;
        }
      }
      staleDeadline := None;
    }

    method SetProviderFailure(error: Text, now: nat)
      requires Valid() && !place.Done?
      modifies this`slot, publisher
      ensures Valid() && Forwarded() == SupervisorModel.SetProviderFailure(old(Forwarded()), error, now)
    {
      if publisher.cell.state.Stale? {
        slot := SlotStale;
        return;
      }
      if publisher.cell.state.Initializing? {
        var _ := publisher.Publish(Unavailable, None, now);
      }
      slot := SlotFailed(error);
    }

    method SetRetryingState()
      requires Valid()
      modifies this`slot
      ensures Valid() && Forwarded() == SupervisorModel.SetRetryingState(old(Forwarded()))
    {
      match publisher.cell.state
      case Initializing => slot := SlotInitializing;
      case Ready => slot := SlotReady;
      case Stale => slot := SlotStale;
      case Unavailable => slot := SlotUnavailable;
      case Closed => slot := SlotClosed;
    }

    /**
     * Waits for a future that completes at `readyAt`. A deadline reached first expires the directory and the wait goes
     * on; a future that is ready together with the deadline wins.
     */
    method AwaitWithStaleDeadline(from: nat, readyAt: nat)
      requires Valid() && !place.Done?
      modifies this`slot, this`staleDeadline, publisher
      ensures Valid()
      ensures Forwarded() == (
                if old(staleDeadline).Some? && Max(old(staleDeadline).value, from) < readyAt
                then SupervisorModel.ExpireStale(old(Forwarded()), Max(old(staleDeadline).value, from))
                else old(Forwarded()))
    {
      while staleDeadline.Some?
        invariant Valid() && (staleDeadline.Some? ==> Forwarded() == old(Forwarded()))
        invariant staleDeadline.None? ==>
                    if old(staleDeadline).None? then Forwarded() == old(Forwarded())
                    else Max(old(staleDeadline).value, from) < readyAt
                         && Forwarded() == SupervisorModel.ExpireStale(
                                             old(Forwarded()), Max(old(staleDeadline).value, from))
        decreases staleDeadline.Some?
      {
        var woken := Max(staleDeadline.value, from);
        if readyAt <= woken {
          return;
        }
        ExpireStale(woken);
      }
    }

    /** The end of the loop: the terminal slot state, the membership, and the publisher handles. */
    method Finish(shutdown: bool, now: nat)
      requires Valid() && place.Finishing?
      modifies this, publisher, breakers, breakers.store`entries
      ensures Valid() && View() == Next(old(View()), shutdown, LoopEnded, now, maxStaleness)
      ensures breakers.View() == Reindex(old(breakers.View()), selector, LoopEnded, shutdown)
    {
      slot := place.terminal;
      if !shutdown {
        breakers.RemoveDiscovery(selector, []);
        if retained {
          publisher.Drop(now);
          retained := false;
        }
      }
      publisher.Drop(now);
      staleDeadline, place := None, Done;
    }

    /** The task asks for a new generation. */
    method Prepare(e: Event, shutdown: bool, now: nat)
      requires e.PrepareOk? || e.PrepareFailed? || e.PreparePanicked?
      requires Valid() && Enabled(View(), shutdown, e, now)
      modifies this, publisher, breakers, breakers.store`entries
      ensures Valid() && View() == Next(old(View()), shutdown, e, now, maxStaleness)
      ensures breakers.View() == Reindex(old(breakers.View()), selector, e, shutdown)
    {
      match e
      case PrepareOk =>
        log := log + [Prepared(|log| / 2)];
        place := Activating;
      case PrepareFailed(error) =>
        SetProviderFailure(error, now);
        place := Delaying;
      case PreparePanicked =>
        slot := SlotQuarantined;
        place := Finishing(SlotQuarantined);
    }

    /** The activation of a prepared generation completes or times out. */
    method Activated(e: Event, shutdown: bool, now: nat)
      requires e.ActivationOk? || e.ActivationFailed? || e.ActivationTimedOut?
      requires Valid() && Enabled(View(), shutdown, e, now)
      modifies this, publisher, breakers, breakers.store`entries
      ensures Valid() && View() == Next(old(View()), shutdown, e, now, maxStaleness)
      ensures breakers.View() == Reindex(old(breakers.View()), selector, e, shutdown)
    {
      match e
      case ActivationOk(raw) =>
        UpdateSnapshot(raw, now);
        place := Streaming;
      case ActivationFailed(error) =>
        SetProviderFailure(error, now);
        place := Closing(Retry);
      case ActivationTimedOut =>
        MarkDisconnected(now);
        slot := SlotQuarantined;
        place := Closing(Retry);
    }

    /** The provider's directory changes or ends. */
    method Streamed(e: Event, shutdown: bool, now: nat)
      requires e.Changed? || e.ChangeFailed?
      requires Valid() && Enabled(View(), shutdown, e, now)
      modifies this, publisher, breakers, breakers.store`entries
      ensures Valid() && View() == Next(old(View()), shutdown, e, now, maxStaleness)
      ensures breakers.View() == Reindex(old(breakers.View()), selector, e, shutdown)
    {
      match e
      case Changed(raw) => UpdateSnapshot(raw, now);
      case ChangeFailed =>
        MarkDisconnected(now);
        place := Closing(RetryUnlessShutdown);
    }

    /** The close of a generation takes too long, or reaches its terminal result. */
    method Close(e: Event, shutdown: bool, now: nat)
      requires e.CloseTimedOut? || e.CloseOk? || e.CloseFailed?
      requires Valid() && Enabled(View(), shutdown, e, now)
      modifies this, publisher, breakers, breakers.store`entries
      ensures Valid() && View() == Next(old(View()), shutdown, e, now, maxStaleness)
      ensures breakers.View() == Reindex(old(breakers.View()), selector, e, shutdown)
    {
      if e.CloseTimedOut? {
        slot := SlotQuarantined;
        return;
      }
      log := log + [ClosedForGood(|log| / 2)];
      match e
      case CloseFailed(error) =>
        slot := SlotFailed(error);
        place := Finishing(SlotFailed(error));
      case CloseOk =>
        place := if place.after.Stop? || (place.after.RetryUnlessShutdown? && shutdown) then Finishing(SlotClosed)
        else Delaying;
    }

    /** One step of the task, in place. */
    method Handle(e: Event, shutdown: bool, now: nat)
      requires Valid() && Enabled(View(), shutdown, e, now)
      modifies this, publisher, breakers, breakers.store`entries
      ensures Valid() && View() == Next(old(View()), shutdown, e, now, maxStaleness)
      ensures breakers.View() == Reindex(old(breakers.View()), selector, e, shutdown)
    {
      match e
      case ShutdownSeen =>
        place := if place.Activating? then Closing(Stop)
        else if place.Streaming? then Closing(RetryUnlessShutdown)
        else Finishing(SlotClosed);
      case PrepareOk => Prepare(e, shutdown, now);
      case PrepareFailed(_) => Prepare(e, shutdown, now);
      case PreparePanicked => Prepare(e, shutdown, now);
      case ActivationOk(_) => Activated(e, shutdown, now);
      case ActivationFailed(_) => Activated(e, shutdown, now);
      case ActivationTimedOut => Activated(e, shutdown, now);
      case Changed(_) => Streamed(e, shutdown, now);
      case ChangeFailed => Streamed(e, shutdown, now);
      case DeadlineReached => ExpireStale(now);
      case CloseTimedOut => Close(e, shutdown, now);
      case CloseOk => Close(e, shutdown, now);
      case CloseFailed(_) => Close(e, shutdown, now);
      case DelayElapsed =>
        SetRetryingState();
        place := Top;
      case LoopEnded => Finish(shutdown, now);
    }
  }
}
