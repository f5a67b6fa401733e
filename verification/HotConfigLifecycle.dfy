/** A configuration handle as a whole: its lifecycle drives its publisher, and its activation decides on typed views. */
module HotConfigLifecycle {
  import opened Prelude
  import L = LifecycleProtocol
  import S = LifecycleSafety
  import T = LifecycleTheorems
  import opened HotConfigModel

  datatype Handle<D, V> = Handle(lifecycle: L.State, config: System<D, V>)

  datatype Move<D> =
    // any step of the lifecycle but the provider's success, which brings a document
    | OnLifecycle(step: L.Step)
    | OnFetched(document: D)
    | OnListener(document: D)
    | OnOpen
    | OnObserve(view: nat)
    | OnAbandon(view: nat)

  function Start<D, V>(): Handle<D, V> {
    Handle(L.Init(L.Config), System(New(), []))
  }

  /** The activation result as a typed view sees it. */
  function Activation(s: L.State): Option<bool> {
    if s.cell.activation.None? then None else Some(s.cell.activation.value.Succeeded?)
  }

  predicate IsProviderSuccess(s: L.State, step: L.Step) {
    step.Work? && step.verdict.Succeeded? && s.worker.Activating?
  }

  /** Publishing the fetched document is part of the worker's step; a refusal makes the activation fail. */
  function FetchedVerdict<D>(p: Publisher<D>, document: D): L.Verdict {
    if PublishInitial(p, document).1 == Some(RevisionOverflow) then L.Failed(L.ProviderError(0)) else L.Succeeded
  }

  /** A lifecycle step that closes the publisher finishes it. */
  function Next<D(==), V>(h: Handle<D, V>, m: Move<D>, parse: D -> Result<V, ConfigError>): Option<Handle<D, V>> {
    match m
    case OnLifecycle(step) =>
      var after := L.Apply(h.lifecycle, step);
      if IsProviderSuccess(h.lifecycle, step) || after.None? then None
      else if after.value.cell.publisherClosed && !h.lifecycle.cell.publisherClosed then
        Some(Handle(after.value, Step(h.config, FinishAction, parse)))
      else Some(h.(lifecycle := after.value))
    case OnFetched(document) =>
      var after := L.Apply(h.lifecycle, L.Work(FetchedVerdict(h.config.publisher, document)));
      if !h.lifecycle.worker.Activating? || after.None? then None
      else Some(Handle(after.value, Step(h.config, InitialAction(document), parse)))
    case OnListener(document) => Some(h.(config := Step(h.config, PublishAction(document), parse)))
    case OnOpen => Some(h.(config := Step(h.config, TypedAction(Activation(h.lifecycle)), parse)))
    case OnObserve(i) =>
      if Enabled(h.config, ObserveAction(i)) then Some(h.(config := Step(h.config, ObserveAction(i), parse))) else None
    case OnAbandon(i) =>
      if Enabled(h.config, AbandonAction(i)) then Some(h.(config := Step(h.config, AbandonAction(i), parse))) else None
  }

  function Run<D(==), V>(moves: seq<Move<D>>, parse: D -> Result<V, ConfigError>): Option<Handle<D, V>> {
    if moves == [] then Some(Start())
    else match Run(moves[..|moves| - 1], parse)
      case None => None
      case Some(h) => Next(h, moves[|moves| - 1], parse)
  }

  // ---------------------------------------------------------------------------------------------

  /** The activation has succeeded, or will unless a close comes first. */
  predicate Fetched(s: L.State) {
    || s.cell.activation == Some(L.Succeeded)
    || ((s.worker.Activated? || s.worker.Checked?) && s.worker.verdict.Succeeded?)
  }

  ghost predicate HandleInv<D, V>(h: Handle<D, V>, parse: D -> Result<V, ConfigError>, steps: nat) {
    && S.Inv(h.lifecycle) && h.lifecycle.protocol.Config?
    && Inv(h.config, parse, steps)
    && h.config.publisher.closed == h.lifecycle.cell.publisherClosed
    && (Fetched(h.lifecycle) ==> h.config.publisher.baseline.Some?)
  }

  /** A caller publishes an activation result only for a handle that never started, and then a failure. */
  lemma UnstartedPublishesFailure(
      protocol: L.Protocol, cell: L.Shared, holder: Option<L.Caller>, worker: L.Worker, tally: L.Tally)
    requires S.CoreInv(protocol, cell, holder, worker, tally) && holder.Some? && holder.value.PublishActivation?
    ensures holder.value.verdict.Failed?
  {
  }

  lemma OnlyPublishersSetResults(protocol: L.Protocol, cell: L.Shared, free: bool, c: L.Caller)
    requires L.CallerEffect(protocol, cell, free, c).Some?
    ensures L.CallerEffect(protocol, cell, free, c).value.cell.activation
            == if c.PublishActivation? then Some(c.verdict) else cell.activation
  {
  }

  lemma CallersFetchNothing(s: L.State, i: nat)
    requires S.Inv(s) && L.Apply(s, L.Advance(i)).Some?
    ensures Fetched(L.Apply(s, L.Advance(i)).value) ==> Fetched(s)
  {
    var c := s.callers[i];
    var e := L.CallerEffect(s.protocol, s.cell, s.lock.None?, c).value;
    assert L.Apply(s, L.Advance(i)).value == L.Take(s, i, e);
    OnlyPublishersSetResults(s.protocol, s.cell, s.lock.None?, c);
    if c.PublishActivation? {
      assert L.HoldsLock(c) ==> s.lock == Some(i);
      UnstartedPublishesFailure(s.protocol, s.cell, S.Holder(s), s.worker, s.tally);
    }
  }

  lemma WorkersFetchOnSuccess(s: L.State, step: L.Step)
    requires s.protocol.Config? && (step.Work? || step.FactoryPanics? || step.Abort?) && L.Apply(s, step).Some?
    ensures Fetched(L.Apply(s, step).value) ==> Fetched(s) || (IsProviderSuccess(s, step) && !s.cell.publisherClosed)
  {
  }

  /** Only the provider's success with an open publisher makes an activation that was not fetched one that is. */
  lemma OnlySuccessFetches(s: L.State, step: L.Step)
    requires S.Inv(s) && s.protocol.Config? && L.Apply(s, step).Some?
    ensures var t := L.Apply(s, step).value;
            && t.protocol.Config?
            && (Fetched(t) ==> Fetched(s) || (IsProviderSuccess(s, step) && !s.cell.publisherClosed))
  {
    match step {
      case Advance(i) => CallersFetchNothing(s, i);
      case Work(_) => WorkersFetchOnSuccess(s, step);
      case FactoryPanics => WorkersFetchOnSuccess(s, step);
      case Abort => WorkersFetchOnSuccess(s, step);
      case _ =>
    }
  }

  lemma ClosedStaysClosed(s: L.State, step: L.Step)
    requires S.Inv(s) && L.Apply(s, step).Some?
    ensures s.cell.publisherClosed ==> L.Apply(s, step).value.cell.publisherClosed
  {
    T.ApplyGrows(s, step);
  }

  /** The worker does not close the publisher in the step that ends the activation future. */
  lemma FetchingKeepsPublisher(s: L.State, verdict: L.Verdict)
    requires s.worker.Activating? && L.Apply(s, L.Work(verdict)).Some?
    ensures L.Apply(s, L.Work(verdict)).value.cell == s.cell
  {
  }

  lemma NextKeepsInv<D, V>(h: Handle<D, V>, m: Move<D>, parse: D -> Result<V, ConfigError>, steps: nat)
    requires HandleInv(h, parse, steps) && steps + 1 < U64_MAX && Next(h, m, parse).Some?
    ensures HandleInv(Next(h, m, parse).value, parse, steps + 1)
  {
    match m {
      case OnLifecycle(step) =>
        S.ApplyKeepsInv(h.lifecycle, step);
        OnlySuccessFetches(h.lifecycle, step);
        ClosedStaysClosed(h.lifecycle, step);
        StepKeepsInv(h.config, FinishAction, parse, steps);
      case OnFetched(document) =>
        var step := L.Work(FetchedVerdict(h.config.publisher, document));
        S.ApplyKeepsInv(h.lifecycle, step);
        OnlySuccessFetches(h.lifecycle, step);
        FetchingKeepsPublisher(h.lifecycle, step.verdict);
        StepKeepsInv(h.config, InitialAction(document), parse, steps);
      case OnListener(document) => StepKeepsInv(h.config, PublishAction(document), parse, steps);
      case OnOpen => StepKeepsInv(h.config, TypedAction(Activation(h.lifecycle)), parse, steps);
      case OnObserve(i) => StepKeepsInv(h.config, ObserveAction(i), parse, steps);
      case OnAbandon(i) => StepKeepsInv(h.config, AbandonAction(i), parse, steps);
    }
  }

  lemma {:induction false} RunKeepsInv<D, V>(moves: seq<Move<D>>, parse: D -> Result<V, ConfigError>)
    requires |moves| < U64_MAX && Run(moves, parse).Some?
    ensures HandleInv(Run(moves, parse).value, parse, |moves|)
  {
    if moves == [] {
      S.InitInv(L.Config);
    } else {
      RunKeepsInv(moves[..|moves| - 1], parse);
      NextKeepsInv(Run(moves[..|moves| - 1], parse).value, moves[|moves| - 1], parse, |moves| - 1);
    }
  }

  /** The publisher is closed exactly when the lifecycle has ended it. */
  lemma PublisherFollowsLifecycle<D, V>(moves: seq<Move<D>>, parse: D -> Result<V, ConfigError>)
    requires |moves| < U64_MAX && Run(moves, parse).Some?
    ensures var h := Run(moves, parse).value; h.config.publisher.closed == h.lifecycle.cell.publisherClosed
  {
    RunKeepsInv(moves, parse);
  }

  /**
   * A successful activation has published a document, so a typed view of an open handle fails only when neither the
   * fetched nor the current document parses, and then reports the current one's error.
   */
  lemma ActivatedHandlesHaveADocument<D, V>(moves: seq<Move<D>>, parse: D -> Result<V, ConfigError>)
    requires |moves| < U64_MAX && Run(moves, parse).Some?
    requires Activation(Run(moves, parse).value.lifecycle) == Some(true)
    ensures var p := Run(moves, parse).value.config.publisher;
            && p.baseline.Some? && p.raw.document.Some?
            && var typed := Typed(p, Some(true), parse);
               if p.closed then typed == Err(Cancelled)
               else if parse(p.baseline.value).Err? && parse(p.raw.document.value).Err? then
                 typed == Err(parse(p.raw.document.value).error)
               else typed.Ok?
  {
    RunKeepsInv(moves, parse);
  }
}
