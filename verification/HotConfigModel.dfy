/** Hot configuration: raw documents published latest-wins, and typed views that keep the last good value. */
module HotConfigModel {
  import opened Prelude

  datatype ConfigError =
    | Cancelled | RevisionOverflow | NotActivated | ActivationFailed | NoInitialDocument | Rejected(reason: string)

  datatype Raw<D> = Raw(document: Option<D>, closed: bool)

  /** `version` counts what was sent into the cell; a receiver wakes when it differs from the version it saw. */
  datatype Publisher<D> = Publisher(revision: nat, baseline: Option<D>, closed: bool, raw: Raw<D>, version: nat)

  function New<D>(): Publisher<D> {
    Publisher(0, None, false, Raw(None, false), 0)
  }

  function Send<D>(p: Publisher<D>, raw: Raw<D>): Publisher<D> {
    p.(raw := raw, version := p.version + 1)
  }

  /** A listener's document; the result says why it was refused. */
  function Publish<D>(p: Publisher<D>, document: D): (Publisher<D>, Option<ConfigError>) {
    if p.closed then (p, Some(Cancelled))
    else if p.revision >= U64_MAX then (p, Some(RevisionOverflow))
    else (Send(p.(revision := p.revision + 1), Raw(Some(document), false)), None)
  }

  /** The document of the initial fetch: always the baseline, but current only when no listener was faster. */
  function PublishInitial<D>(p: Publisher<D>, document: D): (Publisher<D>, Option<ConfigError>) {
    if p.closed then (p, Some(Cancelled))
    else
      var q := p.(baseline := Some(document));
      if q.raw.document.Some? then (q, None)
      else if q.revision >= U64_MAX then (q, Some(RevisionOverflow))
      else (Send(q.(revision := q.revision + 1), Raw(Some(document), false)), None)
  }

  function Finish<D>(p: Publisher<D>): Publisher<D> {
    if p.closed then p
    else Send(p.(closed := true, revision := Min(p.revision + 1, U64_MAX)), Raw(p.raw.document, true))
  }

  // ---------------------------------------------------------------------------------------------
  // Typed views

  /** What readers see of a typed view, and how far its task has read the raw cell. */
  datatype View<T> = View(value: T, revision: nat, lastError: Option<ConfigError>, seen: nat, running: bool)

  /** The documents a new view reads: the baseline, and the current document when it is another. */
  function Opening<D(==)>(p: Publisher<D>): seq<D> {
    (if p.baseline.Some? then [p.baseline.value] else [])
    + (if p.raw.document.Some? && p.baseline != p.raw.document then [p.raw.document.value] else [])
  }

  /** Parses both opening documents in turn and keeps the later good one; a later success clears an earlier error. */
  function Typed<D(==), T>(p: Publisher<D>, activation: Option<bool>, parse: D -> Result<T, ConfigError>)
    : Result<View<T>, ConfigError>
  {
    if activation.None? then Err(NotActivated)
    else if !activation.value then Err(ActivationFailed)
    else if p.raw.closed then Err(Cancelled)
    else
      var first := if p.baseline.Some? then Some(parse(p.baseline.value)) else None;
      var second := if p.raw.document.Some? && p.baseline != p.raw.document then Some(parse(p.raw.document.value)) else None;
      var value :=
        if second.Some? && second.value.Ok? then Some(second.value.value)
        else if first.Some? && first.value.Ok? then Some(first.value.value) else None;
      var lastError :=
        if second.Some? then (if second.value.Err? then Some(second.value.error) else None)
        else if first.Some? && first.value.Err? then Some(first.value.error) else None;
      if value.Some? then Ok(View(value.value, 1, lastError, p.version, true))
      else Err(if lastError.Some? then lastError.value else NoInitialDocument)
  }

  /** One wake-up of the view's task. */
  function Observe<D, T>(p: Publisher<D>, v: View<T>, parse: D -> Result<T, ConfigError>): View<T> {
    var w := v.(seen := p.version);
    if p.raw.closed then w.(running := false)
    else if p.raw.document.None? then w
    else match parse(p.raw.document.value)
      case Ok(value) =>
        if v.revision >= U64_MAX then w.(lastError := Some(RevisionOverflow), running := false)
        else w.(value := value, revision := v.revision + 1, lastError := None)
      case Err(error) => w.(lastError := Some(error))
  }

  // ---------------------------------------------------------------------------------------------
  // Schedules

  datatype Action<D> =
    | PublishAction(document: D)
    | InitialAction(document: D)
    | FinishAction
    | TypedAction(activation: Option<bool>)
    | ObserveAction(view: nat)
    | AbandonAction(view: nat)

  /**
   * A view with the documents its task has read, the first `opening` of them at its creation, and the versions of the
   * unclosed snapshots they came from.
   */
  datatype Reader<D, T> = Reader(view: View<T>, observed: seq<D>, opening: nat, versions: set<nat>)

  datatype System<D, T> = System(publisher: Publisher<D>, readers: seq<Reader<D, T>>)

  predicate Enabled<D, T>(s: System<D, T>, a: Action<D>) {
    match a
    case ObserveAction(i) => i < |s.readers| && s.readers[i].view.running && s.readers[i].view.seen != s.publisher.version
    case AbandonAction(i) => i < |s.readers|
    case _ => true
  }

  function Read<D, T>(p: Publisher<D>, r: Reader<D, T>, parse: D -> Result<T, ConfigError>): Reader<D, T> {
    Reader(Observe(p, r.view, parse),
           if p.raw.closed || p.raw.document.None? then r.observed else r.observed + [p.raw.document.value],
           r.opening,
           if p.raw.closed || p.raw.document.None? then r.versions else r.versions + {p.version})
  }

  function Open<D(==), T>(p: Publisher<D>, activation: Option<bool>, parse: D -> Result<T, ConfigError>): seq<Reader<D, T>> {
    var view := Typed(p, activation, parse);
    if view.Ok? then [Reader(view.value, Opening(p), |Opening(p)|, {p.version})] else []
  }

  function Step<D(==), T>(s: System<D, T>, a: Action<D>, parse: D -> Result<T, ConfigError>): System<D, T>
    requires Enabled(s, a)
  {
    match a
    case PublishAction(document) => s.(publisher := Publish(s.publisher, document).0)
    case InitialAction(document) => s.(publisher := PublishInitial(s.publisher, document).0)
    case FinishAction => s.(publisher := Finish(s.publisher))
    case TypedAction(activation) => s.(readers := s.readers + Open(s.publisher, activation, parse))
    case ObserveAction(i) => s.(readers := s.readers[i := Read(s.publisher, s.readers[i], parse)])
    case AbandonAction(i) =>
      s.(readers := s.readers[i := s.readers[i].(view := s.readers[i].view.(running := false))])
  }

  ghost predicate StepsAt<D, T>(
      states: seq<System<D, T>>, actions: seq<Action<D>>, parse: D -> Result<T, ConfigError>, i: nat)
    requires |states| == |actions| + 1 && i < |actions|
  {
    Enabled(states[i], actions[i]) && states[i + 1] == Step(states[i], actions[i], parse)
  }

  ghost predicate IsRun<D, T>(
      states: seq<System<D, T>>, actions: seq<Action<D>>, parse: D -> Result<T, ConfigError>)
  {
    && |states| == |actions| + 1 && |actions| < U64_MAX && states[0] == System(New(), [])
    && forall i :: 0 <= i < |actions| ==> StepsAt(states, actions, parse, i)
  }

  // ---------------------------------------------------------------------------------------------
  // What a view should hold, by the documents read

  function LastGood<D, T>(documents: seq<D>, parse: D -> Result<T, ConfigError>): Option<T> {
    if documents == [] then None
    else
      var last := parse(documents[|documents| - 1]);
      if last.Ok? then Some(last.value) else LastGood(documents[..|documents| - 1], parse)
  }

  function Successes<D, T>(documents: seq<D>, parse: D -> Result<T, ConfigError>): nat {
    if documents == [] then 0
    else Successes(documents[..|documents| - 1], parse) + if parse(documents[|documents| - 1]).Ok? then 1 else 0
  }

  function ErrorOfLast<D, T>(documents: seq<D>, parse: D -> Result<T, ConfigError>): Option<ConfigError> {
    if documents == [] then None
    else
      var last := parse(documents[|documents| - 1]);
      if last.Err? then Some(last.error) else None
  }

  /** The view's contents are a function of what its task has read. */
  ghost predicate Holds<D, T>(r: Reader<D, T>, parse: D -> Result<T, ConfigError>) {
    && r.opening <= |r.observed|
    && Some(r.view.value) == LastGood(r.observed, parse)
    && r.view.revision == 1 + Successes(r.observed[r.opening..], parse)
    && r.view.lastError == ErrorOfLast(r.observed, parse)
  }

  /** A task that has seen an unclosed version has read its document last. */
  ghost predicate UpToDate<D, T>(p: Publisher<D>, r: Reader<D, T>) {
    && (forall v :: v in r.versions ==> v <= r.view.seen)
    && (!p.raw.closed ==> r.view.seen in r.versions)
    && r.view.seen <= p.version && r.observed != [] && p.raw.document.Some?
    && (r.view.seen == p.version && !p.raw.closed ==> p.raw.document == Some(r.observed[|r.observed| - 1]))
    && (p.raw.closed && r.view.seen + 1 == p.version ==>
          p.raw.document == Some(r.observed[|r.observed| - 1]))
    && (r.view.running && r.view.seen == p.version ==> !p.raw.closed)
  }

  ghost predicate PublisherInv<D>(p: Publisher<D>) {
    && p.raw.closed == p.closed
    && (p.baseline.Some? ==> p.raw.document.Some?)
  }

  ghost predicate Inv<D, T>(s: System<D, T>, parse: D -> Result<T, ConfigError>, steps: nat) {
    && PublisherInv(s.publisher) && s.publisher.revision <= steps
    && forall i :: 0 <= i < |s.readers| ==>
         var r := s.readers[i];
         Holds(r, parse) && UpToDate(s.publisher, r) && r.view.revision <= steps
  }

  lemma OpeningHolds<D, T>(p: Publisher<D>, activation: Option<bool>, parse: D -> Result<T, ConfigError>)
    requires PublisherInv(p) && Typed(p, activation, parse).Ok?
    ensures var r := Open(p, activation, parse)[0]; Holds(r, parse) && UpToDate(p, r) && r.view.revision == 1
  {
    var documents := Opening(p);
    assert documents[|documents|..] == [];
    if |documents| == 2 {
      assert documents[..1] == [p.baseline.value];
      assert documents[1] == p.raw.document.value;
      assert documents[..1][..0] == [];
    } else {
      assert documents == [p.raw.document.value];
      assert documents[..0] == [];
    }
  }

  lemma ReadHolds<D, T>(p: Publisher<D>, r: Reader<D, T>, parse: D -> Result<T, ConfigError>)
    requires PublisherInv(p) && Holds(r, parse) && UpToDate(p, r) && r.view.revision < U64_MAX
    requires r.view.running && r.view.seen != p.version
    ensures var q := Read(p, r, parse);
            Holds(q, parse) && UpToDate(p, q) && q.view.revision <= r.view.revision + 1
  {
    var q := Read(p, r, parse);
    if q.observed != r.observed {
      assert q.observed[..|q.observed| - 1] == r.observed;
      assert q.observed[r.opening..][..|q.observed| - r.opening - 1] == r.observed[r.opening..];
    }
  }

  lemma StepKeepsInv<D, T>(s: System<D, T>, a: Action<D>, parse: D -> Result<T, ConfigError>, steps: nat)
    requires Enabled(s, a) && Inv(s, parse, steps) && steps + 1 < U64_MAX
    ensures Inv(Step(s, a, parse), parse, steps + 1)
  {
    match a
    case TypedAction(activation) =>
      if Typed(s.publisher, activation, parse).Ok? { OpeningHolds(s.publisher, activation, parse); }
    case ObserveAction(i) => ReadHolds(s.publisher, s.readers[i], parse);
    case _ =>
  }

  lemma {:induction false} RunKeepsInv<D, T>(
      states: seq<System<D, T>>, actions: seq<Action<D>>, parse: D -> Result<T, ConfigError>, i: nat)
    requires IsRun(states, actions, parse) && i < |states|
    ensures Inv(states[i], parse, i)
  {
    if i > 0 {
      assert StepsAt(states, actions, parse, i - 1);
      RunKeepsInv(states, actions, parse, i - 1);
      StepKeepsInv(states[i - 1], actions[i - 1], parse, i - 1);
    }
  }

  // ---------------------------------------------------------------------------------------------
  // Results over every schedule

  /** The last-good law: value, revision and error are determined by the documents the task has read. */
  lemma LastGoodView<D, T>(
      states: seq<System<D, T>>, actions: seq<Action<D>>, parse: D -> Result<T, ConfigError>, i: nat, r: nat)
    requires IsRun(states, actions, parse) && i < |states| && r < |states[i].readers|
    ensures Holds(states[i].readers[r], parse)
  {
    RunKeepsInv(states, actions, parse, i);
  }

  /** A view that has consumed the latest unclosed snapshot shows it when it parses, and else reports its error. */
  lemma LatestDocumentWins<D, T>(
      states: seq<System<D, T>>, actions: seq<Action<D>>, parse: D -> Result<T, ConfigError>, i: nat, r: nat)
    requires IsRun(states, actions, parse) && i < |states| && r < |states[i].readers|
    requires states[i].readers[r].view.seen == states[i].publisher.version && !states[i].publisher.closed
    ensures states[i].publisher.raw.document.Some?
    ensures match parse(states[i].publisher.raw.document.value)
            case Ok(value) => states[i].readers[r].view.value == value && states[i].readers[r].view.lastError.None?
            case Err(error) => states[i].readers[r].view.lastError == Some(error)
  {
    RunKeepsInv(states, actions, parse, i);
  }

  /** A closing snapshot hides nothing from a view that was up to date when the publisher closed. */
  lemma NothingHiddenByClose<D, T>(
      states: seq<System<D, T>>, actions: seq<Action<D>>, parse: D -> Result<T, ConfigError>, i: nat, r: nat)
    requires IsRun(states, actions, parse) && i < |states| && r < |states[i].readers| && states[i].publisher.closed
    requires states[i].readers[r].view.seen + 1 == states[i].publisher.version
    ensures states[i].publisher.raw.document.Some?
    ensures match parse(states[i].publisher.raw.document.value)
            case Ok(value) => states[i].readers[r].view.value == value && states[i].readers[r].view.lastError.None?
            case Err(error) => states[i].readers[r].view.lastError == Some(error)
  {
    RunKeepsInv(states, actions, parse, i);
  }

  /** From the close on a view is frozen: whatever its task still does, it reads nothing and shows nothing new. */
  lemma {:induction false} ClosedViewIsFrozen<D, T>(
      states: seq<System<D, T>>, actions: seq<Action<D>>, parse: D -> Result<T, ConfigError>, k: nat, i: nat, r: nat)
    requires IsRun(states, actions, parse) && k <= i < |states| && states[k].publisher.closed
    requires r < |states[i].readers|
    ensures r < |states[k].readers|
    ensures var then_, now := states[k].readers[r], states[i].readers[r];
            && now.observed == then_.observed && now.versions == then_.versions && now.opening == then_.opening
            && now.view.value == then_.view.value && now.view.revision == then_.view.revision
            && now.view.lastError == then_.view.lastError
    decreases i
  {
    if k < i {
      assert StepsAt(states, actions, parse, i - 1);
      RunKeepsInv(states, actions, parse, i - 1);
      CloseStays(states, actions, parse, k, i - 1);
      ClosedViewIsFrozen(states, actions, parse, k, i - 1, r);
    }
  }

  lemma {:induction false} CloseStays<D, T>(
      states: seq<System<D, T>>, actions: seq<Action<D>>, parse: D -> Result<T, ConfigError>, k: nat, i: nat)
    requires IsRun(states, actions, parse) && k <= i < |states| && states[k].publisher.closed
    ensures states[i].publisher == states[k].publisher
    decreases i
  {
    if k < i {
      assert StepsAt(states, actions, parse, i - 1);
      CloseStays(states, actions, parse, k, i - 1);
    }
  }

  /**
   * The last document reaches a view if and only if its task had already seen that version when the publisher closed:
   * at no later time is it read otherwise, and a reader is never opened after the close.
   */
  lemma LastDocumentReadIff<D, T>(
      states: seq<System<D, T>>, actions: seq<Action<D>>, parse: D -> Result<T, ConfigError>, k: nat, i: nat, r: nat)
    requires IsRun(states, actions, parse) && k < i < |states| && r < |states[i].readers|
    requires actions[k].FinishAction? && !states[k].publisher.closed
    ensures r < |states[k].readers|
    ensures states[k].publisher.version in states[i].readers[r].versions
            <==> states[k].readers[r].view.seen == states[k].publisher.version
  {
    assert StepsAt(states, actions, parse, k);
    RunKeepsInv(states, actions, parse, k);
    ClosedViewIsFrozen(states, actions, parse, k + 1, i, r);
  }

  /**
   * What a view holds once the publisher has closed, for good: the last document's value or error when it had seen
   * that version, and otherwise what it held when the publisher closed, the good value of the documents read before.
   */
  lemma ViewAfterClose<D, T>(
      states: seq<System<D, T>>, actions: seq<Action<D>>, parse: D -> Result<T, ConfigError>, k: nat, i: nat, r: nat)
    requires IsRun(states, actions, parse) && k < i < |states| && r < |states[i].readers|
    requires actions[k].FinishAction? && !states[k].publisher.closed
    ensures r < |states[k].readers| && states[k].publisher.raw.document.Some?
    ensures var before, view := states[k].readers[r].view, states[i].readers[r].view;
            && view.value == before.value && view.lastError == before.lastError && view.revision == before.revision
            && Some(view.value) == LastGood(states[k].readers[r].observed, parse)
            && (before.seen == states[k].publisher.version ==>
                  match parse(states[k].publisher.raw.document.value)
                  case Ok(value) => view.value == value && view.lastError.None?
                  case Err(error) => view.lastError == Some(error))
  {
    assert StepsAt(states, actions, parse, k);
    RunKeepsInv(states, actions, parse, k);
    ClosedViewIsFrozen(states, actions, parse, k + 1, i, r);
  }

  /** A document published just before the close may never reach a view: its task reads only the closed snapshot. */
  lemma CloseCanHideADocument(parse: int -> Result<int, ConfigError>)
    requires parse(1) == Ok(1) && parse(2) == Ok(2)
    ensures var p := PublishInitial(New(), 1).0;
            var view := Typed(p, Some(true), parse);
            var q := Finish(Publish(p, 2).0);
            && view.Ok? && q.raw.document == Some(2)
            && var after := Observe(q, view.value, parse);
               !after.running && after.seen == q.version && after.value == 1
  {
  }

  /** An accepted listener document stays current until the next one: neither an initial fetch nor the close replaces it. */
  lemma {:induction false} ListenerDocumentStays<D, T>(
      states: seq<System<D, T>>, actions: seq<Action<D>>, parse: D -> Result<T, ConfigError>, k: nat, i: nat)
    requires IsRun(states, actions, parse) && k < i < |states|
    requires actions[k].PublishAction? && !states[k].publisher.closed
    requires forall j :: k < j < i && actions[j].PublishAction? ==> states[j].publisher.closed
    ensures states[i].publisher.raw.document == Some(actions[k].document)
    decreases i
  {
    assert StepsAt(states, actions, parse, i - 1);
    RunKeepsInv(states, actions, parse, i - 1);
    if k < i - 1 { ListenerDocumentStays(states, actions, parse, k, i - 1); }
  }

  /** After the close every publication is refused and the raw cell never changes again. */
  lemma CloseIsFinal<D, T>(
      states: seq<System<D, T>>, actions: seq<Action<D>>, parse: D -> Result<T, ConfigError>, k: nat, i: nat, document: D)
    requires IsRun(states, actions, parse) && k <= i < |states| && states[k].publisher.closed
    ensures states[i].publisher == states[k].publisher
    ensures Publish(states[i].publisher, document).1 == Some(Cancelled)
    ensures PublishInitial(states[i].publisher, document).1 == Some(Cancelled)
  {
    CloseStays(states, actions, parse, k, i);
    RunKeepsInv(states, actions, parse, i);
  }
}
