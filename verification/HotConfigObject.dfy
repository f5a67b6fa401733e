/** The configuration publisher and one typed view's task, as objects. */
module HotConfigObject {
  import opened Prelude
  import opened HotConfigModel

  class ConfigPublisher<D(==)> {
    var revision: nat
    var baseline: Option<D>
    var closed: bool
    var raw: Raw<D>
    var version: nat

    ghost function View(): Publisher<D>
      reads this
    {
      Publisher(revision, baseline, closed, raw, version)
    }

    constructor ()
      ensures View() == New()
    {
      revision, baseline, closed, raw, version := 0, None, false, Raw(None, false), 0;
    }

    method SendReplace(next: Raw<D>)
      modifies this`raw, this`version
      ensures View() == Send(old(View()), next)
    {
      raw := next;
      version := version + 1;
    }

    method Publish(document: D) returns (error: Option<ConfigError>)
      modifies this
      ensures (View(), error) == HotConfigModel.Publish(old(View()), document)
    {
      if closed {
        return Some(Cancelled);
      }
      if revision + 1 > U64_MAX {
        return Some(RevisionOverflow);
      }
      revision := revision + 1;
      SendReplace(Raw(Some(document), false));
      error := None;
    }

    method PublishInitial(document: D) returns (error: Option<ConfigError>)
      modifies this
      ensures (View(), error) == HotConfigModel.PublishInitial(old(View()), document)
    {
      if closed {
        return Some(Cancelled);
      }
      baseline := Some(document);
      if raw.document.None? {
        if revision + 1 > U64_MAX {
          return Some(RevisionOverflow);
        }
        revision := revision + 1;
        SendReplace(Raw(Some(document), false));
      }
      error := None;
    }

    method Finish()
      modifies this
      ensures View() == HotConfigModel.Finish(old(View()))
    {
      if closed {
        return;
      }
      closed := true;
      revision := if revision + 1 > U64_MAX then U64_MAX else revision + 1;
      SendReplace(Raw(raw.document, true));
    }
  }

  class TypedView<D(==), T> {
    const parse: D -> Result<T, ConfigError>
    const source: ConfigPublisher<D>
    var value: T
    var revision: nat
    var lastError: Option<ConfigError>
    var seen: nat
    var running: bool

    ghost function View(): View<T>
      reads this
    {
      HotConfigModel.View(value, revision, lastError, seen, running)
    }

    constructor (source: ConfigPublisher<D>, parse: D -> Result<T, ConfigError>, value: T, lastError: Option<ConfigError>)
      ensures this.source == source && this.parse == parse
      ensures View() == HotConfigModel.View(value, 1, lastError, source.version, true)
    {
      this.source, this.parse, this.value, this.lastError := source, parse, value, lastError;
      revision, seen, running := 1, source.version, true;
    }

    /** One turn of the task's loop: reads the latest snapshot and keeps the old value unless the new one parses. */
    method Update()
      requires running && seen != source.version
      modifies this
      ensures View() == Observe(source.View(), old(View()), parse)
    {
      seen := source.version;
      if source.raw.closed {
        running := false;
        return;
      }
      if source.raw.document.None? {
        return;
      }
      var parsed := parse(source.raw.document.value);
      if parsed.Err? {
        lastError := Some(parsed.error);
        return;
      }
      if revision + 1 > U64_MAX {
        lastError := Some(RevisionOverflow);
        running := false;
        return;
      }
      revision := revision + 1;
      lastError := None;
      value := parsed.value;
    }
  }

  /** Subscribes to the source and builds a view from its opening documents, or says why there is none. */
  method OpenTyped<D(==), T>(source: ConfigPublisher<D>, activation: Option<bool>, parse: D -> Result<T, ConfigError>)
    returns (view: Result<TypedView<D, T>, ConfigError>)
    ensures match Typed(source.View(), activation, parse)
            case Ok(expected) =>
              view.Ok? && fresh(view.value) && view.value.View() == expected
              && view.value.source == source && view.value.parse == parse
            case Err(error) => view == Err(error)
  {
    if activation.None? {
      return Err(NotActivated);
    }
    if !activation.value {
      return Err(ActivationFailed);
    }
    if source.raw.closed {
      return Err(Cancelled);
    }
    var value: Option<T> := None;
    var lastError: Option<ConfigError> := None;
    if source.baseline.Some? {
      var parsed := parse(source.baseline.value);
      if parsed.Ok? {
        value := Some(parsed.value);
      } else {
        lastError := Some(parsed.error);
      }
    }
    if source.raw.document.Some? && source.baseline != source.raw.document {
      var parsed := parse(source.raw.document.value);
      if parsed.Ok? {
        value := Some(parsed.value);
        lastError := None;
      } else {
        lastError := Some(parsed.error);
      }
    }
    if value.None? {
      return Err(if lastError.Some? then lastError.value else NoInitialDocument);
    }
    var created := new TypedView(source, parse, value.value, lastError);
    view := Ok(created);
  }
}
