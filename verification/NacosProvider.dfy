/** The Nacos provider's loops and its snapshot gate, as they run. */
module NacosProvider {
  import opened Prelude
  import opened Service
  import opened Splitting
  import opened Capabilities
  import opened NacosCodec
  import opened DirectoryModel
  import opened DirectoryObject

  /** Fills the metadata map entry by entry: selector, registration, then the reserved keys. */
  method BuildInstance(r: Registration) returns (instance: Option<NacosInstance>)
    requires r.capabilities.bindings != []
    ensures instance == Encode(KEYS, r)
  {
    if r.endpoint.host.None? || r.endpoint.port.None? {
      return None;
    }
    var reserved := BuildReserved(KEYS, r);
    var metadata := r.selector.metadata;
    metadata := metadata + r.metadata;
    metadata := metadata + reserved;
    instance := Some(NacosInstance(Some(r.instanceId), Unbracketed(r.endpoint.host.value), r.endpoint.port.value, r.weight,
                                   true, true, metadata));
  }

  method BuildReserved(keys: Keys, r: Registration) returns (metadata: Metadata)
    requires r.capabilities.bindings != []
    ensures metadata == ReservedMetadata(keys, r)
  {
    metadata := map[];
    metadata := metadata[keys.scheme := r.endpoint.scheme];
    metadata := metadata[keys.serviceId := r.selector.serviceId];
    metadata := metadata[keys.instanceId := r.instanceId];
    metadata := metadata[keys.bindings := Join(r.capabilities.bindings, ',')];
    metadata := metadata[keys.versions := EncodeVersions(r.capabilities.versions)];
    assert metadata == RequiredMetadata(keys, r);
    metadata := InsertOptional(metadata, keys.controls, Controls(r));
    metadata := InsertOptional(metadata, keys.basePath, BasePath(r.endpoint));
    metadata := InsertOptional(metadata, keys.version, r.selector.version);
    metadata := InsertOptional(metadata, keys.group, r.selector.group);
  }

  method InsertOptional(metadata: Metadata, key: Text, value: Option<Text>) returns (after: Metadata)
    ensures after == metadata + Optionally(key, value)
  {
    after := metadata;
    if value.Some? {
      after := after[key := value.value];
    }
  }

  /** Reads binding ids until one is malformed or repeated. */
  method ReadBindings(value: Text) returns (bindings: Option<seq<Text>>)
    ensures bindings == DecodeBindings(value)
  {
    var parts := Split(value, ',');
    var seen: set<Text> := {};
    var read: seq<Text> := [];
    for i := 0 to |parts|
      invariant read == parts[..i] && Unrepeated(read)
      invariant forall k :: 0 <= k < i ==> IsBindingId(parts[k])
      invariant seen == set k | 0 <= k < i :: parts[k]
    {
      if !IsBindingId(parts[i]) {
        return None;
      }
      if parts[i] in seen {
        RepeatedPart(parts, i);
        return None;
      }
      seen := seen + {parts[i]};
      read := read + [parts[i]];
    }
    assert parts[..|parts|] == parts;
    bindings := if read != [] then Some(read) else None;
  }

  /** Reads versions into two flags until one is unknown or repeated. */
  method ReadHttpVersions(value: Text) returns (versions: Option<HttpVersionSet>)
    ensures versions == DecodeVersions(value)
  {
    var parts := Split(value, ',');
    var http1, http2 := false, false;
    for i := 0 to |parts|
      invariant http1 <==> "1.1" in parts[..i]
      invariant http2 <==> "2" in parts[..i]
      invariant Unrepeated(parts[..i])
      invariant forall k :: 0 <= k < i ==> parts[k] == "1.1" || parts[k] == "2"
      invariant i > 0 ==> http1 || http2
    {
      assert parts[..i + 1] == parts[..i] + [parts[i]];
      if parts[i] == "1.1" {
        if http1 {
          RepeatedPart(parts, i);
          return None;
        }
        http1 := true;
      } else if parts[i] == "2" {
        if http2 {
          RepeatedPart(parts, i);
          return None;
        }
        http2 := true;
      } else {
        return None;
      }
    }
    assert parts[..|parts|] == parts;
    versions := Some(HttpVersionSet(http1, http2));
  }

  lemma RepeatedPart(parts: seq<Text>, i: nat)
    requires i < |parts| && parts[i] in parts[..i]
    ensures !Unrepeated(parts)
  {
    var k :| 0 <= k < i && parts[..i][k] == parts[i];
  }

  // ---------------------------------------------------------------------------------------------
  // The snapshot gate

  type Instances = seq<Instance>

  /** The gate holds listener updates back until the initial selection is in. */
  datatype Gate = Gate(initialized: bool, pending: Option<Instances>, cell: Snapshot)

  datatype GateOp = Initialize(initial: Instances, now: nat) | Update(instances: Instances, now: nat)

  function Open(now: nat): Gate {
    Gate(false, None, Initial(now))
  }

  function PublishReady(cell: Snapshot, instances: Instances, now: nat): Result<Snapshot, DirectoryError> {
    Publish(cell, Ready, Some(instances), now)
  }

  function Pass(g: Gate, op: GateOp): Gate {
    match op
    case Initialize(initial, now) =>
      var published := PublishReady(g.cell, if g.pending.Some? then g.pending.value else initial, now);
      if published.Ok? then Gate(true, None, published.value) else g.(pending := None)
    case Update(instances, now) =>
      if !g.initialized then g.(pending := Some(instances))
      else
        var published := PublishReady(g.cell, instances, now);
        if published.Ok? then g.(cell := published.value) else g
  }

  function PassAll(now: nat, ops: seq<GateOp>): Gate {
    if ops == [] then Open(now) else Pass(PassAll(now, ops[..|ops| - 1]), ops[|ops| - 1])
  }

  /** The most recent listener update. */
  function LatestUpdate(ops: seq<GateOp>): Option<Instances> {
    if ops == [] then None
    else if ops[|ops| - 1].Update? then Some(ops[|ops| - 1].instances)
    else LatestUpdate(ops[..|ops| - 1])
  }

  predicate Uninitialized(ops: seq<GateOp>) {
    forall i :: 0 <= i < |ops| ==> ops[i].Update?
  }

  /** Before the initial selection is in, nothing is published and the latest update is held back. */
  lemma {:induction false} NothingBeforeInitialize(now: nat, ops: seq<GateOp>)
    requires Uninitialized(ops)
    ensures PassAll(now, ops) == Gate(false, LatestUpdate(ops), Initial(now))
  {
    if ops != [] { NothingBeforeInitialize(now, ops[..|ops| - 1]); }
  }

  /**
   * With one initialization among any updates, the directory is ready and shows the latest update, whichever side of
   * the initialization it came from; the initial selection shows only while there has been no update at all.
   */
  lemma {:induction false} LatestUpdateWins(now: nat, before: seq<GateOp>, initial: Instances, at: nat, after: seq<GateOp>)
    requires Uninitialized(before) && Uninitialized(after) && |after| < U64_MAX
    ensures var ops := before + [Initialize(initial, at)] + after;
            var g := PassAll(now, ops);
            && g.initialized && g.pending.None? && g.cell.state.Ready? && g.cell.revision == 1 + |after|
            && g.cell.instances == if LatestUpdate(ops).Some? then LatestUpdate(ops).value else initial
  {
    var ops := before + [Initialize(initial, at)] + after;
    var shorter := ops[..|ops| - 1];
    assert PassAll(now, ops) == Pass(PassAll(now, shorter), ops[|ops| - 1]);
    if after == [] {
      assert shorter == before && ops[|ops| - 1] == Initialize(initial, at);
      NothingBeforeInitialize(now, before);
    } else {
      assert shorter == before + [Initialize(initial, at)] + after[..|after| - 1];
      assert ops[|ops| - 1] == after[|after| - 1];
      LatestUpdateWins(now, before, initial, at, after[..|after| - 1]);
    }
  }

  class SnapshotGate {
    const publisher: DirectoryPublisher
    var initialized: bool
    var pending: Option<Instances>

    ghost predicate Valid()
      reads this, publisher
    {
      publisher.Valid() && publisher.holders > 0
    }

    ghost function View(): Gate
      reads this, publisher
    {
      Gate(initialized, pending, publisher.cell)
    }

    constructor (publisher: DirectoryPublisher)
      requires publisher.Valid() && publisher.holders > 0
      ensures Valid() && this.publisher == publisher && View() == Gate(false, None, publisher.cell)
    {
      this.publisher := publisher;
      initialized, pending := false, None;
    }

    method Initialize(initial: Instances, now: nat) returns (error: Option<DirectoryError>)
      requires Valid()
      modifies this, publisher
      ensures Valid() && View() == Pass(old(View()), GateOp.Initialize(initial, now))
      ensures error == if old(publisher.revision) < U64_MAX then None else Some(RevisionOverflow)
    {
      var snapshot := if pending.Some? then pending.value else initial;
      pending := None;
      var published := publisher.Publish(Ready, Some(snapshot), now);
      if published.Err? {
        return Some(published.error);
      }
      initialized := true;
      error := None;
    }

    method Update(instances: Instances, now: nat) returns (error: Option<DirectoryError>)
      requires Valid()
      modifies this, publisher
      ensures Valid() && View() == Pass(old(View()), GateOp.Update(instances, now))
      ensures error == if !initialized || old(publisher.revision) < U64_MAX then None else Some(RevisionOverflow)
    {
      if initialized {
        var published := publisher.Publish(Ready, Some(instances), now);
        if published.Err? {
          return Some(published.error);
        }
      } else {
        pending := Some(instances);
      }
      error := None;
    }
  }
}
