/** How a registration becomes a Nacos instance, and how discovery reads instances back. */
module NacosCodec {
  import opened Prelude
  import opened Service
  import opened Splitting
  import opened Capabilities

  const RESERVED_PREFIX: Text := "fusen."
  const INVOCATION_CONTROLS_V1: Text := "v1"

  /** The vocabulary of reserved metadata keys. */
  datatype Keys = Keys(
    scheme: Text, basePath: Text, serviceId: Text, version: Text, group: Text,
    instanceId: Text, bindings: Text, versions: Text, controls: Text)

  const KEYS := Keys("fusen.scheme", "fusen.base_path", "fusen.service_id", "fusen.version", "fusen.group",
                     "fusen.instance_id", "fusen.http.bindings", "fusen.http.versions", "fusen.invocation-controls")

  /** Every key is reserved and no two are the same. */
  ghost predicate WellFormed(k: Keys) {
    && IsReserved(k.scheme) && IsReserved(k.basePath) && IsReserved(k.serviceId) && IsReserved(k.version)
    && IsReserved(k.group) && IsReserved(k.instanceId) && IsReserved(k.bindings) && IsReserved(k.versions)
    && IsReserved(k.controls)
    && k.scheme !in {k.basePath, k.serviceId, k.version, k.group, k.instanceId, k.bindings, k.versions, k.controls}
    && k.basePath !in {k.serviceId, k.version, k.group, k.instanceId, k.bindings, k.versions, k.controls}
    && k.serviceId !in {k.version, k.group, k.instanceId, k.bindings, k.versions, k.controls}
    && k.version !in {k.group, k.instanceId, k.bindings, k.versions, k.controls}
    && k.group !in {k.instanceId, k.bindings, k.versions, k.controls}
    && k.instanceId !in {k.bindings, k.versions, k.controls}
    && k.bindings !in {k.versions, k.controls} && k.versions != k.controls
  }

  lemma KeysAreWellFormed()
    ensures WellFormed(KEYS)
  {
    assert |KEYS.scheme| == 12 && |KEYS.basePath| == 15 && |KEYS.serviceId| == 16 && |KEYS.version| == 13;
    assert |KEYS.group| == 11 && |KEYS.instanceId| == 17 && |KEYS.bindings| == 19 && |KEYS.versions| == 19;
    assert |KEYS.controls| == 25 && KEYS.bindings[11] != KEYS.versions[11];
  }

  type Metadata = map<Text, Text>

  datatype Convention = Canonical | SpringCloud

  /** A parsed endpoint; an absent port is one the scheme does not know a default for. */
  datatype Url = Url(scheme: Text, host: Option<Text>, port: Option<nat>, path: Text)

  datatype Registration = Registration(
    selector: Selector, instanceId: Text, endpoint: Url, capabilities: EndpointCapabilities, weight: real, metadata: Metadata)

  datatype NacosInstance = NacosInstance(
    instanceId: Option<Text>, ip: Text, port: int, weight: real, healthy: bool, enabled: bool, metadata: Metadata)

  datatype ServiceInstance = ServiceInstance(
    instanceId: Text, endpoint: Url, capabilities: EndpointCapabilities, weight: real, metadata: Metadata)

  /**
   * What only libraries decide: the shape of metadata keys, the endpoint behind a scheme, address, port and base path,
   * and the decimal text of a port.
   */
  datatype Library = Library(
    plainKey: Text -> bool, endpoint: (Text, Text, nat, Option<Text>) -> Option<Url>, decimal: int -> Text)

  predicate IsReserved(key: Text) {
    RESERVED_PREFIX <= key
  }

  ghost predicate ValidMetadata(metadata: Metadata, lib: Library) {
    forall key :: key in metadata ==> lib.plainKey(key) && !IsReserved(key)
  }

  predicate IsInstanceId(value: Text) {
    IsToken(value, c => IsIdentityChar(c) || c == ':')
  }

  /** What the constructors of a registration and its parts enforce. */
  ghost predicate ValidRegistration(r: Registration, lib: Library) {
    && ValidSelector(r.selector) && ValidMetadata(r.selector.metadata, lib) && ValidMetadata(r.metadata, lib)
    && IsInstanceId(r.instanceId) && ValidCapabilities(r.capabilities) && r.weight > 0.0
    && (r.endpoint.scheme == "http" || r.endpoint.scheme == "https")
    && r.endpoint.host.Some? && r.endpoint.port.Some? && 0 < r.endpoint.port.value < 65536
  }

  // ---------------------------------------------------------------------------------------------
  // Encoding

  /** Selector metadata, overlaid by the registration's own. */
  function UserMetadata(r: Registration): Metadata {
    r.selector.metadata + r.metadata
  }

  function Optionally(key: Text, value: Option<Text>): Metadata {
    if value.Some? then map[key := value.value] else map[]
  }

  function RequiredMetadata(keys: Keys, r: Registration): Metadata
    requires r.capabilities.bindings != []
  {
    map[keys.scheme := r.endpoint.scheme,
        keys.serviceId := r.selector.serviceId,
        keys.instanceId := r.instanceId,
        keys.bindings := Join(r.capabilities.bindings, ','),
        keys.versions := EncodeVersions(r.capabilities.versions)]
  }

  function Controls(r: Registration): Option<Text> {
    if r.capabilities.controls then Some(INVOCATION_CONTROLS_V1) else None
  }

  function ReservedMetadata(keys: Keys, r: Registration): Metadata
    requires r.capabilities.bindings != []
  {
    RequiredMetadata(keys, r)
    + Optionally(keys.controls, Controls(r)) + Optionally(keys.basePath, BasePath(r.endpoint))
    + Optionally(keys.version, r.selector.version) + Optionally(keys.group, r.selector.group)
  }

  function BasePath(url: Url): Option<Text> {
    if url.path != "/" && url.path != "" then Some(url.path) else None
  }

  /** An IPv6 host without its brackets. */
  function Unbracketed(host: Text): Text {
    if |host| >= 2 && host[0] == '[' && host[|host| - 1] == ']' then host[1..|host| - 1] else host
  }

  function Encode(keys: Keys, r: Registration): Option<NacosInstance>
    requires r.capabilities.bindings != []
  {
    if r.endpoint.host.None? || r.endpoint.port.None? then None
    else Some(NacosInstance(Some(r.instanceId), Unbracketed(r.endpoint.host.value), r.endpoint.port.value, r.weight,
                            true, true, UserMetadata(r) + ReservedMetadata(keys, r)))
  }

  // ---------------------------------------------------------------------------------------------
  // Decoding

  function Get(metadata: Metadata, key: Text): Option<Text> {
    if key in metadata then Some(metadata[key]) else None
  }

  predicate MatchesSelector(keys: Keys, instance: NacosInstance, selector: Selector, convention: Convention) {
    && Get(instance.metadata, keys.version) == selector.version
    && (if keys.serviceId in instance.metadata then instance.metadata[keys.serviceId] == selector.serviceId
        else convention.SpringCloud?)
  }

  /** No capability metadata at all is accepted by convention; partial or unknown metadata never is. */
  function DecodeCapabilities(keys: Keys, metadata: Metadata, convention: Convention): Option<EndpointCapabilities> {
    var bindings, versions, controls :=
      Get(metadata, keys.bindings), Get(metadata, keys.versions), Get(metadata, keys.controls);
    if bindings.None? && versions.None? && controls.None? then
      if convention.SpringCloud? then Some(DEFAULT_CAPABILITIES) else None
    else if bindings.None? || versions.None? then None
    else
      var ids, versionSet := DecodeBindings(bindings.value), DecodeVersions(versions.value);
      if ids.None? || versionSet.None? || (controls.Some? && controls.value != INVOCATION_CONTROLS_V1) then None
      else NewCapabilities(versionSet.value, ids.value, controls.Some?)
  }

  function DecodedMetadata(metadata: Metadata): Metadata {
    map key | key in metadata && !IsReserved(key) :: metadata[key]
  }

  /** The metadata's id, else the provider's, when that is a valid one; else one made of the address. */
  function DecodeInstanceId(keys: Keys, instance: NacosInstance, lib: Library): Option<Text> {
    var declared := Get(instance.metadata, keys.instanceId);
    var given := if declared.Some? then declared else instance.instanceId;
    var made := "nacos:" + instance.ip + ":" + lib.decimal(instance.port);
    if given.Some? && IsInstanceId(given.value) then given
    else if IsInstanceId(made) then Some(made) else None
  }

  predicate AllPlain(metadata: Metadata, lib: Library) {
    forall key :: key in metadata ==> lib.plainKey(key)
  }

  function Decode(keys: Keys, instance: NacosInstance, convention: Convention, lib: Library): Option<ServiceInstance> {
    if instance.port <= 0 || instance.port >= 65536 then None
    else
      var scheme := Get(instance.metadata, keys.scheme);
      var schemeName := if scheme.Some? then scheme.value else "http";
      if schemeName != "http" && schemeName != "https" then None
      else
        var url := lib.endpoint(schemeName, instance.ip, instance.port, Get(instance.metadata, keys.basePath));
        var id, capabilities :=
          DecodeInstanceId(keys, instance, lib), DecodeCapabilities(keys, instance.metadata, convention);
        var user := DecodedMetadata(instance.metadata);
        if url.None? || id.None? || capabilities.None? || instance.weight <= 0.0 || !AllPlain(user, lib) then None
        else Some(ServiceInstance(id.value, url.value, capabilities.value, instance.weight, user))
  }

  predicate Routable(keys: Keys, instance: NacosInstance, selector: Selector, convention: Convention) {
    instance.healthy && instance.enabled && instance.weight > 0.0 && MatchesSelector(keys, instance, selector, convention)
  }

  function FilterMap<A, B>(pick: A -> Option<B>, items: seq<A>): seq<B> {
    if items == [] then []
    else
      var picked := pick(items[0]);
      (if picked.Some? then [picked.value] else []) + FilterMap(pick, items[1..])
  }

  function Pick(keys: Keys, selector: Selector, convention: Convention, lib: Library)
    : NacosInstance -> Option<ServiceInstance>
  {
    n => if Routable(keys, n, selector, convention) then Decode(keys, n, convention, lib) else None
  }

  /** The instances a selection yields: the routable ones that decode, in order. */
  function ToServiceInstances(
    keys: Keys, instances: seq<NacosInstance>, selector: Selector, convention: Convention, lib: Library)
    : seq<ServiceInstance>
  {
    FilterMap(Pick(keys, selector, convention, lib), instances)
  }

  // ---------------------------------------------------------------------------------------------
  // Round trip

  /** User keys and reserved keys never collide, so decoding separates them again. */
  lemma MetadataRoundTrip(keys: Keys, r: Registration, lib: Library)
    requires WellFormed(keys) && ValidRegistration(r, lib)
    ensures var metadata := UserMetadata(r) + ReservedMetadata(keys, r);
            && DecodedMetadata(metadata) == UserMetadata(r)
            && forall key :: IsReserved(key) ==> Get(metadata, key) == Get(ReservedMetadata(keys, r), key)
  {
    var user, reserved := UserMetadata(r), ReservedMetadata(keys, r);
    ReservedKeysAreReserved(keys, r);
    forall key | key in user ensures !IsReserved(key) {}
  }

  lemma ReservedKeysAreReserved(keys: Keys, r: Registration)
    requires WellFormed(keys) && r.capabilities.bindings != []
    ensures forall key :: key in ReservedMetadata(keys, r) ==> IsReserved(key)
  {
  }

  lemma OptionalLookup(m: Metadata, key: Text, value: Option<Text>, k: Text)
    ensures Get(m + Optionally(key, value), k) == if k == key && value.Some? then value else Get(m, k)
  {
  }

  /** A reserved key that is none of the optional ones is looked up among the required ones. */
  lemma ReservedLookup(keys: Keys, r: Registration, k: Text)
    requires r.capabilities.bindings != []
    ensures Get(ReservedMetadata(keys, r), k)
            == if k == keys.group && r.selector.group.Some? then r.selector.group
               else if k == keys.version && r.selector.version.Some? then r.selector.version
               else if k == keys.basePath && BasePath(r.endpoint).Some? then BasePath(r.endpoint)
               else if k == keys.controls && Controls(r).Some? then Controls(r)
               else Get(RequiredMetadata(keys, r), k)
  {
    var m0 := RequiredMetadata(keys, r);
    var m1 := m0 + Optionally(keys.controls, Controls(r));
    var m2 := m1 + Optionally(keys.basePath, BasePath(r.endpoint));
    var m3 := m2 + Optionally(keys.version, r.selector.version);
    OptionalLookup(m0, keys.controls, Controls(r), k);
    OptionalLookup(m1, keys.basePath, BasePath(r.endpoint), k);
    OptionalLookup(m2, keys.version, r.selector.version, k);
    OptionalLookup(m3, keys.group, r.selector.group, k);
  }

  lemma RequiredValues(keys: Keys, r: Registration)
    requires WellFormed(keys) && r.capabilities.bindings != []
    ensures var m := RequiredMetadata(keys, r);
            && Get(m, keys.scheme) == Some(r.endpoint.scheme)
            && Get(m, keys.serviceId) == Some(r.selector.serviceId)
            && Get(m, keys.instanceId) == Some(r.instanceId)
            && Get(m, keys.bindings) == Some(Join(r.capabilities.bindings, ','))
            && Get(m, keys.versions) == Some(EncodeVersions(r.capabilities.versions))
            && Get(m, keys.controls) == Get(m, keys.basePath) == Get(m, keys.version) == Get(m, keys.group) == None
  {
  }

  /** None of the nine reserved keys overwrites another. */
  lemma ReservedValues(keys: Keys, r: Registration)
    requires WellFormed(keys) && r.capabilities.bindings != []
    ensures var m := ReservedMetadata(keys, r);
            && Get(m, keys.scheme) == Some(r.endpoint.scheme)
            && Get(m, keys.serviceId) == Some(r.selector.serviceId)
            && Get(m, keys.instanceId) == Some(r.instanceId)
            && Get(m, keys.bindings) == Some(Join(r.capabilities.bindings, ','))
            && Get(m, keys.versions) == Some(EncodeVersions(r.capabilities.versions))
            && Get(m, keys.controls) == Controls(r) && Get(m, keys.basePath) == BasePath(r.endpoint)
            && Get(m, keys.version) == r.selector.version && Get(m, keys.group) == r.selector.group
  {
    RequiredValues(keys, r);
    ReservedLookup(keys, r, keys.scheme);
    ReservedLookup(keys, r, keys.serviceId);
    ReservedLookup(keys, r, keys.instanceId);
    ReservedLookup(keys, r, keys.bindings);
    ReservedLookup(keys, r, keys.versions);
    ReservedLookup(keys, r, keys.controls);
    ReservedLookup(keys, r, keys.basePath);
    ReservedLookup(keys, r, keys.version);
    ReservedLookup(keys, r, keys.group);
  }

  /** What reads back as given capabilities. */
  predicate Describes(keys: Keys, metadata: Metadata, c: EndpointCapabilities)
    requires c.bindings != []
  {
    && Get(metadata, keys.bindings) == Some(Join(c.bindings, ','))
    && Get(metadata, keys.versions) == Some(EncodeVersions(c.versions))
    && Get(metadata, keys.controls) == if c.controls then Some(INVOCATION_CONTROLS_V1) else None
  }

  lemma DescribedCapabilities(keys: Keys, metadata: Metadata, c: EndpointCapabilities, convention: Convention)
    requires ValidCapabilities(c) && Describes(keys, metadata, c)
    ensures DecodeCapabilities(keys, metadata, convention) == Some(c)
  {
    BindingsRoundTrip(c.bindings);
    VersionsRoundTrip(c.versions);
    CollectAscending(c.bindings);
  }

  /** The reserved values survive next to the user's. */
  lemma EncodedValues(keys: Keys, r: Registration, lib: Library)
    requires WellFormed(keys) && ValidRegistration(r, lib)
    ensures var m := UserMetadata(r) + ReservedMetadata(keys, r);
            && Get(m, keys.scheme) == Some(r.endpoint.scheme) && Get(m, keys.basePath) == BasePath(r.endpoint)
            && Get(m, keys.serviceId) == Some(r.selector.serviceId) && Get(m, keys.version) == r.selector.version
            && Get(m, keys.instanceId) == Some(r.instanceId)
            && Describes(keys, m, r.capabilities)
  {
    MetadataRoundTrip(keys, r, lib);
    ReservedValues(keys, r);
  }

  /** The capability metadata that is written reads back as the same capabilities, under either convention. */
  lemma CapabilitiesRoundTrip(keys: Keys, r: Registration, lib: Library, convention: Convention)
    requires WellFormed(keys) && ValidRegistration(r, lib)
    ensures DecodeCapabilities(keys, UserMetadata(r) + ReservedMetadata(keys, r), convention) == Some(r.capabilities)
  {
    EncodedValues(keys, r, lib);
    DescribedCapabilities(keys, UserMetadata(r) + ReservedMetadata(keys, r), r.capabilities, convention);
  }

  lemma DecodeParts(keys: Keys, instance: NacosInstance, convention: Convention, lib: Library,
                    scheme: Text, basePath: Option<Text>, id: Text, c: EndpointCapabilities, user: Metadata)
    requires 0 < instance.port < 65536 && instance.weight > 0.0 && (scheme == "http" || scheme == "https")
    requires Get(instance.metadata, keys.scheme) == Some(scheme) && Get(instance.metadata, keys.basePath) == basePath
    requires Get(instance.metadata, keys.instanceId) == Some(id) && IsInstanceId(id)
    requires DecodeCapabilities(keys, instance.metadata, convention) == Some(c)
    requires DecodedMetadata(instance.metadata) == user && AllPlain(user, lib)
    ensures var url := lib.endpoint(scheme, instance.ip, instance.port, basePath);
            Decode(keys, instance, convention, lib)
            == if url.None? then None else Some(ServiceInstance(id, url.value, c, instance.weight, user))
  {
    assert DecodeInstanceId(keys, instance, lib) == Some(id);
  }

  /** The address written is the host without the brackets of an IPv6 literal. */
  lemma UnbracketedHost(host: Text)
    ensures host == Unbracketed(host) || host == "[" + Unbracketed(host) + "]"
    ensures Unbracketed(host) == host <==> !(|host| >= 2 && host[0] == '[' && host[|host| - 1] == ']')
  {
  }

  /** An endpoint read back from the address, the port and the path that were registered. */
  function Readdressed(r: Registration, lib: Library): Option<Url>
    requires r.endpoint.host.Some? && r.endpoint.port.Some?
  {
    lib.endpoint(r.endpoint.scheme, Unbracketed(r.endpoint.host.value), r.endpoint.port.value,
                 if r.endpoint.path == "" || r.endpoint.path == "/" then None else Some(r.endpoint.path))
  }

  /**
   * Discovery reads a registration back: same id, capabilities and weight, the endpoint of its own scheme, host, port
   * and path, and the overlaid user metadata.
   */
  lemma RegistrationRoundTrip(keys: Keys, r: Registration, lib: Library, convention: Convention)
    requires WellFormed(keys) && ValidRegistration(r, lib)
    ensures Encode(keys, r).Some?
    ensures Decode(keys, Encode(keys, r).value, convention, lib)
            == match Readdressed(r, lib)
               case None => None
               case Some(url) =>
                 Some(ServiceInstance(r.instanceId, url, r.capabilities, r.weight, r.selector.metadata + r.metadata))
  {
    EncodedReadsBack(keys, r, lib, convention);
  }

  lemma EncodedReadsBack(keys: Keys, r: Registration, lib: Library, convention: Convention)
    requires WellFormed(keys) && ValidRegistration(r, lib)
    ensures Encode(keys, r).Some?
    ensures var instance := Encode(keys, r).value;
            var url := lib.endpoint(r.endpoint.scheme, instance.ip, instance.port, BasePath(r.endpoint));
            Decode(keys, instance, convention, lib)
            == if url.None? then None
               else Some(ServiceInstance(r.instanceId, url.value, r.capabilities, r.weight, UserMetadata(r)))
  {
    CapabilitiesRoundTrip(keys, r, lib, convention);
    MetadataRoundTrip(keys, r, lib);
    EncodedValues(keys, r, lib);
    DecodeParts(keys, Encode(keys, r).value, convention, lib, r.endpoint.scheme, BasePath(r.endpoint),
                r.instanceId, r.capabilities, UserMetadata(r));
  }

  /** An encoded instance is found by its own selector, and by no selector with another service or version. */
  lemma OwnSelectorMatchesIff(keys: Keys, r: Registration, lib: Library, convention: Convention, selector: Selector)
    requires WellFormed(keys) && ValidRegistration(r, lib)
    ensures MatchesSelector(keys, Encode(keys, r).value, selector, convention)
            <==> selector.serviceId == r.selector.serviceId && selector.version == r.selector.version
    ensures Routable(keys, Encode(keys, r).value, r.selector, convention)
  {
    EncodedValues(keys, r, lib);
  }

  /** Whatever metadata is read, the capabilities that come out are valid. */
  lemma DecodedCapabilitiesAreValid(keys: Keys, metadata: Metadata, convention: Convention)
    requires DecodeCapabilities(keys, metadata, convention).Some?
    ensures ValidCapabilities(DecodeCapabilities(keys, metadata, convention).value)
  {
    var bindings := Get(metadata, keys.bindings);
    if bindings.Some? && DecodeBindings(bindings.value).Some? {
      var ids := DecodeBindings(bindings.value).value;
      CollectSorts(ids);
      var sorted := Collect(ids);
      assert ids[0] in sorted;
      forall i | 0 <= i < |sorted| ensures IsBindingId(sorted[i]) { assert sorted[i] in ids; }
    }
    if Get(metadata, keys.versions).Some? {
      var parts := Split(Get(metadata, keys.versions).value, ',');
      assert parts[0] in parts;
    }
    assert IsBindingId("http-json-v1");
  }

  /**
   * A selection yields exactly the decoded forms of the healthy, enabled instances of positive weight that carry the
   * selector's version and service; only the Spring Cloud convention lets the service be absent.
   */
  lemma SelectedIff(
    keys: Keys, instances: seq<NacosInstance>, selector: Selector, convention: Convention, lib: Library,
    found: ServiceInstance)
    ensures found in ToServiceInstances(keys, instances, selector, convention, lib)
            <==> exists n :: && n in instances && n.healthy && n.enabled && n.weight > 0.0
                             && (match selector.version
                                 case None => keys.version !in n.metadata
                                 case Some(version) => keys.version in n.metadata && n.metadata[keys.version] == version)
                             && (if keys.serviceId in n.metadata then n.metadata[keys.serviceId] == selector.serviceId
                                 else convention == SpringCloud)
                             && Decode(keys, n, convention, lib) == Some(found)
  {
    PickedIff(Pick(keys, selector, convention, lib), instances, found);
    forall n | n in instances
      ensures Pick(keys, selector, convention, lib)(n) == Some(found)
              <==> && n.healthy && n.enabled && n.weight > 0.0
                   && (match selector.version
                       case None => keys.version !in n.metadata
                       case Some(version) => keys.version in n.metadata && n.metadata[keys.version] == version)
                   && (if keys.serviceId in n.metadata then n.metadata[keys.serviceId] == selector.serviceId
                       else convention == SpringCloud)
                   && Decode(keys, n, convention, lib) == Some(found)
    {
    }
  }

  lemma {:induction false} PickedIff<A, B>(pick: A -> Option<B>, items: seq<A>, found: B)
    ensures found in FilterMap(pick, items) <==> exists n :: n in items && pick(n) == Some(found)
  {
    if items != [] {
      PickedIff(pick, items[1..], found);
      assert items == [items[0]] + items[1..];
    }
  }

  lemma {:induction false} FilterMapConcatenates<A, B>(pick: A -> Option<B>, a: seq<A>, b: seq<A>)
    ensures FilterMap(pick, a + b) == FilterMap(pick, a) + FilterMap(pick, b) && |FilterMap(pick, a)| <= |a|
  {
    if a == [] {
      assert a + b == b;
    } else {
      assert (a + b)[1..] == a[1..] + b;
      FilterMapConcatenates(pick, a[1..], b);
    }
  }

  /** A selection keeps the order, and yields each instance at most once. */
  lemma SelectionConcatenates(
    keys: Keys, a: seq<NacosInstance>, b: seq<NacosInstance>, selector: Selector, convention: Convention, lib: Library)
    ensures ToServiceInstances(keys, a + b, selector, convention, lib)
            == ToServiceInstances(keys, a, selector, convention, lib)
               + ToServiceInstances(keys, b, selector, convention, lib)
    ensures |ToServiceInstances(keys, a, selector, convention, lib)| <= |a|
  {
    FilterMapConcatenates(Pick(keys, selector, convention, lib), a, b);
  }

  /** A registered instance is among those its own selector yields, described as it was registered. */
  lemma RegisteredIsDiscovered(
    keys: Keys, r: Registration, others: seq<NacosInstance>, convention: Convention, lib: Library)
    requires WellFormed(keys) && ValidRegistration(r, lib) && Encode(keys, r).value in others
    ensures Readdressed(r, lib).Some? ==>
              ServiceInstance(r.instanceId, Readdressed(r, lib).value, r.capabilities, r.weight,
                              r.selector.metadata + r.metadata)
              in ToServiceInstances(keys, others, r.selector, convention, lib)
  {
    RegistrationRoundTrip(keys, r, lib, convention);
    OwnSelectorMatchesIff(keys, r, lib, convention, r.selector);
    if Readdressed(r, lib).Some? {
      SelectedIff(keys, others, r.selector, convention, lib,
                  ServiceInstance(r.instanceId, Readdressed(r, lib).value, r.capabilities, r.weight,
                                  r.selector.metadata + r.metadata));
    }
  }
}
