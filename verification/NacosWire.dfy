/** What is on the wire between a registration and discovery, and exactly what discovery makes of it. */
module NacosWire {
  import opened Prelude
  import opened Service
  import opened Splitting
  import opened Capabilities
  import opened NacosCodec

  // ---------------------------------------------------------------------------------------------
  // Capabilities

  function PartAt(parts: seq<Text>, i: int): Text {
    if 0 <= i < |parts| then parts[i] else ""
  }

  /** A list without repetition over two texts has at most two parts. */
  lemma FewParts(parts: seq<Text>, a: Text, b: Text)
    requires Unrepeated(parts) && |parts| >= 1 && forall i :: 0 <= i < |parts| ==> parts[i] == a || parts[i] == b
    ensures parts == [a] || parts == [b] || parts == [a, b] || parts == [b, a]
  {
    assert |parts| > 2 ==> PartAt(parts, 0) != PartAt(parts, 1) && PartAt(parts, 1) != PartAt(parts, 2)
                           && PartAt(parts, 0) != PartAt(parts, 2);
    if |parts| == 1 {
      assert parts == [parts[0]];
    } else if |parts| == 2 {
      assert parts[0] != parts[1] && parts == [parts[0], parts[1]];
    }
  }

  /** The list of a written text over two names, and of no other text. */
  lemma PairLists(value: Text, a: Text, b: Text)
    requires a != b && ',' !in a && ',' !in b
    ensures var parts := Split(value, ',');
            && (Unrepeated(parts) && (forall i :: 0 <= i < |parts| ==> parts[i] == a || parts[i] == b)
                <==> value == a || value == b || value == a + "," + b || value == b + "," + a)
            && (value == a ==> parts == [a]) && (value == b ==> parts == [b])
            && (value == a + "," + b ==> parts == [a, b]) && (value == b + "," + a ==> parts == [b, a])
  {
    var parts := Split(value, ',');
    JoinSplit(value, ',');
    SplitPair(a, b);
    SplitPair(b, a);
    if Unrepeated(parts) && (forall i :: 0 <= i < |parts| ==> parts[i] == a || parts[i] == b) {
      FewParts(parts, a, b);
      if |parts| == 2 { assert Join(parts, ',') == parts[0] + [','] + Join([parts[1]], ','); }
    }
  }

  /** The version lists that are read, with what they stand for; a repeated or unknown version refuses the list. */
  lemma DecodedVersionsIff(value: Text, versions: HttpVersionSet)
    ensures DecodeVersions(value) == Some(versions)
            <==> || (value == "1.1" && versions == HttpVersionSet(true, false))
                 || (value == "2" && versions == HttpVersionSet(false, true))
                 || ((value == "1.1,2" || value == "2,1.1") && versions == HttpVersionSet(true, true))
  {
    assert "1.1" + "," + "2" == "1.1,2" && "2" + "," + "1.1" == "2,1.1";
    PairLists(value, "1.1", "2");
    VersionsAmong(Split(value, ','), "1.1", "2");
  }

  lemma VersionsAmong(parts: seq<Text>, a: Text, b: Text)
    requires a != b
    ensures parts == [a] ==> a in parts && b !in parts
    ensures parts == [b] ==> a !in parts && b in parts
    ensures parts == [a, b] || parts == [b, a] ==> a in parts && b in parts
  {
  }

  /** A written list of bindings: comma-separated valid ids, none twice. */
  ghost predicate ListsBindings(value: Text, parts: seq<Text>) {
    && parts != [] && Join(parts, ',') == value && Unrepeated(parts)
    && forall i :: 0 <= i < |parts| ==> IsBindingId(parts[i])
  }

  lemma DecodedBindingsIff(value: Text, parts: seq<Text>)
    ensures DecodeBindings(value) == Some(parts) <==> ListsBindings(value, parts)
  {
    JoinSplit(value, ',');
    if ListsBindings(value, parts) {
      forall i | 0 <= i < |parts| ensures ',' !in parts[i] { assert IsBindingId(parts[i]); }
      SplitJoin(parts, ',');
    }
  }

  /** The capabilities a list of versions, a list of bindings and a controls mark stand for. */
  ghost predicate Described(versions: Text, bindings: Text, controls: Option<Text>, c: EndpointCapabilities) {
    && DecodeVersions(versions) == Some(c.versions)
    && (exists parts :: ListsBindings(bindings, parts) && (forall id :: id in c.bindings <==> id in parts))
    && Ascending(c.bindings)
    && (c.controls <==> controls == Some("v1")) && (controls.None? || controls == Some("v1"))
  }

  lemma SameEmptiness(s: seq<Text>, t: seq<Text>)
    requires forall x :: x in s <==> x in t
    ensures s == [] <==> t == []
  {
    assert s != [] ==> s[0] in s;
    assert t != [] ==> t[0] in t;
  }

  /** Two sorted lists of the same texts are the same. */
  lemma {:induction false} AscendingIsUnique(s: seq<Text>, t: seq<Text>)
    requires Ascending(s) && Ascending(t) && forall x :: x in s <==> x in t
    ensures s == t
  {
    SameEmptiness(s, t);
    if s != [] {
      LessIsTotal(s[0], t[0]);
      FirstIsLeast(s, t);
      FirstIsLeast(t, s);
      assert s == [s[0]] + s[1..] && t == [t[0]] + t[1..];
      TailHolds(s);
      TailHolds(t);
      AscendingIsUnique(s[1..], t[1..]);
    }
  }

  /** The first of a sorted list is in any list of the same texts, and nothing there comes before it. */
  lemma FirstIsLeast(s: seq<Text>, t: seq<Text>)
    requires s != [] && t != [] && Ascending(s) && forall x :: x in s <==> x in t
    ensures t[0] == s[0] || Less(s[0], t[0])
  {
    assert t[0] in s;
    var i :| 0 <= i < |s| && s[i] == t[0];
  }

  lemma TailHolds(s: seq<Text>)
    requires s != [] && Ascending(s)
    ensures Ascending(s[1..]) && forall x :: x in s[1..] <==> x in s && x != s[0]
  {
    forall x | x in s && x != s[0] ensures x in s[1..] {
      var i :| 0 <= i < |s| && s[i] == x;
      assert s[1..][i - 1] == x;
    }
    forall x | x in s[1..] ensures x in s && x != s[0] {
      var i :| 0 <= i < |s[1..]| && s[1..][i] == x;
      assert s[i + 1] == x && Less(s[0], s[i + 1]);
      LessIsTotal(s[0], x);
    }
  }

  /** What is read of complete capability metadata. */
  lemma DescribedIff(keys: Keys, metadata: Metadata, convention: Convention, c: EndpointCapabilities)
    requires Get(metadata, keys.versions).Some? && Get(metadata, keys.bindings).Some?
    ensures DecodeCapabilities(keys, metadata, convention) == Some(c)
            <==> Described(Get(metadata, keys.versions).value, Get(metadata, keys.bindings).value,
                           Get(metadata, keys.controls), c)
  {
    var versions, bindings := Get(metadata, keys.versions).value, Get(metadata, keys.bindings).value;
    var ids := DecodeBindings(bindings);
    if ids.Some? {
      DecodedBindingsIff(bindings, ids.value);
      CollectSorts(ids.value);
    }
    if DecodeCapabilities(keys, metadata, convention) == Some(c) {
      assert ListsBindings(bindings, ids.value);
    }
    if parts :| ListsBindings(bindings, parts) && (forall id :: id in c.bindings <==> id in parts) {
      DecodedBindingsIff(bindings, parts);
      if Ascending(c.bindings) { AscendingIsUnique(c.bindings, Collect(parts)); }
    }
  }

  /**
   * Capabilities are read if and only if they are described in full, or not at all where convention supplies the
   * default ones: HTTP/1.1 with the one standard binding and no invocation controls.
   */
  lemma CapabilitiesReadIff(keys: Keys, metadata: Metadata, convention: Convention, c: EndpointCapabilities)
    ensures var versions, bindings, controls :=
              Get(metadata, keys.versions), Get(metadata, keys.bindings), Get(metadata, keys.controls);
            DecodeCapabilities(keys, metadata, convention) == Some(c)
            <==> || (&& versions.None? && bindings.None? && controls.None? && convention == SpringCloud
                     && c == EndpointCapabilities(HttpVersionSet(true, false), ["http-json-v1"], false))
                 || (versions.Some? && bindings.Some? && Described(versions.value, bindings.value, controls, c))
  {
    if Get(metadata, keys.versions).Some? && Get(metadata, keys.bindings).Some? {
      DescribedIff(keys, metadata, convention, c);
    }
  }

  // ---------------------------------------------------------------------------------------------
  // Instances

  /** The id an instance goes by: the one in its metadata, else the provider's, else one made of its address. */
  ghost predicate GoesBy(keys: Keys, n: NacosInstance, lib: Library, id: Text) {
    var made := "nacos:" + n.ip + ":" + lib.decimal(n.port);
    && IsInstanceId(id)
    && if keys.instanceId in n.metadata && IsInstanceId(n.metadata[keys.instanceId]) then id == n.metadata[keys.instanceId]
       else if keys.instanceId !in n.metadata && n.instanceId.Some? && IsInstanceId(n.instanceId.value)
       then id == n.instanceId.value
       else id == made
  }

  lemma InstanceIdIff(keys: Keys, n: NacosInstance, lib: Library, id: Text)
    ensures DecodeInstanceId(keys, n, lib) == Some(id) <==> GoesBy(keys, n, lib, id)
  {
  }

  /** The user's entries of some metadata: all but the reserved ones. */
  ghost predicate UserEntries(metadata: Metadata, user: Metadata) {
    forall key :: (key in user <==> key in metadata && !("fusen." <= key)) && (key in user ==> user[key] == metadata[key])
  }

  lemma UserEntriesAre(metadata: Metadata, user: Metadata)
    ensures UserEntries(metadata, user) <==> user == DecodedMetadata(metadata)
  {
  }

  /**
   * An instance is read if and only if its port, scheme, address, id, capabilities, weight and metadata keys are all
   * acceptable, and then as just these.
   */
  lemma DecodesIff(keys: Keys, n: NacosInstance, convention: Convention, lib: Library, found: ServiceInstance)
    ensures Decode(keys, n, convention, lib) == Some(found)
            <==> && 1 <= n.port <= 65535
                 && (keys.scheme in n.metadata ==>
                       n.metadata[keys.scheme] == "http" || n.metadata[keys.scheme] == "https")
                 && lib.endpoint(if keys.scheme in n.metadata then n.metadata[keys.scheme] else "http", n.ip, n.port,
                                 if keys.basePath in n.metadata then Some(n.metadata[keys.basePath]) else None)
                    == Some(found.endpoint)
                 && GoesBy(keys, n, lib, found.instanceId)
                 && DecodeCapabilities(keys, n.metadata, convention) == Some(found.capabilities)
                 && n.weight > 0.0 && found.weight == n.weight
                 && UserEntries(n.metadata, found.metadata)
                 && forall key :: key in found.metadata ==> lib.plainKey(key)
  {
    InstanceIdIff(keys, n, lib, found.instanceId);
    UserEntriesAre(n.metadata, found.metadata);
  }

  // ---------------------------------------------------------------------------------------------
  // The wire

  /** What a registration's instance is in the registry's own fields. */
  lemma AdvertisedAddress(keys: Keys, r: Registration)
    requires r.capabilities.bindings != []
    ensures Encode(keys, r).Some? <==> r.endpoint.host.Some? && r.endpoint.port.Some?
    ensures Encode(keys, r).Some? ==>
              var n, host := Encode(keys, r).value, r.endpoint.host.value;
              && n.port == r.endpoint.port.value && n.weight == r.weight && n.healthy && n.enabled
              && n.instanceId == Some(r.instanceId)
              && (if |host| >= 2 && host[0] == '[' && host[|host| - 1] == ']' then host == "[" + n.ip + "]"
                  else n.ip == host)
  {
  }

  /** The written form of a version set, and of the invocation controls. */
  lemma WrittenCapabilities(r: Registration)
    ensures EncodeVersions(HttpVersionSet(true, false)) == "1.1" && EncodeVersions(HttpVersionSet(false, true)) == "2"
    ensures EncodeVersions(HttpVersionSet(true, true)) == "1.1,2"
    ensures Controls(r) == if r.capabilities.controls then Some("v1") else None
  {
  }

  /** The reserved entries are written under these names, the ones other registrations are read by. */
  lemma WrittenKeys(r: Registration, lib: Library)
    requires ValidRegistration(r, lib)
    ensures Encode(KEYS, r).Some?
    ensures var m := Encode(KEYS, r).value.metadata;
            && Get(m, "fusen.scheme") == Some(r.endpoint.scheme)
            && Get(m, "fusen.service_id") == Some(r.selector.serviceId)
            && Get(m, "fusen.version") == r.selector.version
            && Get(m, "fusen.instance_id") == Some(r.instanceId)
            && Get(m, "fusen.http.bindings") == Some(Join(r.capabilities.bindings, ','))
            && Get(m, "fusen.http.versions") == Some(EncodeVersions(r.capabilities.versions))
            && Get(m, "fusen.invocation-controls") == (if r.capabilities.controls then Some("v1") else None)
            && Get(m, "fusen.base_path")
               == (if r.endpoint.path == "" || r.endpoint.path == "/" then None else Some(r.endpoint.path))
  {
    KeysAreWellFormed();
    EncodedValues(KEYS, r, lib);
  }
}
