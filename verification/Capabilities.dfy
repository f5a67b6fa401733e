/** Endpoint capabilities: binding ids kept as a sorted set, HTTP versions, and their comma-separated encodings. */
module Capabilities {
  import opened Prelude
  import opened Service
  import opened Splitting

  const MAX_BINDING_BYTES: nat := 64

  predicate IsBindingChar(c: char) {
    ('a' <= c <= 'z') || ('0' <= c <= '9')
  }

  /** Lowercase letters and digits in non-empty segments separated by '-' or '.'. */
  predicate IsBindingId(id: Text) {
    && 1 <= |id| <= MAX_BINDING_BYTES
    && (forall i :: 0 <= i < |id| ==> IsBindingChar(id[i]) || IsSeparator(id[i]))
    && !IsSeparator(id[0]) && !IsSeparator(id[|id| - 1])
    && (forall i :: 0 < i < |id| ==> !(IsSeparator(id[i - 1]) && IsSeparator(id[i])))
  }

  predicate IsSeparator(c: char) {
    c == '-' || c == '.'
  }

  // ---------------------------------------------------------------------------------------------
  // Sorted sets of texts

  predicate Less(a: Text, b: Text) {
    if a == [] then b != []
    else b != [] && (a[0] < b[0] || (a[0] == b[0] && Less(a[1..], b[1..])))
  }

  lemma {:induction false} LessIsTotal(a: Text, b: Text)
    ensures !(Less(a, b) && Less(b, a)) && (a != b <==> Less(a, b) || Less(b, a))
  {
    if a != [] && b != [] {
      LessIsTotal(a[1..], b[1..]);
      assert a == [a[0]] + a[1..] && b == [b[0]] + b[1..];
    }
  }

  lemma {:induction false} LessIsTransitive(a: Text, b: Text, c: Text)
    requires Less(a, b) && Less(b, c)
    ensures Less(a, c)
  {
    if a != [] && b != [] && c != [] && a[0] == b[0] == c[0] {
      LessIsTransitive(a[1..], b[1..], c[1..]);
    }
  }

  predicate Ascending(s: seq<Text>) {
    forall i, j :: 0 <= i < j < |s| ==> Less(s[i], s[j])
  }

  /** Inserts into a sorted set. */
  function Insert(s: seq<Text>, x: Text): seq<Text> {
    if s == [] then [x]
    else if s[0] == x then s
    else if Less(x, s[0]) then [x] + s
    else [s[0]] + Insert(s[1..], x)
  }

  function Collect(items: seq<Text>): seq<Text> {
    if items == [] then [] else Insert(Collect(items[..|items| - 1]), items[|items| - 1])
  }

  lemma {:induction false} InsertSorts(s: seq<Text>, x: Text)
    requires Ascending(s)
    ensures Ascending(Insert(s, x))
    ensures forall y :: y in Insert(s, x) <==> y == x || y in s
  {
    if s != [] {
      InsertSorts(s[1..], x);
      assert s == [s[0]] + s[1..];
      LessIsTotal(x, s[0]);
      if s[0] == x {
      } else if Less(x, s[0]) {
        forall j | 0 < j < |s| ensures Less(x, s[j]) { LessIsTransitive(x, s[0], s[j]); }
      } else {
        var rest := Insert(s[1..], x);
        forall j | 0 <= j < |rest| ensures Less(s[0], rest[j]) {
          assert rest[j] in rest;
        }
      }
    }
  }

  /** Collecting gives a sorted list of exactly the items. */
  lemma {:induction false} CollectSorts(items: seq<Text>)
    ensures Ascending(Collect(items))
    ensures forall y :: y in Collect(items) <==> y in items
  {
    if items != [] {
      var shorter, last := items[..|items| - 1], items[|items| - 1];
      CollectSorts(shorter);
      InsertSorts(Collect(shorter), last);
      assert items == shorter + [last];
    }
  }

  lemma {:induction false} InsertLast(s: seq<Text>, x: Text)
    requires forall i :: 0 <= i < |s| ==> Less(s[i], x)
    ensures Insert(s, x) == s + [x]
  {
    if s != [] {
      LessIsTotal(s[0], x);
      InsertLast(s[1..], x);
      assert s + [x] == [s[0]] + (s[1..] + [x]);
    }
  }

  /** A list that is sorted already is collected as it is. */
  lemma {:induction false} CollectAscending(s: seq<Text>)
    requires Ascending(s)
    ensures Collect(s) == s
  {
    if s != [] {
      var shorter, last := s[..|s| - 1], s[|s| - 1];
      CollectAscending(shorter);
      InsertLast(shorter, last);
      assert s == shorter + [last];
    }
  }

  // ---------------------------------------------------------------------------------------------
  // Capabilities

  datatype HttpVersionSet = HttpVersionSet(http11: bool, http2: bool)

  const HTTP_1_1 := HttpVersionSet(true, false)
  const HTTP_2 := HttpVersionSet(false, true)

  datatype EndpointCapabilities = EndpointCapabilities(versions: HttpVersionSet, bindings: seq<Text>, controls: bool)

  const DEFAULT_CAPABILITIES := EndpointCapabilities(HTTP_1_1, ["http-json-v1"], false)

  predicate ValidCapabilities(c: EndpointCapabilities) {
    && (c.versions.http11 || c.versions.http2)
    && c.bindings != [] && Ascending(c.bindings)
    && forall i :: 0 <= i < |c.bindings| ==> IsBindingId(c.bindings[i])
  }

  function NewCapabilities(versions: HttpVersionSet, bindings: seq<Text>, controls: bool): Option<EndpointCapabilities> {
    if bindings == [] then None else Some(EndpointCapabilities(versions, Collect(bindings), controls))
  }

  function EncodeVersions(versions: HttpVersionSet): Text {
    if versions == HTTP_1_1 then "1.1" else if versions == HTTP_2 then "2" else "1.1,2"
  }

  predicate Unrepeated(parts: seq<Text>) {
    forall i, j :: 0 <= i < j < |parts| ==> parts[i] != parts[j]
  }

  /** A comma-separated list of known versions without repetition. */
  function DecodeVersions(value: Text): Option<HttpVersionSet> {
    var parts := Split(value, ',');
    if Unrepeated(parts) && forall i :: 0 <= i < |parts| ==> parts[i] == "1.1" || parts[i] == "2"
    then Some(HttpVersionSet("1.1" in parts, "2" in parts)) else None
  }

  /** A comma-separated list of binding ids without repetition. */
  function DecodeBindings(value: Text): Option<seq<Text>> {
    var parts := Split(value, ',');
    if Unrepeated(parts) && forall i :: 0 <= i < |parts| ==> IsBindingId(parts[i]) then Some(parts) else None
  }

  lemma SplitPair(a: Text, b: Text)
    requires ',' !in a && ',' !in b
    ensures Split(a, ',') == [a] && Split(a + "," + b, ',') == [a, b]
  {
    SplitJoin([a], ',');
    SplitJoin([a, b], ',');
    assert [a, b][1..] == [b];
    assert Join([a, b], ',') == a + [','] + Join([b], ',') == a + "," + b;
  }

  lemma VersionsRoundTrip(versions: HttpVersionSet)
    requires versions.http11 || versions.http2
    ensures DecodeVersions(EncodeVersions(versions)) == Some(versions)
  {
    SplitPair("1.1", "2");
    SplitPair("2", "1.1");
    assert "1.1" + "," + "2" == "1.1,2";
    var both: seq<Text> := ["1.1", "2"];
    assert both[0] != both[1];
  }

  lemma BindingsRoundTrip(bindings: seq<Text>)
    requires bindings != [] && Ascending(bindings) && forall i :: 0 <= i < |bindings| ==> IsBindingId(bindings[i])
    ensures DecodeBindings(Join(bindings, ',')) == Some(bindings)
  {
    forall i | 0 <= i < |bindings| ensures ',' !in bindings[i] {
      assert IsBindingId(bindings[i]);
    }
    SplitJoin(bindings, ',');
    forall i, j | 0 <= i < j < |bindings| ensures bindings[i] != bindings[j] {
      LessIsTotal(bindings[i], bindings[j]);
    }
  }
}
