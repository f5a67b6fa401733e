/** Route templates as bytes: what both validators must accept, and what a route's shape identifies. */
module Routes {
  import opened Prelude
  import opened Splitting

  type Bytes = seq<bv8>

  const SLASH: bv8 := 0x2F
  const PERCENT: bv8 := 0x25
  const OPEN_BRACE: bv8 := 0x7B
  const CLOSE_BRACE: bv8 := 0x7D
  const DOT: bv8 := 0x2E

  /** Text classification that only the standard library can decide. */
  datatype Unicode = Unicode(valid: Bytes -> bool, whitespace: Bytes -> bool, control: Bytes -> bool)

  predicate IsAlphanumeric(b: bv8) {
    (0x30 <= b <= 0x39) || (0x41 <= b <= 0x5A) || (0x61 <= b <= 0x7A)
  }

  /** An unreserved character, a sub-delimiter, ':' or '@': pchar without the percent escapes, RFC 3986 section 3.3. */
  predicate IsPchar(b: bv8) {
    IsAlphanumeric(b)
    || b in [0x2D, 0x2E, 0x5F, 0x7E, 0x21, 0x24, 0x26, 0x27, 0x28, 0x29, 0x2A, 0x2B, 0x2C, 0x3B, 0x3D, 0x3A, 0x40]
  }

  predicate IsIdentityByte(b: bv8) {
    IsAlphanumeric(b) || b in [0x2E, 0x5F, 0x2D]
  }

  predicate IsIdentity(value: Bytes) {
    IsToken(value, IsIdentityByte)
  }

  // ---------------------------------------------------------------------------------------------
  // Literals

  predicate IsUpperHex(b: bv8) {
    (0x30 <= b <= 0x39) || (0x41 <= b <= 0x46)
  }

  function HexValue(b: bv8): (r: bv8)
    requires IsUpperHex(b)
    ensures r <= 15
  {
    if b <= 0x39 then b - 0x30 else b - 0x41 + 10
  }

  function HexDigit(n: bv8): (r: bv8)
    requires n <= 15
    ensures IsUpperHex(r) && HexValue(r) == n
  {
    if n <= 9 then n + 0x30 else n - 10 + 0x41
  }

  function Prepend(head: Bytes, tail: Option<Bytes>): Option<Bytes> {
    if tail.Some? then Some(head + tail.value) else None
  }

  predicate IsEscape(segment: Bytes) {
    && |segment| >= 3 && segment[0] == PERCENT && IsUpperHex(segment[1]) && IsUpperHex(segment[2])
    && HexValue(segment[1]) * 16 + HexValue(segment[2]) >= 0x80
  }

  /** The bytes a literal stands for: path characters for themselves, escapes for one non-ASCII byte each. */
  function Decode(segment: Bytes): Option<Bytes> {
    if segment == [] then Some([])
    else if IsEscape(segment) then
      Prepend([HexValue(segment[1]) * 16 + HexValue(segment[2])], Decode(segment[3..]))
    else if IsPchar(segment[0]) then Prepend([segment[0]], Decode(segment[1..]))
    else None
  }

  function Encode(text: Bytes): Bytes {
    if text == [] then []
    else (if text[0] < 0x80 then [text[0]] else [PERCENT, HexDigit(text[0] >> 4), HexDigit(text[0] & 15)]) + Encode(text[1..])
  }

  lemma Nibbles(b: bv8)
    ensures b >> 4 <= 15 && b & 15 <= 15 && (b >> 4) * 16 + (b & 15) == b
  {
  }

  lemma JoinNibbles(high: bv8, low: bv8)
    requires high <= 15 && low <= 15
    ensures high * 16 + low == (high << 4) | low
    ensures (high * 16 + low) >> 4 == high && (high * 16 + low) & 15 == low
  {
  }

  lemma PcharsAreAscii(b: bv8)
    requires IsPchar(b)
    ensures b < 0x80 && b != PERCENT
  {
  }

  /** Accepted literals are canonical: encoding the text gives the literal back, so no text has two spellings. */
  lemma {:induction false} EncodeDecode(segment: Bytes)
    requires Decode(segment).Some?
    ensures Encode(Decode(segment).value) == segment
  {
    if segment != [] {
      var text := Decode(segment).value;
      if IsEscape(segment) {
        var b := HexValue(segment[1]) * 16 + HexValue(segment[2]);
        EncodeDecode(segment[3..]);
        assert text == [b] + Decode(segment[3..]).value && text[1..] == Decode(segment[3..]).value;
        JoinNibbles(HexValue(segment[1]), HexValue(segment[2]));
        assert HexDigit(b >> 4) == segment[1] && HexDigit(b & 15) == segment[2];
        assert segment == [segment[0], segment[1], segment[2]] + segment[3..];
      } else {
        EncodeDecode(segment[1..]);
        PcharsAreAscii(segment[0]);
        assert text == [segment[0]] + Decode(segment[1..]).value && text[1..] == Decode(segment[1..]).value;
        assert segment == [segment[0]] + segment[1..];
      }
    }
  }

  lemma {:induction false} DecodeEncode(text: Bytes)
    requires forall i :: 0 <= i < |text| && text[i] < 0x80 ==> IsPchar(text[i])
    ensures Decode(Encode(text)) == Some(text)
  {
    if text != [] {
      DecodeEncode(text[1..]);
      var code := Encode(text);
      Nibbles(text[0]);
      if text[0] < 0x80 {
        PcharsAreAscii(text[0]);
        assert code[0] == text[0] && code[1..] == Encode(text[1..]);
      } else {
        assert code[..3] == [PERCENT, HexDigit(text[0] >> 4), HexDigit(text[0] & 15)] && code[3..] == Encode(text[1..]);
        assert code[0] == PERCENT && code[1] == HexDigit(text[0] >> 4) && code[2] == HexDigit(text[0] & 15);
      }
      assert [text[0]] + text[1..] == text;
    }
  }

  /** Two accepted literals for the same text are the same literal. */
  lemma LiteralsAreCanonical(s: Bytes, t: Bytes)
    requires Decode(s).Some? && Decode(s) == Decode(t)
    ensures s == t
  {
    EncodeDecode(s);
    EncodeDecode(t);
  }

  predicate AcceptsText(text: Bytes, u: Unicode) {
    u.valid(text) && text != [DOT] && text != [DOT, DOT] && !u.whitespace(text) && !u.control(text)
  }

  predicate AcceptsLiteral(segment: Bytes, u: Unicode) {
    Decode(segment).Some? && AcceptsText(Decode(segment).value, u)
  }

  // ---------------------------------------------------------------------------------------------
  // Segments

  function TrimStart(text: Bytes): Bytes {
    if text != [] && text[0] == SLASH then TrimStart(text[1..]) else text
  }

  function TrimEnd(text: Bytes): Bytes {
    if text != [] && text[|text| - 1] == SLASH then TrimEnd(text[..|text| - 1]) else text
  }

  function NonEmpty(parts: seq<Bytes>): seq<Bytes> {
    if parts == [] then [] else (if parts[0] == [] then [] else [parts[0]]) + NonEmpty(parts[1..])
  }

  /** The segments of a route without its outer slashes. */
  function Segments(path: Bytes): seq<Bytes> {
    NonEmpty(Split(TrimEnd(TrimStart(path)), SLASH))
  }

  predicate HasDoubleSlash(path: Bytes) {
    exists i :: 0 <= i < |path| - 1 && path[i] == SLASH && path[i + 1] == SLASH
  }

  predicate HasQueryOrFragment(path: Bytes) {
    0x3F in path || 0x23 in path
  }

  predicate EndsWithSlash(path: Bytes) {
    |path| > 1 && path[|path| - 1] == SLASH
  }

  predicate IsPlaceholder(segment: Bytes) {
    |segment| >= 2 && segment[0] == OPEN_BRACE && segment[|segment| - 1] == CLOSE_BRACE
  }

  function NameOf(segment: Bytes): Bytes
    requires IsPlaceholder(segment)
  {
    segment[1..|segment| - 1]
  }

  /** One segment is a placeholder with an identity for a name, or a brace-free literal. */
  predicate AcceptsSegment(segment: Bytes, u: Unicode) {
    if IsPlaceholder(segment) then IsIdentity(NameOf(segment))
    else OPEN_BRACE !in segment && CLOSE_BRACE !in segment && AcceptsLiteral(segment, u)
  }

  predicate Distinct(segments: seq<Bytes>) {
    forall i, j :: 0 <= i < j < |segments| && IsPlaceholder(segments[i]) ==> segments[i] != segments[j]
  }

  predicate AcceptsSegments(segments: seq<Bytes>, u: Unicode) {
    (forall i :: 0 <= i < |segments| ==> AcceptsSegment(segments[i], u)) && Distinct(segments)
  }

  function Names(segments: seq<Bytes>): set<Bytes> {
    set i | 0 <= i < |segments| && IsPlaceholder(segments[i]) :: NameOf(segments[i])
  }

  /** The routes of the contract. */
  predicate AcceptsRoute(path: Bytes, u: Unicode) {
    && path != [] && path[0] == SLASH
    && !HasQueryOrFragment(path) && !HasDoubleSlash(path) && !EndsWithSlash(path)
    && AcceptsSegments(Segments(path), u)
  }

  function Placeholders(path: Bytes): set<Bytes> {
    Names(Segments(path))
  }

  lemma NoDoubleSlashInTail(text: Bytes)
    requires text != [] && !HasDoubleSlash(text)
    ensures !HasDoubleSlash(text[1..])
  {
  }

  lemma {:induction false} NoEmptyParts(text: Bytes)
    requires text != [] && !HasDoubleSlash(text) && text[|text| - 1] != SLASH
    ensures Split(text, SLASH)[0] == [] <==> text[0] == SLASH
    ensures forall i :: 1 <= i < |Split(text, SLASH)| ==> Split(text, SLASH)[i] != []
  {
    if |text| > 1 {
      NoDoubleSlashInTail(text);
      NoEmptyParts(text[1..]);
    }
  }

  lemma {:induction false} NonEmptyKeepsAll(parts: seq<Bytes>)
    requires forall i :: 0 <= i < |parts| ==> parts[i] != []
    ensures NonEmpty(parts) == parts
  {
    if parts != [] { NonEmptyKeepsAll(parts[1..]); }
  }

  /** Nothing is dropped from an accepted route: its segments are all its parts after the leading slash. */
  lemma SegmentsAreParts(path: Bytes, u: Unicode)
    requires AcceptsRoute(path, u) && |path| > 1
    ensures Split(path, SLASH) == [[]] + Segments(path)
  {
    var text := path[1..];
    assert path[1] != SLASH by {
      if path[1] == SLASH { assert path[0 + 1] == SLASH && HasDoubleSlash(path); }
    }
    assert text[0] == path[1] && text[|text| - 1] == path[|path| - 1] != SLASH;
    NoDoubleSlashInTail(path);
    assert TrimStart(path) == TrimStart(text) == text;
    assert TrimEnd(text) == text;
    NoEmptyParts(text);
    NonEmptyKeepsAll(Split(text, SLASH));
  }

  lemma NamesAfter(segments: seq<Bytes>, segment: Bytes)
    ensures Names(segments + [segment]) == Names(segments) + if IsPlaceholder(segment) then {NameOf(segment)} else {}
  {
    var all := segments + [segment];
    forall i | 0 <= i < |segments| ensures all[i] == segments[i] {}
    assert all[|segments|] == segment;
    forall name | name in Names(segments) ensures name in Names(all) {
      var i :| 0 <= i < |segments| && IsPlaceholder(segments[i]) && name == NameOf(segments[i]);
      assert all[i] == segments[i];
    }
  }

  lemma SameNameSameSegment(s: Bytes, t: Bytes)
    requires IsPlaceholder(s) && IsPlaceholder(t) && NameOf(s) == NameOf(t)
    ensures s == t
  {
    assert s == [OPEN_BRACE] + NameOf(s) + [CLOSE_BRACE];
    assert t == [OPEN_BRACE] + NameOf(t) + [CLOSE_BRACE];
  }

  /** A new segment keeps the placeholders distinct exactly when its name is new. */
  lemma DistinctAfter(segments: seq<Bytes>, segment: Bytes)
    requires Distinct(segments)
    ensures Distinct(segments + [segment]) <==> !(IsPlaceholder(segment) && NameOf(segment) in Names(segments))
  {
    var all := segments + [segment];
    if IsPlaceholder(segment) && NameOf(segment) in Names(segments) {
      var i :| 0 <= i < |segments| && IsPlaceholder(segments[i]) && NameOf(segment) == NameOf(segments[i]);
      SameNameSameSegment(segment, segments[i]);
      assert all[i] == all[|segments|];
    } else {
      forall i, j | 0 <= i < j < |all| && IsPlaceholder(all[i]) ensures all[i] != all[j] {
        assert all[i] == segments[i] && NameOf(segments[i]) in Names(segments);
      }
    }
  }

  // ---------------------------------------------------------------------------------------------
  // Shapes

  const HOLE: Bytes := [OPEN_BRACE, CLOSE_BRACE]

  function Blank(segment: Bytes): Bytes {
    if segment != [] && segment[0] == OPEN_BRACE then HOLE else segment
  }

  function BlankAll(parts: seq<Bytes>): (r: seq<Bytes>)
    ensures |r| == |parts| && forall i :: 0 <= i < |parts| ==> r[i] == Blank(parts[i])
  {
    seq(|parts|, i requires 0 <= i < |parts| => Blank(parts[i]))
  }

  /** A route with its placeholder names blanked out. */
  function RouteShape(path: Bytes): Bytes {
    Join(BlankAll(Split(path, SLASH)), SLASH)
  }

  predicate SamePart(s: Bytes, t: Bytes) {
    s == t || (s != [] && t != [] && s[0] == OPEN_BRACE && t[0] == OPEN_BRACE)
  }

  lemma BlankIff(s: Bytes, t: Bytes)
    ensures Blank(s) == Blank(t) <==> SamePart(s, t)
  {
  }

  lemma BlankAllIff(a: seq<Bytes>, b: seq<Bytes>)
    ensures BlankAll(a) == BlankAll(b) <==> |a| == |b| && forall i :: 0 <= i < |a| ==> SamePart(a[i], b[i])
  {
    if |a| == |b| {
      forall i | 0 <= i < |a| ensures BlankAll(a)[i] == BlankAll(b)[i] <==> SamePart(a[i], b[i]) {
        BlankIff(a[i], b[i]);
      }
    }
  }

  lemma ShapeParts(path: Bytes)
    ensures Split(RouteShape(path), SLASH) == BlankAll(Split(path, SLASH))
  {
    JoinSplit(path, SLASH);
    var parts := BlankAll(Split(path, SLASH));
    assert MarkFree(parts, SLASH);
    SplitJoin(parts, SLASH);
  }

  /** Two paths share a shape exactly when they agree segment by segment up to placeholder names. */
  lemma SameShapeIff(p: Bytes, q: Bytes)
    ensures RouteShape(p) == RouteShape(q)
            <==> |Split(p, SLASH)| == |Split(q, SLASH)|
                 && forall i :: 0 <= i < |Split(p, SLASH)| ==> SamePart(Split(p, SLASH)[i], Split(q, SLASH)[i])
  {
    ShapeParts(p);
    ShapeParts(q);
    BlankAllIff(Split(p, SLASH), Split(q, SLASH));
  }
}
