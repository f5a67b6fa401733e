/** The two route validators, the macro's and the contract's, as they scan their input. */
module RouteValidators {
  import opened Prelude
  import opened Splitting
  import opened Routes

  datatype RouteError =
    | NotAbsolute
    | QueryOrFragment
    | EmptySegment
    | TrailingSlash
    | InvalidParameter
    | DuplicateParameter
    | PartialParameter
    | InvalidLiteral

  // ---------------------------------------------------------------------------------------------
  // The macro

  predicate IsHexDigit(b: bv8) {
    (0x30 <= b <= 0x39) || (0x41 <= b <= 0x46) || (0x61 <= b <= 0x66)
  }

  predicate IsLower(b: bv8) {
    0x61 <= b <= 0x7A
  }

  function MacroHexValue(b: bv8): bv8 {
    if 0x30 <= b <= 0x39 then b - 0x30 else if 0x41 <= b <= 0x46 then b - 0x41 + 10 else 0
  }

  method ValidateRouteLiteral(segment: Bytes, u: Unicode) returns (accepted: bool)
    ensures accepted <==> AcceptsLiteral(segment, u)
  {
    var decoded: Bytes := [];
    var index := 0;
    DecodeStart(segment);
    while index < |segment|
      invariant 0 <= index <= |segment|
      invariant Decode(segment) == Prepend(decoded, Decode(segment[index..]))
    {
      ghost var rest := segment[index..];
      var byte := segment[index];
      if byte == PERCENT {
        if index + 2 >= |segment| {
          return false;
        }
        var high, low := segment[index + 1], segment[index + 2];
        assert rest[1] == high && rest[2] == low;
        if !IsHexDigit(high) || !IsHexDigit(low) {
          return false;
        }
        if IsLower(high) || IsLower(low) {
          return false;
        }
        var value := (MacroHexValue(high) << 4) | MacroHexValue(low);
        JoinNibbles(HexValue(high), HexValue(low));
        if value < 0x80 {
          return false;
        }
        assert rest[3..] == segment[index + 3..];
        DecodeStep(decoded, [value], Decode(rest[3..]));
        decoded := decoded + [value];
        index := index + 3;
      } else {
        if !IsPchar(byte) {
          return false;
        }
        assert rest[1..] == segment[index + 1..];
        DecodeStep(decoded, [byte], Decode(rest[1..]));
        decoded := decoded + [byte];
        index := index + 1;
      }
    }
    assert decoded + [] == decoded;
    if !u.valid(decoded) {
      return false;
    }
    if u.whitespace(decoded) || u.control(decoded) {
      return false;
    }
    accepted := decoded != [DOT] && decoded != [DOT, DOT];
  }

  lemma DecodeStart(segment: Bytes)
    ensures Decode(segment) == Prepend([], Decode(segment[0..]))
  {
    assert segment[0..] == segment;
    if Decode(segment).Some? {
      assert [] + Decode(segment).value == Decode(segment).value;
    }
  }

  lemma DecodeStep(decoded: Bytes, next: Bytes, rest: Option<Bytes>)
    ensures Prepend(decoded, Prepend(next, rest)) == Prepend(decoded + next, rest)
  {
    if rest.Some? {
      assert decoded + (next + rest.value) == decoded + next + rest.value;
    }
  }

  method ValidateRoute(path: Bytes, u: Unicode) returns (names: Result<set<Bytes>, RouteError>)
    ensures names.Ok? <==> AcceptsRoute(path, u)
    ensures names.Ok? ==> names.value == Placeholders(path)
  {
    if path == [] || path[0] != SLASH {
      return Err(NotAbsolute);
    }
    if HasQueryOrFragment(path) {
      return Err(QueryOrFragment);
    }
    if HasDoubleSlash(path) || EndsWithSlash(path) {
      return Err(EmptySegment);
    }
    var found: set<Bytes> := {};
    var segments := Segments(path);
    for i := 0 to |segments|
      invariant AcceptsSegments(segments[..i], u) && found == Names(segments[..i])
    {
      var segment := segments[i];
      Advance(segments, i, u);
      if IsPlaceholder(segment) {
        var name := NameOf(segment);
        if !IsIdentity(name) {
          return Err(InvalidParameter);
        }
        if name in found {
          return Err(DuplicateParameter);
        }
        found := found + {name};
      } else if OPEN_BRACE in segment || CLOSE_BRACE in segment {
        return Err(PartialParameter);
      } else {
        var accepted := ValidateRouteLiteral(segment, u);
        if !accepted {
          return Err(InvalidLiteral);
        }
      }
    }
    assert segments[..|segments|] == segments;
    names := Ok(found);
  }

  /** Reading one more segment: accepted exactly when it is acceptable by itself and its name is new. */
  lemma Advance(segments: seq<Bytes>, i: nat, u: Unicode)
    requires i < |segments| && AcceptsSegments(segments[..i], u)
    ensures Names(segments[..i + 1])
            == Names(segments[..i]) + if IsPlaceholder(segments[i]) then {NameOf(segments[i])} else {}
    ensures AcceptsSegments(segments[..i + 1], u)
            <==> AcceptsSegment(segments[i], u)
                 && !(IsPlaceholder(segments[i]) && NameOf(segments[i]) in Names(segments[..i]))
    ensures !AcceptsSegments(segments[..i + 1], u) ==> !AcceptsSegments(segments, u)
  {
    var done, more := segments[..i], segments[..i + 1];
    assert more == done + [segments[i]];
    NamesAfter(done, segments[i]);
    DistinctAfter(done, segments[i]);
    if AcceptsSegments(segments, u) {
      forall k | 0 <= k < |more| ensures AcceptsSegment(more[k], u) { assert more[k] == segments[k]; }
      forall j, k | 0 <= j < k < |more| && IsPlaceholder(more[j]) ensures more[j] != more[k] {
        assert more[j] == segments[j] && more[k] == segments[k];
      }
    }
    forall k | 0 <= k < |done| ensures done[k] == more[k] {}
    assert more[i] == segments[i];
  }

  // ---------------------------------------------------------------------------------------------
  // The contract

  function UppercaseHexValue(b: bv8): Option<bv8> {
    if 0x30 <= b <= 0x39 then Some(b - 0x30) else if 0x41 <= b <= 0x46 then Some(b - 0x41 + 10) else None
  }

  method DecodeRouteLiteral(segment: Bytes, u: Unicode) returns (text: Option<Bytes>)
    ensures text == if AcceptsLiteral(segment, u) then Decode(segment) else None
  {
    var decoded: Bytes := [];
    var index := 0;
    DecodeStart(segment);
    while index < |segment|
      invariant 0 <= index <= |segment|
      invariant Decode(segment) == Prepend(decoded, Decode(segment[index..]))
    {
      ghost var rest := segment[index..];
      var byte := segment[index];
      if byte == PERCENT {
        if index + 1 >= |segment| || |segment[index + 2..]| == 0 {
          return None;
        }
        assert rest[1] == segment[index + 1] && rest[2] == segment[index + 2];
        var high := UppercaseHexValue(segment[index + 1]);
        if high.None? {
          return None;
        }
        var low := UppercaseHexValue(segment[index + 2]);
        if low.None? {
          return None;
        }
        var value := high.value * 16 + low.value;
        if value < 0x80 {
          return None;
        }
        assert rest[3..] == segment[index + 3..];
        DecodeStep(decoded, [value], Decode(rest[3..]));
        decoded := decoded + [value];
        index := index + 3;
      } else {
        if !IsPchar(byte) {
          return None;
        }
        assert rest[1..] == segment[index + 1..];
        DecodeStep(decoded, [byte], Decode(rest[1..]));
        decoded := decoded + [byte];
        index := index + 1;
      }
    }
    assert decoded + [] == decoded;
    if !u.valid(decoded) {
      return None;
    }
    if decoded == [DOT] || decoded == [DOT, DOT] {
      return None;
    }
    if u.whitespace(decoded) || u.control(decoded) {
      return None;
    }
    text := Some(decoded);
  }

  method ValidateHttpRoute(path: Bytes, u: Unicode) returns (placeholders: Result<set<Bytes>, RouteError>)
    ensures placeholders.Ok? <==> AcceptsRoute(path, u)
    ensures placeholders.Ok? ==> placeholders.value == Placeholders(path)
  {
    if path == [] || path[0] != SLASH {
      return Err(NotAbsolute);
    }
    if HasQueryOrFragment(path) {
      return Err(QueryOrFragment);
    }
    if HasDoubleSlash(path) {
      return Err(EmptySegment);
    }
    if EndsWithSlash(path) {
      return Err(TrailingSlash);
    }
    var found: set<Bytes> := {};
    var segments := Segments(path);
    for i := 0 to |segments|
      invariant AcceptsSegments(segments[..i], u) && found == Names(segments[..i])
    {
      var segment := segments[i];
      Advance(segments, i, u);
      if IsPlaceholder(segment) {
        var name := NameOf(segment);
        if !IsIdentity(name) || name in found {
          return Err(InvalidParameter);
        }
        found := found + {name};
      } else {
        if OPEN_BRACE in segment || CLOSE_BRACE in segment {
          return Err(PartialParameter);
        }
        var text := DecodeRouteLiteral(segment, u);
        if text.None? {
          return Err(InvalidLiteral);
        }
      }
    }
    assert segments[..|segments|] == segments;
    placeholders := Ok(found);
  }

  /** The shape built part by part, with a slash before each and the first one taken off again. */
  method HttpRouteShape(path: Bytes) returns (shape: Bytes)
    ensures shape == RouteShape(path)
  {
    var parts := Split(path, SLASH);
    shape := [];
    for i := 0 to |parts|
      invariant i == 0 ==> shape == []
      invariant i > 0 ==> shape == [SLASH] + Join(BlankAll(parts[..i]), SLASH)
    {
      shape := shape + [SLASH];
      if parts[i] != [] && parts[i][0] == OPEN_BRACE {
        shape := shape + HOLE;
      } else {
        shape := shape + parts[i];
      }
      assert BlankAll(parts[..i + 1]) == BlankAll(parts[..i]) + [Blank(parts[i])];
      if i > 0 { JoinAppend(BlankAll(parts[..i]), Blank(parts[i]), SLASH); }
    }
    assert parts[..|parts|] == parts;
    shape := shape[1..];
  }

  /** Both validators take every path the same way, with the same placeholders. */
  method RouteValidatorsAgree(path: Bytes, u: Unicode)
    returns (macro: Result<set<Bytes>, RouteError>, contract: Result<set<Bytes>, RouteError>)
    ensures macro.Ok? == contract.Ok?
    ensures macro.Ok? ==> macro.value == contract.value
  {
    macro := ValidateRoute(path, u);
    contract := ValidateHttpRoute(path, u);
  }
}
