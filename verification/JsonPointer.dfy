/** Schema paths are RFC 6901 pointers: escaping loses nothing, so a path names exactly one list of fields. */
module JsonPointer {
  import opened Prelude
  import opened Json
  import opened Projection

  /** The path the projector holds after descending through `segments`. */
  function PathOf(segments: seq<Text>): Text {
    if segments == [] then ""
    else "/" + Escape(segments[0]) + PathOf(segments[1..])
  }

  /** Undoes the escapes of section 4 of RFC 6901. */
  function Unescape(token: Text): Text {
    if token == "" then ""
    else if |token| > 1 && token[0] == '~' && token[1] == '0' then "~" + Unescape(token[2..])
    else if |token| > 1 && token[0] == '~' && token[1] == '1' then "/" + Unescape(token[2..])
    else [token[0]] + Unescape(token[1..])
  }

  /** The length of the reference token that starts `text`. */
  function TokenLength(text: Text): (n: nat)
    ensures n <= |text|
  {
    if text == "" || text[0] == '/' then 0 else 1 + TokenLength(text[1..])
  }

  /** Reads a pointer back into its segments; text that does not start with a slash is not a pointer. */
  function Parse(path: Text): seq<Text>
    decreases |path|
  {
    if path == "" || path[0] != '/' then []
    else
      var n := TokenLength(path[1..]);
      [Unescape(path[1..][..n])] + Parse(path[1..][n..])
  }

  /** Pushing one more segment extends the path at its end. */
  lemma {:induction false} PathOfPush(segments: seq<Text>, last: Text)
    ensures PathOf(segments + [last]) == PushSegment(PathOf(segments), last)
  {
    if segments == [] {
      assert [last][1..] == [];
    } else {
      assert (segments + [last])[1..] == segments[1..] + [last];
      PathOfPush(segments[1..], last);
    }
  }

  /** The escapes of section 3 of RFC 6901, and no others. */
  lemma EscapesAreStandard(c: char)
    ensures Escape([c]) == if c == '~' then "~0" else if c == '/' then "~1" else [c]
  {
    assert [c][1..] == "";
  }

  lemma {:induction false} UnescapeEscape(segment: Text)
    ensures Unescape(Escape(segment)) == segment
    ensures '/' !in Escape(segment)
  {
    if segment != "" {
      UnescapeEscape(segment[1..]);
      var head, tail := EscapeChar(segment[0]), Escape(segment[1..]);
      assert Escape(segment)[|head|..] == tail;
    }
  }

  lemma {:induction false} TokenEnds(token: Text, rest: Text)
    requires '/' !in token && (rest == "" || rest[0] == '/')
    ensures TokenLength(token + rest) == |token|
  {
    if token == "" {
      assert token + rest == rest;
    } else {
      assert (token + rest)[1..] == token[1..] + rest;
      TokenEnds(token[1..], rest);
    }
  }

  lemma ParseToken(token: Text, rest: Text)
    requires '/' !in token && (rest == "" || rest[0] == '/')
    ensures Parse("/" + token + rest) == [Unescape(token)] + Parse(rest)
  {
    var path := "/" + token + rest;
    assert path[1..] == token + rest;
    TokenEnds(token, rest);
    assert path[1..][..|token|] == token && path[1..][|token|..] == rest;
  }

  /** Parsing undoes path construction, so distinct lists of fields have distinct paths. */
  lemma {:induction false} PointerRoundTrip(segments: seq<Text>)
    ensures Parse(PathOf(segments)) == segments
  {
    if segments != [] {
      UnescapeEscape(segments[0]);
      ParseToken(Escape(segments[0]), PathOf(segments[1..]));
      PointerRoundTrip(segments[1..]);
    }
  }
}
