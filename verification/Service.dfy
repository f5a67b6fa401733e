/** Service selectors and the identity string they are known by. */
module Service {
  import opened Prelude

  datatype Selector = Selector(serviceId: Text, group: Option<Text>, version: Option<Text>, metadata: map<Text, Text>)

  predicate IsIdentityChar(c: char) {
    ('a' <= c <= 'z') || ('A' <= c <= 'Z') || ('0' <= c <= '9') || c == '.' || c == '_' || c == '-'
  }

  predicate IsIdentity(value: Text) {
    IsToken(value, IsIdentityChar)
  }

  /** What the selector constructor accepts. */
  predicate ValidSelector(s: Selector) {
    && IsIdentity(s.serviceId)
    && (s.group.Some? ==> IsIdentity(s.group.value))
    && (s.version.Some? ==> IsIdentity(s.version.value))
  }

  /** service[/group][@version] */
  function Identity(s: Selector): Text {
    s.serviceId
    + (match s.group case None => "" case Some(group) => "/" + group)
    + (match s.version case None => "" case Some(version) => "@" + version)
  }

  /** The part of a text before its first `mark`, and the rest from the mark on. */
  function SplitAt(text: Text, mark: char): (r: (Text, Text))
    ensures r.0 + r.1 == text
  {
    if text == "" || text[0] == mark then ("", text)
    else
      var rest := SplitAt(text[1..], mark);
      ([text[0]] + rest.0, rest.1)
  }

  lemma {:induction false} SplitFinds(head: Text, mark: char, tail: Text)
    requires mark !in head && (tail == "" || tail[0] == mark)
    ensures SplitAt(head + tail, mark) == (head, tail)
  {
    if head == "" {
      assert head + tail == tail;
    } else {
      assert (head + tail)[1..] == head[1..] + tail && [head[0]] + head[1..] == head;
      SplitFinds(head[1..], mark, tail);
    }
  }

  lemma MarksAreNotIdentityChars(value: Text)
    requires IsIdentity(value)
    ensures '/' !in value && '@' !in value
  {
  }

  /** Reads a canonical identity back into its parts. */
  function ParseIdentity(identity: Text): (Text, Option<Text>, Option<Text>) {
    var (before, version) := SplitAt(identity, '@');
    var (service, group) := SplitAt(before, '/');
    (service, if group == "" then None else Some(group[1..]), if version == "" then None else Some(version[1..]))
  }

  /** An identity is unambiguous: it parses back into the components of any valid selector that has it. */
  lemma IdentityRoundTrip(s: Selector)
    requires ValidSelector(s)
    ensures ParseIdentity(Identity(s)) == (s.serviceId, s.group, s.version)
  {
    MarksAreNotIdentityChars(s.serviceId);
    if s.group.Some? { MarksAreNotIdentityChars(s.group.value); }
    var group := match s.group case None => "" case Some(g) => "/" + g;
    var version := match s.version case None => "" case Some(v) => "@" + v;
    SplitFinds(s.serviceId + group, '@', version);
    SplitFinds(s.serviceId, '/', group);
  }

  /** Two selectors share an identity exactly when they differ at most in metadata. */
  lemma SameIdentityIff(s: Selector, t: Selector)
    requires ValidSelector(s) && ValidSelector(t)
    ensures Identity(s) == Identity(t) <==> s == t.(metadata := s.metadata)
  {
    IdentityRoundTrip(s);
    IdentityRoundTrip(t);
  }

  /** The written form of an identity. */
  lemma IdentityIsWritten(metadata: map<Text, Text>)
    ensures Identity(Selector("orders", Some("blue"), Some("2"), metadata)) == "orders/blue@2"
    ensures Identity(Selector("orders", None, Some("2"), metadata)) == "orders@2"
    ensures Identity(Selector("orders", Some("blue"), None, metadata)) == "orders/blue"
  {
  }
}
