/** The rules for a whole interface as its author reads them. */
module InterfaceRules {
  import opened Prelude
  import opened Routes
  import opened Operations
  import opened Interfaces

  function VerbName(verb: Verb): string {
    match verb
    case Get => "GET"
    case Post => "POST"
    case Put => "PUT"
    case Patch => "PATCH"
    case Delete => "DELETE"
    case Head => "HEAD"
    case Options => "OPTIONS"
    case Extension(_) => ""
  }

  /** An upper-case name, with each letter in either case. */
  predicate Spells(text: Bytes, name: string) {
    && |text| == |name|
    && forall i :: 0 <= i < |name| ==> text[i] as int == name[i] as int || text[i] as int == name[i] as int + 0x20
  }

  /** The bytes of a verb's name. */
  function VerbBytes(verb: Verb): Bytes {
    match verb
    case Get => [0x47, 0x45, 0x54]
    case Post => [0x50, 0x4F, 0x53, 0x54]
    case Put => [0x50, 0x55, 0x54]
    case Patch => [0x50, 0x41, 0x54, 0x43, 0x48]
    case Delete => [0x44, 0x45, 0x4C, 0x45, 0x54, 0x45]
    case Head => [0x48, 0x45, 0x41, 0x44]
    case Options => [0x4F, 0x50, 0x54, 0x49, 0x4F, 0x4E, 0x53]
    case Extension(_) => []
  }

  /** The bytes are those of the upper-case name. */
  predicate Writes(bytes: Bytes, name: string) {
    && |bytes| == |name|
    && forall i :: 0 <= i < |name| ==> bytes[i] as int == name[i] as int && 0x41 <= bytes[i] <= 0x5A
  }

  lemma VerbBytesWriteName(verb: Verb)
    ensures Writes(VerbBytes(verb), VerbName(verb))
  {
  }

  lemma UpperByte(b: bv8, c: bv8)
    requires 0x41 <= c <= 0x5A
    ensures (if 0x61 <= b <= 0x7A then b - 0x20 else b) == c <==> b == c || b == c + 0x20
    ensures (c + 0x20) as int == c as int + 0x20
  {
  }

  lemma SpellsIff(text: Bytes, bytes: Bytes, name: string)
    requires Writes(bytes, name)
    ensures Upper(text) == bytes <==> Spells(text, name)
  {
    var upper := Upper(text);
    if |text| == |name| {
      forall i | 0 <= i < |name|
        ensures upper[i] == bytes[i] <==> text[i] as int == name[i] as int || text[i] as int == name[i] as int + 0x20
      {
        UpperByte(text[i], bytes[i]);
      }
      if Spells(text, name) { assert upper == bytes; }
    }
  }

  lemma ParsesUpperCase(text: Bytes, verb: Verb)
    ensures ParseVerb(text) == Some(verb) <==> !verb.Extension? && Upper(text) == VerbBytes(verb)
  {
    DistinctVerbs(verb);
  }

  lemma DistinctVerbs(verb: Verb)
    ensures !verb.Extension? ==> forall v: Verb :: VerbBytes(v) == VerbBytes(verb) ==> v == verb
  {
    assert VerbBytes(Get)[0] != VerbBytes(Put)[0] && VerbBytes(Post)[0] != VerbBytes(Head)[0];
  }

  /** A verb is read from its name in any mixture of cases, and from nothing else. */
  lemma VerbIsSpelled(text: Bytes, verb: Verb)
    ensures ParseVerb(text) == Some(verb) <==> !verb.Extension? && Spells(text, VerbName(verb))
  {
    ParsesUpperCase(text, verb);
    VerbBytesWriteName(verb);
    SpellsIff(text, VerbBytes(verb), VerbName(verb));
  }

  /** A media type that is not given is JSON. */
  lemma DefaultMediaType(mime: Mime)
    ensures MediaType(None, mime).Some?
    ensures var json, text := MediaType(None, mime).value, "application/json";
            |json| == |text| && forall i :: 0 <= i < |text| ==> json[i] as int == text[i] as int
  {
  }

  /** What one method must be: a known verb, an acceptable route and parameters, and nothing to return for HEAD. */
  ghost predicate Lawful(m: InterfaceMethod, verb: Verb, u: Unicode, mime: Mime) {
    && m.ordinary && IsIdentity(m.name) && !verb.Extension? && Spells(m.verb, VerbName(verb))
    && (m.consumes.Some? ==> mime(m.consumes.value).Some?) && (m.produces.Some? ==> mime(m.produces.value).Some?)
    && AcceptsRoute(m.path, u) && AcceptsInputs(m.inputs, Placeholders(m.path), verb)
    && (verb.Head? ==> m.unitResponse)
  }

  ghost predicate LawfulForSome(m: InterfaceMethod, u: Unicode, mime: Mime) {
    exists verb :: Lawful(m, verb, u, mime)
  }

  /** A method is accepted exactly when it is lawful for the verb it spells. */
  lemma MethodAcceptedIff(m: InterfaceMethod, u: Unicode, mime: Mime)
    ensures AcceptsMethod(m, u, mime) <==> LawfulForSome(m, u, mime)
    ensures AcceptsMethod(m, u, mime) ==> Lawful(m, ParseVerb(m.verb).value, u, mime)
  {
    if AcceptsMethod(m, u, mime) { LawfulIff(m, ParseVerb(m.verb).value, u, mime); }
    if verb :| Lawful(m, verb, u, mime) { LawfulIff(m, verb, u, mime); }
  }

  lemma LawfulIff(m: InterfaceMethod, verb: Verb, u: Unicode, mime: Mime)
    ensures Lawful(m, verb, u, mime) <==> AcceptsMethod(m, u, mime) && ParseVerb(m.verb) == Some(verb)
  {
    VerbIsSpelled(m.verb, verb);
  }

  /** Two methods of one verb whose routes no request could tell apart. */
  ghost predicate Clash(m: InterfaceMethod, n: InterfaceMethod) {
    ParseVerb(m.verb) == ParseVerb(n.verb) && RouteShape(m.path) == RouteShape(n.path)
  }

  ghost predicate AllLawful(methods: seq<InterfaceMethod>, u: Unicode, mime: Mime) {
    forall i :: 0 <= i < |methods| ==> LawfulForSome(methods[i], u, mime)
  }

  ghost predicate NoneClash(methods: seq<InterfaceMethod>) {
    forall i, j :: 0 <= i < j < |methods| ==> !Clash(methods[i], methods[j])
  }

  /**
   * An interface is accepted exactly when its names are identities, it has between one and 65536 methods, each of
   * them is lawful, and no two of the same verb have routes of the same shape.
   */
  lemma InterfaceAcceptedIff(interface: Interface, u: Unicode, mime: Mime)
    ensures AcceptsInterface(interface, u, mime)
            <==> && IsIdentity(interface.name)
                 && (interface.group.Some? ==> IsIdentity(interface.group.value))
                 && (interface.version.Some? ==> IsIdentity(interface.version.value))
                 && 1 <= |interface.methods| <= 65536
                 && AllLawful(interface.methods, u, mime) && NoneClash(interface.methods)
  {
    var methods := interface.methods;
    MethodsAcceptedIff(methods, u, mime);
    if AcceptsMethods(methods, u, mime) { ClashesAreRepeatedRoutes(methods, u, mime); }
  }

  lemma MethodsAcceptedIff(methods: seq<InterfaceMethod>, u: Unicode, mime: Mime)
    ensures AcceptsMethods(methods, u, mime) <==> AllLawful(methods, u, mime)
  {
    forall i | 0 <= i < |methods|
      ensures AcceptsMethod(methods[i], u, mime) <==> LawfulForSome(methods[i], u, mime)
    {
      MethodAcceptedIff(methods[i], u, mime);
    }
  }

  lemma ClashesAreRepeatedRoutes(methods: seq<InterfaceMethod>, u: Unicode, mime: Mime)
    requires AcceptsMethods(methods, u, mime)
    ensures DistinctRoutes(TranslateAll(methods, u, mime))
            <==> NoneClash(methods)
  {
    var all := TranslateAll(methods, u, mime);
    forall i, j | 0 <= i < j < |methods|
      ensures RouteKey(all[i]) == RouteKey(all[j]) <==> Clash(methods[i], methods[j])
    {
      assert AcceptsMethod(methods[i], u, mime) && AcceptsMethod(methods[j], u, mime);
      assert all[i] == Translate(methods[i], mime) && all[j] == Translate(methods[j], mime);
    }
  }

  /** What the generator keeps of a method: its name, verb, route and media types as written or by default. */
  lemma TranslationKeeps(m: InterfaceMethod, u: Unicode, mime: Mime)
    requires AcceptsMethod(m, u, mime)
    ensures var t := Translate(m, mime);
            && t.name == m.name && t.path == m.path && Spells(m.verb, VerbName(t.verb))
            && Some(t.consumes) == (if m.consumes.Some? then mime(m.consumes.value) else Some(JSON))
            && Some(t.produces) == (if m.produces.Some? then mime(m.produces.value) else Some(JSON))
            && |t.parameters| == |m.inputs|
            && forall i :: 0 <= i < |m.inputs| ==> t.parameters[i] == Resolve(m.inputs[i], Placeholders(m.path), t.verb)
  {
    VerbIsSpelled(m.verb, ParseVerb(m.verb).value);
  }
}
