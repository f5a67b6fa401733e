/** Under a policy that looks at kinds alone, what is not revealed cannot influence a projection. */
module ProjectionNonInterference {
  import opened Prelude
  import opened Json
  import opened Projection

  /** The policy decides by the kind and nothing else. */
  ghost predicate KindBased(env: Env) {
    forall c: Consultation, d: Consultation :: c.kind == d.kind ==> env.sanitize(c) == env.sanitize(d)
  }

  ghost predicate Reveals(env: Env, kind: Kind) {
    env.sanitize(Consultation(env.target, "", kind, Null)) == Some(Revealed)
  }

  /**
   * Two values that an observer of the projection is allowed to tell apart nowhere: they are equal where their kind
   * is revealed, and share the presence of declared fields, null-ness and array length where no kind is inherited.
   * Anything redacted, omitted, opaque or undeclared may differ arbitrarily.
   */
  ghost predicate Agree(env: Env, shape: Shape, v: Json, w: Json)
    decreases v, Rank(env, shape), 2, 0
  {
    match shape
    case Opaque => true
    case Classified(kind) => Reveals(env, kind) ==> v == w
    case Fields(_, _) => v.Obj? && w.Obj? ==> AgreeOnFields(env, DirectedFields(env, shape), v, w)
    case _ => AgreeThrough(env, shape, v, w)
  }

  ghost predicate AgreeThrough(env: Env, shape: Shape, v: Json, w: Json)
    requires Delegate(shape).Some?
    decreases v, Rank(env, shape), 1, 0
  {
    match env.resolve(Delegate(shape).value)
    case None => true
    case Some(inner) =>
      match Inherited(env, inner, 0)
      case InheritsKind(kind) => Reveals(env, kind) ==> v == w
      case Unclassified =>
        DelegationDescends(env, shape, inner);
        if shape.Optional? then
          v.Null? == w.Null? && (!v.Null? ==> Agree(env, inner, v, w))
        else
          v.Arr? && w.Arr? ==> |v.items| == |w.items| && AgreeOnItems(env, inner, v.items, w.items)
      case _ => true
  }

  ghost predicate AgreeOnItems(env: Env, element: Shape, vs: seq<Json>, ws: seq<Json>)
    requires |vs| == |ws|
    decreases vs, 0, 0, 0
  {
    vs != [] ==> Agree(env, element, vs[0], ws[0]) && AgreeOnItems(env, element, vs[1..], ws[1..])
  }

  ghost predicate AgreeOnFields(env: Env, fields: seq<Field>, v: Json, w: Json)
    requires v.Obj? && w.Obj?
    decreases v, 0, 1, |fields|
  {
    fields != [] ==>
      && AgreeOnField(env, fields[0], v, w)
      && AgreeOnFields(env, fields[1..], v, w)
  }

  ghost predicate AgreeOnField(env: Env, field: Field, v: Json, w: Json)
    requires v.Obj? && w.Obj?
    decreases v, 0, 0, 0
  {
    var left, right := Find(v.members, field.name), Find(w.members, field.name);
    && left.Some? == right.Some?
    && (left.Some? && env.resolve(field.shape).Some? ==>
          Agree(env, env.resolve(field.shape).value, left.value, right.value))
  }

  /** A consultation on agreeing values is answered, and so projected, alike. */
  lemma SanitizeAlike(env: Env, v: Json, w: Json, kind: Kind, depth: nat, path: Text, t: Trace, u: Trace)
    requires KindBased(env)
    requires Reveals(env, kind) ==> v == w
    requires SanitizeClassified(env, v, kind, depth, path, t).Done?
    requires SanitizeClassified(env, w, kind, depth, path, u).Done?
    ensures SanitizeClassified(env, v, kind, depth, path, t).result == SanitizeClassified(env, w, kind, depth, path, u).result
  {
    var blank := Consultation(env.target, "", kind, Null);
    assert env.sanitize(Consultation(env.target, path, kind, v)) == env.sanitize(blank);
    assert env.sanitize(Consultation(env.target, path, kind, w)) == env.sanitize(blank);
  }

  /** Non-interference: agreeing values whose projections both succeed project to the same value. */
  lemma {:induction false} ProjectAlike(
    env: Env, v: Json, w: Json, shape: Shape, depth: nat, path: Text, t: Trace, u: Trace)
    requires KindBased(env) && Agree(env, shape, v, w)
    requires Project(env, v, shape, depth, path, t).Done?
    requires Project(env, w, shape, depth, path, u).Done?
    ensures Project(env, v, shape, depth, path, t).result == Project(env, w, shape, depth, path, u).result
    decreases v, Rank(env, shape), 3, 0
  {
    VisitedAlike(env, v, w, shape, depth, path, t.(visited := t.visited + 1), u.(visited := u.visited + 1));
  }

  lemma {:induction false} VisitedAlike(
    env: Env, v: Json, w: Json, shape: Shape, depth: nat, path: Text, t: Trace, u: Trace)
    requires KindBased(env) && Agree(env, shape, v, w)
    requires ProjectVisited(env, v, shape, depth, path, t).Done?
    requires ProjectVisited(env, w, shape, depth, path, u).Done?
    ensures ProjectVisited(env, v, shape, depth, path, t).result == ProjectVisited(env, w, shape, depth, path, u).result
    decreases v, Rank(env, shape), 2, 0
  {
    match shape {
      case Opaque =>
      case Classified(kind) =>
        SanitizeAlike(env, v, w, kind, depth, path,
                      t.(visited := ValidateDescendants(env, v, depth, t.visited).value),
                      u.(visited := ValidateDescendants(env, w, depth, u.visited).value));
      case Fields(_, _) => FieldsAlike(env, v, w, DirectedFields(env, shape), {}, depth + 1, path, t, u);
      case Optional(r) =>
        var inner := env.resolve(r).value;
        match Inherited(env, inner, 0) {
          case InheritsKind(kind) =>
            DelegationDescends(env, shape, inner);
            SanitizeAlike(env, v, w, kind, depth, path,
                          t.(visited := ValidateShapeVisited(env, v, shape, depth, t.visited).value),
                          u.(visited := ValidateShapeVisited(env, w, shape, depth, u.visited).value));
          case Unclassified =>
            DelegationDescends(env, shape, inner);
            if !v.Null? {
              VisitedAlike(env, v, w, inner, depth, path, t, u);
            }
          case InheritsOpaque =>
        }
      case Sequence(_) => SequenceAlike(env, v, w, shape, None, depth, path, t, u);
      case FixedSequence(_, length) => SequenceAlike(env, v, w, shape, Some(length), depth, path, t, u);
    }
  }

  lemma {:induction false} SequenceAlike(
    env: Env, v: Json, w: Json, shape: Shape, required: Option<nat>, depth: nat, path: Text, t: Trace, u: Trace)
    requires shape.Sequence? || shape.FixedSequence?
    requires KindBased(env) && AgreeThrough(env, shape, v, w)
    requires ProjectSequence(env, v, shape, required, depth, path, t).Done?
    requires ProjectSequence(env, w, shape, required, depth, path, u).Done?
    ensures ProjectSequence(env, v, shape, required, depth, path, t).result
            == ProjectSequence(env, w, shape, required, depth, path, u).result
    decreases v, Rank(env, shape), 1, 0
  {
    var element := env.resolve(shape.element).value;
    match Inherited(env, element, 0) {
      case InheritsKind(kind) =>
        DelegationDescends(env, shape, element);
        SanitizeAlike(env, v, w, kind, depth, path,
                      t.(visited := ValidateElements(env, v.items, element, depth + 1, t.visited).value),
                      u.(visited := ValidateElements(env, w.items, element, depth + 1, u.visited).value));
      case Unclassified => ItemsAlike(env, v.items, w.items, element, depth + 1, path, t, u);
      case InheritsOpaque =>
    }
  }

  lemma {:induction false} ItemsAlike(
    env: Env, vs: seq<Json>, ws: seq<Json>, element: Shape, depth: nat, path: Text, t: Trace, u: Trace)
    requires KindBased(env) && |vs| == |ws| && AgreeOnItems(env, element, vs, ws)
    requires ProjectItems(env, vs, element, depth, path, t).Done?
    requires ProjectItems(env, ws, element, depth, path, u).Done?
    ensures ProjectItems(env, vs, element, depth, path, t).result == ProjectItems(env, ws, element, depth, path, u).result
    decreases vs, 0, 0, 0
  {
    if vs != [] {
      ProjectAlike(env, vs[0], ws[0], element, depth, path, t, u);
      ItemsAlike(env, vs[1..], ws[1..], element, depth, path,
                 Project(env, vs[0], element, depth, path, t).trace, Project(env, ws[0], element, depth, path, u).trace);
    }
  }

  lemma {:induction false} FieldsAlike(
    env: Env, v: Json, w: Json, fields: seq<Field>, declared: set<Text>, depth: nat, path: Text, t: Trace, u: Trace)
    requires KindBased(env) && v.Obj? && w.Obj? && AgreeOnFields(env, fields, v, w)
    requires ProjectFields(env, v, fields, declared, depth, path, t).Done?
    requires ProjectFields(env, w, fields, declared, depth, path, u).Done?
    ensures ProjectFields(env, v, fields, declared, depth, path, t).result
            == ProjectFields(env, w, fields, declared, depth, path, u).result
    decreases v, 0, 1, |fields|
  {
    if fields != [] {
      var declared' := declared + {fields[0].name};
      var left, right := Find(v.members, fields[0].name), Find(w.members, fields[0].name);
      if left.None? {
        FieldsAlike(env, v, w, fields[1..], declared', depth, path, t, u);
      } else {
        var shape := env.resolve(fields[0].shape).value;
        var path' := PushSegment(path, fields[0].name);
        ProjectAlike(env, left.value, right.value, shape, depth, path', t, u);
        FieldsAlike(env, v, w, fields[1..], declared', depth, path,
                    Project(env, left.value, shape, depth, path', t).trace,
                    Project(env, right.value, shape, depth, path', u).trace);
      }
    }
  }

  /** The same for named arguments as a whole: undeclared arguments are free, declared ones must agree. */
  lemma ArgumentsAlike(env: Env, declared: seq<Field>, v: seq<Member>, w: seq<Member>)
    requires KindBased(env) && AgreeOnFields(env, declared, Obj(v), Obj(w))
    requires ProjectArguments(env, declared, v).Done? && ProjectArguments(env, declared, w).Done?
    ensures ProjectArguments(env, declared, v).result == ProjectArguments(env, declared, w).result
  {
    FieldsAlike(env, Obj(v), Obj(w), declared, {}, 0, "", Trace(0, []), Trace(0, []));
  }

  /** What is finally shown of two such argument lists is the same, or nothing for both. */
  lemma ShownArgumentsAlike(
    env: Env, declared: seq<Field>, v: seq<Member>, w: seq<Member>, encodedLength: Json -> Option<nat>)
    requires KindBased(env) && AgreeOnFields(env, declared, Obj(v), Obj(w))
    requires ProjectArguments(env, declared, v).Done? && ProjectArguments(env, declared, w).Done?
    ensures SanitizedArguments(env, Some(declared), v, encodedLength)
            == SanitizedArguments(env, Some(declared), w, encodedLength)
  {
    ArgumentsAlike(env, declared, v, w);
  }

  /** The same for two response bodies that both pass the input limit, parse and project. */
  lemma ShownResponsesAlike(env: Env, response: Resolver, v: Body, w: Body, encodedLength: Json -> Option<nat>)
    requires KindBased(env) && env.resolve(response).Some? && !env.resolve(response).value.Opaque?
    requires v.parsed.Some? && v.length <= env.limits.maxInputBytes
    requires w.parsed.Some? && w.length <= env.limits.maxInputBytes
    requires var shape := env.resolve(response).value;
             && Agree(env, shape, v.parsed.value, w.parsed.value)
             && Project(env, v.parsed.value, shape, 0, "", Trace(0, [])).Done?
             && Project(env, w.parsed.value, shape, 0, "", Trace(0, [])).Done?
    ensures SanitizedResponse(env, Some(response), v, encodedLength)
            == SanitizedResponse(env, Some(response), w, encodedLength)
  {
    ProjectAlike(env, v.parsed.value, w.parsed.value, env.resolve(response).value, 0, "", Trace(0, []), Trace(0, []));
  }

  /** The shipped policy: a table from kinds to answers that omits the kinds it does not list. */
  function PolicyEnv(
    rules: map<Kind, Sanitization>, resolve: Resolver -> Option<Shape>, limits: Limits, direction: Direction, target: Target)
    : (env: Env)
    ensures KindBased(env)
    ensures forall kind :: Reveals(env, kind) <==> kind in rules && rules[kind] == Revealed
  {
    Env(resolve, (c: Consultation) => Some(if c.kind in rules then rules[c.kind] else Omitted), limits, direction, target)
  }
}
