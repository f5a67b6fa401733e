/** What a projection shows, read off the schema and the policy's answers alone. */
module ProjectionContent {
  import opened Prelude
  import opened Json
  import opened Projection
  import opened JsonPointer
  import opened ProjectionPaths

  /** The shape that a shape's optional and sequence layers wrap in the end, within a number of layers. */
  ghost function Ground(env: Env, shape: Shape, layers: nat): Option<Shape>
    decreases layers
  {
    match shape
    case Optional(r) => Beneath(env, r, layers)
    case Sequence(r) => Beneath(env, r, layers)
    case FixedSequence(r, _) => Beneath(env, r, layers)
    case _ => Some(shape)
  }

  ghost function Beneath(env: Env, r: Resolver, layers: nat): Option<Shape>
    decreases layers, 0
  {
    if layers == 0 || env.resolve(r).None? then None else Ground(env, env.resolve(r).value, layers - 1)
  }

  /** The shape without the optional layers around it. */
  ghost function Present(env: Env, shape: Shape, layers: nat): Option<Shape>
    decreases layers
  {
    if !shape.Optional? then Some(shape)
    else if layers == 0 || env.resolve(shape.inner).None? then None
    else Present(env, env.resolve(shape.inner).value, layers - 1)
  }

  /** A schema is followed through one layer more than the depth limit. */
  function Layers(env: Env): nat {
    env.limits.maxDepth + 1
  }

  /** What the policy's answer to a consultation makes visible: the value, the marker, a replacement or nothing. */
  predicate Answered(env: Env, c: Consultation, shown: Option<Json>) {
    match env.sanitize(c)
    case None => false
    case Some(Omitted) => shown.None?
    case Some(Redacted) => shown == Some(Str("<redacted>"))
    case Some(Revealed) => shown == Some(c.value)
    case Some(Replaced(replacement)) => shown == Some(replacement)
  }

  /** The schema leads from a shape to some classified value. */
  ghost predicate LeadsToKind(env: Env, shape: Shape) {
    exists names: seq<Text>, kind: Kind, steps: nat :: LeadsTo(env, shape, names, kind, steps)
  }

  /**
   * `shown` is what may be seen of `v` below the fields `above`: the policy's answer where the schema's layers end in
   * a kind, nothing where they end in an opaque shape, and otherwise the declared fields and the elements, each by
   * the same rule. What shows nothing leaves no trace, except that an empty array stands for one of classified
   * elements.
   */
  ghost predicate Shows(env: Env, shape: Shape, v: Json, above: seq<Text>, shown: Option<Json>)
    decreases v, 1, 0
  {
    match Ground(env, shape, Layers(env))
    case None => false
    case Some(Classified(kind)) => Answered(env, Consultation(env.target, PathOf(above), kind, v), shown)
    case Some(Fields(_, _)) =>
      if shape.Optional? && v.Null? then shown.None?
      else (match Present(env, shape, Layers(env))
            case Some(Fields(serialize, deserialize)) =>
              && v.Obj? && (shown.Some? ==> shown.value.Obj? && shown.value.members != [])
              && ShowsFields(env, if env.direction.Serialize? then serialize else deserialize, v, above,
                             if shown.Some? then shown.value.members else [])
            case Some(Sequence(r)) => ShowsArray(env, r, v, above, shown)
            case Some(FixedSequence(r, length)) =>
              ShowsArray(env, r, v, above, shown) && v.Arr? && |v.items| == length
            case _ => false)
    case Some(_) => shown.None?
  }

  ghost predicate ShowsArray(env: Env, r: Resolver, v: Json, above: seq<Text>, shown: Option<Json>)
    decreases v, 0, 1
  {
    && v.Arr? && env.resolve(r).Some? && (shown.Some? ==> shown.value.Arr?)
    && ShowsItems(env, env.resolve(r).value, v.items, above, if shown.Some? then shown.value.items else [])
    && (shown.Some? && shown.value.items == [] ==> v.items == [] && LeadsToKind(env, env.resolve(r).value))
    && (shown.None? && v.items == [] ==> !LeadsToKind(env, env.resolve(r).value))
  }

  /** The elements that show something, in order. */
  ghost predicate ShowsItems(env: Env, element: Shape, items: seq<Json>, above: seq<Text>, shown: seq<Json>)
    decreases items, 0, 0
  {
    if items == [] then shown == []
    else
      || (Shows(env, element, items[0], above, None) && ShowsItems(env, element, items[1..], above, shown))
      || (shown != [] && Shows(env, element, items[0], above, Some(shown[0]))
          && ShowsItems(env, element, items[1..], above, shown[1..]))
  }

  /** The declared fields that are present and show something, in declaration order and under their names. */
  ghost predicate ShowsFields(env: Env, fields: seq<Field>, v: Json, above: seq<Text>, shown: seq<Member>)
    requires v.Obj?
    decreases v, 0, |fields|
  {
    if fields == [] then shown == []
    else match Find(v.members, fields[0].name)
      case None => ShowsFields(env, fields[1..], v, above, shown)
      case Some(child) =>
        && env.resolve(fields[0].shape).Some?
        && var shape, below := env.resolve(fields[0].shape).value, above + [fields[0].name];
           || (Shows(env, shape, child, below, None) && ShowsFields(env, fields[1..], v, above, shown))
           || (shown != [] && shown[0].name == fields[0].name
               && Shows(env, shape, child, below, Some(shown[0].value))
               && ShowsFields(env, fields[1..], v, above, shown[1..]))
  }

  // ---------------------------------------------------------------------------------------------
  // The classification of a shape

  /** The lineage a projection computes is what the layers end in. */
  lemma {:induction false} InheritedIsGround(env: Env, shape: Shape, schemaDepth: nat)
    requires schemaDepth <= env.limits.maxDepth
    ensures var ground := Ground(env, shape, env.limits.maxDepth - schemaDepth);
            Inherited(env, shape, schemaDepth)
            == match ground
               case None => Broken
               case Some(Classified(kind)) => InheritsKind(kind)
               case Some(Fields(_, _)) => Unclassified
               case Some(_) => InheritsOpaque
    ensures Ground(env, shape, env.limits.maxDepth - schemaDepth).Some? ==>
              Delegate(Ground(env, shape, env.limits.maxDepth - schemaDepth).value).None?
    decreases env.limits.maxDepth - schemaDepth
  {
    if Delegate(shape).Some? && schemaDepth < env.limits.maxDepth && env.resolve(Delegate(shape).value).Some? {
      InheritedIsGround(env, env.resolve(Delegate(shape).value).value, schemaDepth + 1);
    }
  }

  lemma {:induction false} MoreLayers(env: Env, shape: Shape, fewer: nat, more: nat)
    requires fewer <= more
    ensures Ground(env, shape, fewer).Some? ==> Ground(env, shape, more) == Ground(env, shape, fewer)
    ensures Present(env, shape, fewer).Some? ==> Present(env, shape, more) == Present(env, shape, fewer)
    decreases fewer
  {
    if Delegate(shape).Some? && fewer > 0 && env.resolve(Delegate(shape).value).Some? {
      MoreLayers(env, env.resolve(Delegate(shape).value).value, fewer - 1, more - 1);
    }
  }

  lemma {:induction false} GroundIsPresent(env: Env, shape: Shape, layers: nat)
    requires Ground(env, shape, layers).Some?
    ensures Present(env, shape, layers).Some?
    decreases layers
  {
    if shape.Optional? {
      assert Ground(env, shape, layers) == Beneath(env, shape.inner, layers);
      GroundIsPresent(env, env.resolve(shape.inner).value, layers - 1);
    }
  }

  /** What the layers below a wrapper end in, the wrapper ends in too. */
  lemma GroundThrough(env: Env, shape: Shape, inner: Shape)
    requires Delegate(shape).Some? && env.resolve(Delegate(shape).value) == Some(inner)
    requires !Inherited(env, inner, 0).Broken?
    ensures Ground(env, shape, Layers(env)) == Ground(env, inner, Layers(env)) == Ground(env, inner, env.limits.maxDepth)
    ensures Ground(env, inner, Layers(env)).Some?
    ensures shape.Optional? ==> Present(env, shape, Layers(env)) == Present(env, inner, Layers(env))
  {
    InheritedIsGround(env, inner, 0);
    MoreLayers(env, inner, env.limits.maxDepth, Layers(env));
    GroundIsPresent(env, inner, env.limits.maxDepth);
  }

  /** The search for a classified value finds one exactly when the schema leads to one. */
  lemma {:induction false} HasClassifiedIfLeads(
      env: Env, shape: Shape, schemaDepth: nat, names: seq<Text>, kind: Kind, steps: nat)
    requires LeadsTo(env, shape, names, kind, steps) && HasClassified(env, shape, schemaDepth).Some?
    ensures HasClassified(env, shape, schemaDepth).value
    decreases steps, 1, 0
  {
    match shape {
      case Fields(_, _) =>
        var fields := DirectedFields(env, shape);
        var f :| f in fields && FieldLeadsTo(env, f, names, kind, steps - 1);
        AnyFieldIfLeads(env, fields, schemaDepth, f, names, kind, steps - 1);
      case Optional(r) => HasClassifiedIfLeads(env, env.resolve(r).value, schemaDepth + 1, names, kind, steps - 1);
      case Sequence(r) => HasClassifiedIfLeads(env, env.resolve(r).value, schemaDepth + 1, names, kind, steps - 1);
      case FixedSequence(r, _) =>
        HasClassifiedIfLeads(env, env.resolve(r).value, schemaDepth + 1, names, kind, steps - 1);
      case _ =>
    }
  }

  lemma {:induction false} AnyFieldIfLeads(
      env: Env, fields: seq<Field>, schemaDepth: nat, f: Field, names: seq<Text>, kind: Kind, steps: nat)
    requires schemaDepth <= env.limits.maxDepth && AnyFieldClassified(env, fields, schemaDepth).Some?
    requires f in fields && names != [] && FieldLeadsTo(env, f, names, kind, steps)
    ensures AnyFieldClassified(env, fields, schemaDepth).value
    decreases steps, 2, |fields|
  {
    if fields[0] == f {
      HasClassifiedIfLeads(env, env.resolve(f.shape).value, schemaDepth + 1, names[1..], kind, steps);
    } else if AnyFieldClassified(env, fields, schemaDepth) == AnyFieldClassified(env, fields[1..], schemaDepth) {
      AnyFieldIfLeads(env, fields[1..], schemaDepth, f, names, kind, steps);
    }
  }

  lemma {:induction false} LeadsIfHasClassified(env: Env, shape: Shape, schemaDepth: nat)
    requires HasClassified(env, shape, schemaDepth) == Some(true)
    ensures LeadsToKind(env, shape)
    decreases env.limits.maxDepth + 1 - schemaDepth, 1, 0
  {
    if shape.Classified? {
      assert LeadsTo(env, shape, [], shape.kind, 0);
    } else if shape.Fields? {
      var f := SomeFieldLeads(env, DirectedFields(env, shape), schemaDepth);
      var names: seq<Text>, kind: Kind, steps: nat :| LeadsTo(env, env.resolve(f.shape).value, names, kind, steps);
      var longer := [f.name] + names;
      assert longer[1..] == names;
      assert FieldLeadsTo(env, f, longer, kind, steps);
      assert LeadsTo(env, shape, longer, kind, steps + 1);
    } else if Delegate(shape).Some? {
      var inner := env.resolve(Delegate(shape).value).value;
      LeadsIfHasClassified(env, inner, schemaDepth + 1);
      var names: seq<Text>, kind: Kind, steps: nat :| LeadsTo(env, inner, names, kind, steps);
      assert LeadsTo(env, shape, names, kind, steps + 1);
    }
  }

  lemma {:induction false} SomeFieldLeads(env: Env, fields: seq<Field>, schemaDepth: nat) returns (f: Field)
    requires schemaDepth <= env.limits.maxDepth && AnyFieldClassified(env, fields, schemaDepth) == Some(true)
    ensures f in fields && env.resolve(f.shape).Some? && LeadsToKind(env, env.resolve(f.shape).value)
    decreases env.limits.maxDepth + 1 - schemaDepth, 0, |fields|
  {
    var shape := env.resolve(fields[0].shape).value;
    if HasClassified(env, shape, schemaDepth + 1) == Some(true) {
      LeadsIfHasClassified(env, shape, schemaDepth + 1);
      f := fields[0];
    } else {
      f := SomeFieldLeads(env, fields[1..], schemaDepth);
    }
  }

  lemma ClassifiedIffLeads(env: Env, shape: Shape)
    requires HasClassified(env, shape, 0).Some?
    ensures HasClassified(env, shape, 0).value <==> LeadsToKind(env, shape)
  {
    if HasClassified(env, shape, 0).value {
      LeadsIfHasClassified(env, shape, 0);
    } else if names: seq<Text>, kind: Kind, steps: nat :| LeadsTo(env, shape, names, kind, steps) {
      HasClassifiedIfLeads(env, shape, 0, names, kind, steps);
    }
  }

  // ---------------------------------------------------------------------------------------------
  // Projections show what the policy says

  function Visible(projected: Projected): Option<Json> {
    match projected
    case Omit => None
    case Value(v) => Some(v)
  }

  lemma SanitizeAnswers(env: Env, v: Json, kind: Kind, depth: nat, above: seq<Text>, t: Trace)
    requires SanitizeClassified(env, v, kind, depth, PathOf(above), t).Done?
    ensures Answered(env, Consultation(env.target, PathOf(above), kind, v),
                     Visible(SanitizeClassified(env, v, kind, depth, PathOf(above), t).result))
  {
  }

  /** Every finished projection shows exactly what the schema and the policy's answers say. */
  lemma {:induction false} ProjectShows(env: Env, v: Json, shape: Shape, depth: nat, above: seq<Text>, t: Trace)
    requires Project(env, v, shape, depth, PathOf(above), t).Done?
    ensures Shows(env, shape, v, above, Visible(Project(env, v, shape, depth, PathOf(above), t).result))
    decreases v, Rank(env, shape), 3, 0
  {
    VisitedShows(env, v, shape, depth, above, t.(visited := t.visited + 1));
  }

  lemma {:induction false} VisitedShows(env: Env, v: Json, shape: Shape, depth: nat, above: seq<Text>, t: Trace)
    requires ProjectVisited(env, v, shape, depth, PathOf(above), t).Done?
    ensures Shows(env, shape, v, above, Visible(ProjectVisited(env, v, shape, depth, PathOf(above), t).result))
    decreases v, Rank(env, shape), 2, 0
  {
    match shape {
      case Opaque =>
      case Classified(kind) =>
        SanitizeAnswers(env, v, kind, depth, above, t.(visited := ValidateDescendants(env, v, depth, t.visited).value));
      case Fields(_, _) => FieldsShow(env, v, DirectedFields(env, shape), {}, depth + 1, above, t);
      case Optional(_) => OptionalShows(env, v, shape, depth, above, t);
      case Sequence(_) => SequenceShows(env, v, shape, None, depth, above, t);
      case FixedSequence(_, length) => SequenceShows(env, v, shape, Some(length), depth, above, t);
    }
  }

  lemma {:induction false} OptionalShows(env: Env, v: Json, shape: Shape, depth: nat, above: seq<Text>, t: Trace)
    requires shape.Optional? && ProjectOptional(env, v, shape, depth, PathOf(above), t).Done?
    ensures Shows(env, shape, v, above, Visible(ProjectOptional(env, v, shape, depth, PathOf(above), t).result))
    decreases v, Rank(env, shape), 1, 0
  {
    var inner := env.resolve(shape.inner).value;
    InheritedIsGround(env, inner, 0);
    GroundThrough(env, shape, inner);
    match Inherited(env, inner, 0) {
      case InheritsOpaque =>
      case InheritsKind(kind) =>
        DelegationDescends(env, shape, inner);
        SanitizeAnswers(env, v, kind, depth, above,
                        t.(visited := ValidateShapeVisited(env, v, shape, depth, t.visited).value));
      case Unclassified =>
        DelegationDescends(env, shape, inner);
        if !v.Null? {
          VisitedShows(env, v, inner, depth, above, t);
        }
    }
  }

  lemma {:induction false} SequenceShows(
      env: Env, v: Json, shape: Shape, required: Option<nat>, depth: nat, above: seq<Text>, t: Trace)
    requires (shape.Sequence? && required.None?) || (shape.FixedSequence? && required == Some(shape.length))
    requires ProjectSequence(env, v, shape, required, depth, PathOf(above), t).Done?
    ensures Shows(env, shape, v, above, Visible(ProjectSequence(env, v, shape, required, depth, PathOf(above), t).result))
    decreases v, Rank(env, shape), 1, 0
  {
    var element := env.resolve(shape.element).value;
    InheritedIsGround(env, element, 0);
    GroundThrough(env, shape, element);
    match Inherited(env, element, 0) {
      case InheritsOpaque =>
      case InheritsKind(kind) =>
        DelegationDescends(env, shape, element);
        SanitizeAnswers(env, v, kind, depth, above,
                        t.(visited := ValidateElements(env, v.items, element, depth + 1, t.visited).value));
      case Unclassified =>
        ItemsShow(env, v.items, element, depth + 1, above, t);
        if v.items == [] { ClassifiedIffLeads(env, element); }
    }
  }

  lemma {:induction false} ItemsShow(env: Env, items: seq<Json>, element: Shape, depth: nat, above: seq<Text>, t: Trace)
    requires ProjectItems(env, items, element, depth, PathOf(above), t).Done?
    ensures ShowsItems(env, element, items, above, ProjectItems(env, items, element, depth, PathOf(above), t).result)
    decreases items, 0, 0, 0
  {
    if items != [] {
      var first := Project(env, items[0], element, depth, PathOf(above), t);
      ProjectShows(env, items[0], element, depth, above, t);
      ItemsShow(env, items[1..], element, depth, above, first.trace);
    }
  }

  lemma {:induction false} FieldsShow(
      env: Env, v: Json, fields: seq<Field>, declared: set<Text>, depth: nat, above: seq<Text>, t: Trace)
    requires v.Obj? && ProjectFields(env, v, fields, declared, depth, PathOf(above), t).Done?
    ensures ShowsFields(env, fields, v, above, ProjectFields(env, v, fields, declared, depth, PathOf(above), t).result)
    decreases v, 0, 1, |fields|
  {
    if fields != [] {
      var declared', found := declared + {fields[0].name}, Find(v.members, fields[0].name);
      if found.None? {
        FieldsShow(env, v, fields[1..], declared', depth, above, t);
      } else {
        var shape, below := env.resolve(fields[0].shape).value, above + [fields[0].name];
        PathOfPush(above, fields[0].name);
        ProjectShows(env, found.value, shape, depth, below, t);
        FieldsShow(env, v, fields[1..], declared', depth, above,
                   Project(env, found.value, shape, depth, PathOf(below), t).trace);
      }
    }
  }

  // ---------------------------------------------------------------------------------------------
  // Nothing else may be seen

  /** The schema and the answers leave no choice. */
  lemma {:induction false} ShowsOneThing(
      env: Env, shape: Shape, v: Json, above: seq<Text>, one: Option<Json>, other: Option<Json>)
    requires Shows(env, shape, v, above, one) && Shows(env, shape, v, above, other)
    ensures one == other
    decreases v, 1, 0
  {
    if Ground(env, shape, Layers(env)).value.Fields? && !(shape.Optional? && v.Null?) {
      match Present(env, shape, Layers(env)).value {
        case Fields(serialize, deserialize) =>
          FieldsShowOneThing(env, if env.direction.Serialize? then serialize else deserialize, v, above,
                             if one.Some? then one.value.members else [],
                             if other.Some? then other.value.members else []);
        case Sequence(r) => ArrayShowsOneThing(env, r, v, above, one, other);
        case FixedSequence(r, _) => ArrayShowsOneThing(env, r, v, above, one, other);
      }
    }
  }

  lemma {:induction false} ArrayShowsOneThing(
      env: Env, r: Resolver, v: Json, above: seq<Text>, one: Option<Json>, other: Option<Json>)
    requires ShowsArray(env, r, v, above, one) && ShowsArray(env, r, v, above, other)
    ensures one == other
    decreases v, 0, 1
  {
    ItemsShowOneThing(env, env.resolve(r).value, v.items, above,
                      if one.Some? then one.value.items else [], if other.Some? then other.value.items else []);
  }

  lemma {:induction false} ItemsShowOneThing(
      env: Env, element: Shape, items: seq<Json>, above: seq<Text>, one: seq<Json>, other: seq<Json>)
    requires ShowsItems(env, element, items, above, one) && ShowsItems(env, element, items, above, other)
    ensures one == other
    decreases items, 0, 0
  {
    if items != [] {
      var head, head' := Head(env, element, items, above, one), Head(env, element, items, above, other);
      ShowsOneThing(env, element, items[0], above, head, head');
      ItemsShowOneThing(env, element, items[1..], above,
                        if head.Some? then one[1..] else one, if head.Some? then other[1..] else other);
    }
  }

  /** What the first element shows. */
  ghost function Head(env: Env, element: Shape, items: seq<Json>, above: seq<Text>, shown: seq<Json>): (r: Option<Json>)
    requires items != [] && ShowsItems(env, element, items, above, shown)
    ensures Shows(env, element, items[0], above, r) && (r.Some? ==> shown != [] && r.value == shown[0])
    ensures ShowsItems(env, element, items[1..], above, if r.Some? then shown[1..] else shown)
  {
    if Shows(env, element, items[0], above, None) && ShowsItems(env, element, items[1..], above, shown) then None
    else Some(shown[0])
  }

  lemma {:induction false} FieldsShowOneThing(
      env: Env, fields: seq<Field>, v: Json, above: seq<Text>, one: seq<Member>, other: seq<Member>)
    requires v.Obj? && ShowsFields(env, fields, v, above, one) && ShowsFields(env, fields, v, above, other)
    ensures one == other
    decreases v, 0, |fields|
  {
    if fields != [] {
      var found := Find(v.members, fields[0].name);
      if found.None? {
        FieldsShowOneThing(env, fields[1..], v, above, one, other);
      } else {
        var head, head' := HeadMember(env, fields, v, above, one), HeadMember(env, fields, v, above, other);
        ShowsOneThing(env, env.resolve(fields[0].shape).value, found.value, above + [fields[0].name], head, head');
        FieldsShowOneThing(env, fields[1..], v, above,
                           if head.Some? then one[1..] else one, if head.Some? then other[1..] else other);
      }
    }
  }

  /** What the first declared field shows. */
  ghost function HeadMember(env: Env, fields: seq<Field>, v: Json, above: seq<Text>, shown: seq<Member>): (r: Option<Json>)
    requires v.Obj? && fields != [] && Find(v.members, fields[0].name).Some?
    requires ShowsFields(env, fields, v, above, shown)
    ensures env.resolve(fields[0].shape).Some?
    ensures Shows(env, env.resolve(fields[0].shape).value, Find(v.members, fields[0].name).value,
                  above + [fields[0].name], r)
    ensures r.Some? ==> shown != [] && shown[0] == Member(fields[0].name, r.value)
    ensures ShowsFields(env, fields[1..], v, above, if r.Some? then shown[1..] else shown)
  {
    if Shows(env, env.resolve(fields[0].shape).value, Find(v.members, fields[0].name).value,
             above + [fields[0].name], None)
       && ShowsFields(env, fields[1..], v, above, shown) then None
    else Some(shown[0].value)
  }
}
