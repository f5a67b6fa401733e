/** Where the sanitizer is consulted: every logged path names the declared fields that lead to the consulted kind. */
module ProjectionPaths {
  import opened Prelude
  import opened Json
  import opened Projection
  import opened JsonPointer

  /**
   * The schema leads from a shape through the declared fields `names`, in this order, to a kind; optional and
   * sequence shapes are passed through without a name of their own.
   */
  ghost predicate LeadsTo(env: Env, shape: Shape, names: seq<Text>, kind: Kind, steps: nat)
    decreases steps, 0
  {
    match shape
    case Opaque => false
    case Classified(k) => names == [] && k == kind
    case Fields(_, _) =>
      names != [] && steps > 0
      && exists f :: f in DirectedFields(env, shape) && FieldLeadsTo(env, f, names, kind, steps - 1)
    case _ =>
      steps > 0 && env.resolve(Delegate(shape).value).Some?
      && LeadsTo(env, env.resolve(Delegate(shape).value).value, names, kind, steps - 1)
  }

  ghost predicate FieldLeadsTo(env: Env, f: Field, names: seq<Text>, kind: Kind, steps: nat)
    requires names != []
    decreases steps, 1
  {
    f.name == names[0] && env.resolve(f.shape).Some?
    && LeadsTo(env, env.resolve(f.shape).value, names[1..], kind, steps)
  }

  /** A consultation below `above` has the path of some declared names that lead to its kind. */
  ghost predicate Explained(env: Env, shape: Shape, above: seq<Text>, c: Consultation) {
    exists names: seq<Text>, steps: nat :: LeadsTo(env, shape, names, c.kind, steps) && c.path == PathOf(above + names)
  }

  ghost predicate ExplainedByField(env: Env, fields: seq<Field>, above: seq<Text>, c: Consultation) {
    exists f :: f in fields && env.resolve(f.shape).Some?
                && Explained(env, env.resolve(f.shape).value, above + [f.name], c)
  }

  ghost predicate ExplainedSince(
    env: Env, shape: Shape, above: seq<Text>, before: seq<Consultation>, after: seq<Consultation>)
  {
    before <= after && forall i :: |before| <= i < |after| ==> Explained(env, shape, above, after[i])
  }

  ghost predicate FieldsExplainedSince(
    env: Env, fields: seq<Field>, above: seq<Text>, before: seq<Consultation>, after: seq<Consultation>)
  {
    before <= after && forall i :: |before| <= i < |after| ==> ExplainedByField(env, fields, above, after[i])
  }

  // ---------------------------------------------------------------------------------------------

  lemma ThroughDelegate(env: Env, shape: Shape, inner: Shape, above: seq<Text>, c: Consultation)
    requires Delegate(shape).Some? && env.resolve(Delegate(shape).value) == Some(inner)
    requires Explained(env, inner, above, c)
    ensures Explained(env, shape, above, c)
  {
    var names: seq<Text>, steps: nat :| LeadsTo(env, inner, names, c.kind, steps) && c.path == PathOf(above + names);
    assert LeadsTo(env, shape, names, c.kind, steps + 1);
  }

  lemma ThroughField(env: Env, shape: Shape, above: seq<Text>, c: Consultation)
    requires shape.Fields? && ExplainedByField(env, DirectedFields(env, shape), above, c)
    ensures Explained(env, shape, above, c)
  {
    var f :| f in DirectedFields(env, shape) && env.resolve(f.shape).Some?
             && Explained(env, env.resolve(f.shape).value, above + [f.name], c);
    var names: seq<Text>, steps: nat :| LeadsTo(env, env.resolve(f.shape).value, names, c.kind, steps)
                        && c.path == PathOf(above + [f.name] + names);
    var longer := [f.name] + names;
    assert longer[1..] == names && above + longer == above + [f.name] + names;
    assert FieldLeadsTo(env, f, longer, c.kind, steps);
    assert LeadsTo(env, shape, longer, c.kind, steps + 1);
  }

  /** An inherited kind is reached without naming any field. */
  lemma {:induction false} InheritedLeads(env: Env, shape: Shape, schemaDepth: nat) returns (steps: nat)
    requires Inherited(env, shape, schemaDepth).InheritsKind?
    ensures LeadsTo(env, shape, [], Inherited(env, shape, schemaDepth).kind, steps)
    decreases env.limits.maxDepth + 1 - schemaDepth
  {
    steps := 0;
    if Delegate(shape).Some? {
      steps := InheritedLeads(env, env.resolve(Delegate(shape).value).value, schemaDepth + 1);
      steps := steps + 1;
    }
  }

  /** A single consultation for a kind the shape itself leads to. */
  lemma SanitizeExplained(env: Env, shape: Shape, value: Json, kind: Kind, depth: nat, above: seq<Text>, t: Trace, steps: nat)
    requires LeadsTo(env, shape, [], kind, steps)
    ensures ExplainedSince(env, shape, above, t.consulted,
                           Consulted(SanitizeClassified(env, value, kind, depth, PathOf(above), t)))
  {
    var c := Consultation(env.target, PathOf(above), kind, value);
    assert above + [] == above;
    assert Explained(env, shape, above, c);
  }

  lemma DelegateExplained(
    env: Env, shape: Shape, inner: Shape, above: seq<Text>, before: seq<Consultation>, after: seq<Consultation>)
    requires Delegate(shape).Some? && env.resolve(Delegate(shape).value) == Some(inner)
    requires ExplainedSince(env, inner, above, before, after)
    ensures ExplainedSince(env, shape, above, before, after)
  {
    forall i | |before| <= i < |after| ensures Explained(env, shape, above, after[i]) {
      ThroughDelegate(env, shape, inner, above, after[i]);
    }
  }

  // ---------------------------------------------------------------------------------------------

  /** Every consultation of a projection, failed ones included, is explained by the schema. */
  lemma {:induction false} ProjectExplained(env: Env, value: Json, shape: Shape, depth: nat, above: seq<Text>, t: Trace)
    ensures ExplainedSince(env, shape, above, t.consulted, Consulted(Project(env, value, shape, depth, PathOf(above), t)))
    decreases value, Rank(env, shape), 3, 0
  {
    if Visit(env, depth, t.visited).Some? {
      VisitedExplained(env, value, shape, depth, above, t.(visited := t.visited + 1));
    }
  }

  lemma {:induction false} VisitedExplained(env: Env, value: Json, shape: Shape, depth: nat, above: seq<Text>, t: Trace)
    ensures ExplainedSince(env, shape, above, t.consulted,
                           Consulted(ProjectVisited(env, value, shape, depth, PathOf(above), t)))
    decreases value, Rank(env, shape), 2, 0
  {
    match shape {
      case Opaque =>
      case Classified(kind) =>
        var visited := ValidateDescendants(env, value, depth, t.visited);
        if visited.Some? {
          SanitizeExplained(env, shape, value, kind, depth, above, t.(visited := visited.value), 0);
        }
      case Fields(_, _) =>
        if value.Obj? {
          var fields := DirectedFields(env, shape);
          FieldsExplained(env, value, fields, fields, {}, depth + 1, above, t);
          var after := Consulted(ProjectFields(env, value, fields, {}, depth + 1, PathOf(above), t));
          forall i | |t.consulted| <= i < |after| ensures Explained(env, shape, above, after[i]) {
            ThroughField(env, shape, above, after[i]);
          }
        }
      case Optional(_) => OptionalExplained(env, value, shape, depth, above, t);
      case Sequence(_) => SequenceExplained(env, value, shape, None, depth, above, t);
      case FixedSequence(_, length) => SequenceExplained(env, value, shape, Some(length), depth, above, t);
    }
  }

  lemma {:induction false} OptionalExplained(env: Env, value: Json, shape: Shape, depth: nat, above: seq<Text>, t: Trace)
    requires shape.Optional?
    ensures ExplainedSince(env, shape, above, t.consulted,
                           Consulted(ProjectOptional(env, value, shape, depth, PathOf(above), t)))
    decreases value, Rank(env, shape), 1, 0
  {
    if env.resolve(shape.inner).Some? {
      var inner := env.resolve(shape.inner).value;
      match Inherited(env, inner, 0) {
        case InheritsKind(kind) =>
          DelegationDescends(env, shape, inner);
          var steps := InheritedLeads(env, inner, 0);
          var visited := ValidateShapeVisited(env, value, shape, depth, t.visited);
          if visited.Some? {
            assert LeadsTo(env, shape, [], kind, steps + 1);
            SanitizeExplained(env, shape, value, kind, depth, above, t.(visited := visited.value), steps + 1);
          }
        case Unclassified =>
          DelegationDescends(env, shape, inner);
          if !value.Null? {
            VisitedExplained(env, value, inner, depth, above, t);
            DelegateExplained(env, shape, inner, above, t.consulted,
                              Consulted(ProjectVisited(env, value, inner, depth, PathOf(above), t)));
          }
        case _ =>
      }
    }
  }

  lemma {:induction false} SequenceExplained(
    env: Env, value: Json, shape: Shape, required: Option<nat>, depth: nat, above: seq<Text>, t: Trace)
    requires shape.Sequence? || shape.FixedSequence?
    ensures ExplainedSince(env, shape, above, t.consulted,
                           Consulted(ProjectSequence(env, value, shape, required, depth, PathOf(above), t)))
    decreases value, Rank(env, shape), 1, 0
  {
    if value.Arr? && env.resolve(shape.element).Some? {
      var element := env.resolve(shape.element).value;
      match Inherited(env, element, 0) {
        case InheritsKind(kind) =>
          DelegationDescends(env, shape, element);
          var steps := InheritedLeads(env, element, 0);
          var visited := ValidateElements(env, value.items, element, depth + 1, t.visited);
          if visited.Some? {
            assert LeadsTo(env, shape, [], kind, steps + 1);
            SanitizeExplained(env, shape, value, kind, depth, above, t.(visited := visited.value), steps + 1);
          }
        case Unclassified =>
          ItemsExplained(env, value.items, element, depth + 1, above, t);
          DelegateExplained(env, shape, element, above, t.consulted,
                            Consulted(ProjectItems(env, value.items, element, depth + 1, PathOf(above), t)));
        case _ =>
      }
    }
  }

  lemma {:induction false} ItemsExplained(env: Env, items: seq<Json>, element: Shape, depth: nat, above: seq<Text>, t: Trace)
    ensures ExplainedSince(env, element, above, t.consulted,
                           Consulted(ProjectItems(env, items, element, depth, PathOf(above), t)))
    decreases items, 0, 0, 0
  {
    if items != [] {
      ProjectExplained(env, items[0], element, depth, above, t);
      var first := Project(env, items[0], element, depth, PathOf(above), t);
      if first.Done? {
        ItemsExplained(env, items[1..], element, depth, above, first.trace);
      }
    }
  }

  lemma {:induction false} FieldsExplained(
    env: Env, value: Json, all: seq<Field>, fields: seq<Field>, declared: set<Text>, depth: nat, above: seq<Text>, t: Trace)
    requires value.Obj? && forall f :: f in fields ==> f in all
    ensures FieldsExplainedSince(env, all, above, t.consulted,
                                 Consulted(ProjectFields(env, value, fields, declared, depth, PathOf(above), t)))
    decreases value, 0, 1, |fields|
  {
    if fields != [] && fields[0].name !in declared {
      var f := fields[0];
      var declared' := declared + {f.name};
      var found := Find(value.members, f.name);
      if found.None? {
        FieldsExplained(env, value, all, fields[1..], declared', depth, above, t);
      } else if env.resolve(f.shape).Some? {
        var shape := env.resolve(f.shape).value;
        PathOfPush(above, f.name);
        ProjectExplained(env, found.value, shape, depth, above + [f.name], t);
        var first := Project(env, found.value, shape, depth, PathOf(above + [f.name]), t);
        assert f in all;
        if first.Done? {
          FieldsExplained(env, value, all, fields[1..], declared', depth, above, first.trace);
        }
      }
    }
  }

  // ---------------------------------------------------------------------------------------------

  /** The path of every consultation on a response parses back into declared names that lead to its kind. */
  lemma ResponsePathsNameFields(env: Env, body: Json, shape: Shape, c: Consultation)
    requires c in Consulted(Project(env, body, shape, 0, "", Trace(0, [])))
    ensures exists steps: nat :: LeadsTo(env, shape, Parse(c.path), c.kind, steps)
    ensures c.path == PathOf(Parse(c.path))
  {
    ProjectExplained(env, body, shape, 0, [], Trace(0, []));
    var names: seq<Text>, steps: nat :| LeadsTo(env, shape, names, c.kind, steps) && c.path == PathOf([] + names);
    assert [] + names == names;
    PointerRoundTrip(names);
  }

  /** The same for arguments, whose names come first. */
  lemma ArgumentPathsNameFields(env: Env, declared: seq<Field>, arguments: seq<Member>, c: Consultation)
    requires c in Consulted(ProjectArguments(env, declared, arguments))
    ensures c.path == PathOf(Parse(c.path)) && Parse(c.path) != []
    ensures exists f, steps: nat :: f in declared && FieldLeadsTo(env, f, Parse(c.path), c.kind, steps)
  {
    FieldsExplained(env, Obj(arguments), declared, declared, {}, 0, [], Trace(0, []));
    assert ExplainedByField(env, declared, [], c);
    var f :| f in declared && env.resolve(f.shape).Some? && Explained(env, env.resolve(f.shape).value, [] + [f.name], c);
    var names: seq<Text>, steps: nat :| LeadsTo(env, env.resolve(f.shape).value, names, c.kind, steps)
                        && c.path == PathOf([] + [f.name] + names);
    var all := [f.name] + names;
    assert [] + [f.name] + names == all && all[1..] == names;
    PointerRoundTrip(all);
    assert FieldLeadsTo(env, f, Parse(c.path), c.kind, steps);
  }
}
