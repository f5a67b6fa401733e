/** When a projection finishes, and how many nodes it is charged: exactly, for every value, schema and policy. */
module ProjectionSuccess {
  import opened Prelude
  import opened Json
  import opened Projection
  import opened ProjectionBounds
  import opened JsonPointer
  import opened ProjectionContent

  /** A value has the arrays and nulls that the layers of a shape down to its kind call for. */
  ghost predicate Nested(env: Env, shape: Shape, v: Json, layers: nat)
    decreases layers, 1
  {
    match shape
    case Optional(r) => v.Null? || NestedBeneath(env, r, [v], layers)
    case Sequence(r) => v.Arr? && NestedBeneath(env, r, v.items, layers)
    case FixedSequence(r, length) => v.Arr? && |v.items| == length && NestedBeneath(env, r, v.items, layers)
    case _ => true
  }

  ghost predicate NestedBeneath(env: Env, r: Resolver, items: seq<Json>, layers: nat)
    decreases layers, 0
  {
    && layers > 0 && env.resolve(r).Some?
    && forall i :: 0 <= i < |items| ==> Nested(env, env.resolve(r).value, items[i], layers - 1)
  }

  /** The sanitizer answers, and a replacement keeps the limits where it is put. */
  predicate AnswerFits(env: Env, c: Consultation, depth: nat) {
    match env.sanitize(c)
    case None => false
    case Some(Replaced(replacement)) => Fits(env.limits, replacement, depth)
    case Some(_) => true
  }

  function AnswerNodes(env: Env, c: Consultation): nat {
    match env.sanitize(c)
    case Some(Replaced(replacement)) => NodeCount(replacement)
    case _ => 0
  }

  ghost predicate ArrayWithin(limits: Limits, v: Json, length: Option<nat>) {
    v.Arr? && |v.items| <= limits.maxArrayItems && (length.Some? ==> |v.items| == length.value)
  }

  /** Every limit but the node budget is kept, the value has the schema's form, and the sanitizer plays along. */
  ghost predicate Admits(env: Env, shape: Shape, v: Json, depth: nat, above: seq<Text>)
    decreases v, 1, 0
  {
    && depth <= env.limits.maxDepth
    && match Ground(env, shape, Layers(env))
       case None => false
       case Some(Classified(kind)) =>
         && Nested(env, shape, v, Layers(env)) && Fits(env.limits, v, depth)
         && AnswerFits(env, Consultation(env.target, PathOf(above), kind, v), depth)
       case Some(Fields(_, _)) =>
         if shape.Optional? && v.Null? then true
         else (match Present(env, shape, Layers(env))
               case Some(Fields(serialize, deserialize)) =>
                 var fields := if env.direction.Serialize? then serialize else deserialize;
                 v.Obj? && Unrepeated(fields, {}) && FieldsAdmit(env, fields, v, depth + 1, above)
               case Some(Sequence(r)) => ElementsAdmit(env, r, v, None, depth, above)
               case Some(FixedSequence(r, length)) => ElementsAdmit(env, r, v, Some(length), depth, above)
               case _ => false)
       case Some(_) =>
         match shape
         case Sequence(_) => ArrayWithin(env.limits, v, None)
         case FixedSequence(_, length) => ArrayWithin(env.limits, v, Some(length))
         case _ => true
  }

  ghost predicate ElementsAdmit(env: Env, r: Resolver, v: Json, length: Option<nat>, depth: nat, above: seq<Text>)
    decreases v, 0, 1
  {
    && ArrayWithin(env.limits, v, length) && env.resolve(r).Some?
    && ItemsAdmit(env, env.resolve(r).value, v.items, depth + 1, above)
    && (v.items == [] ==> HasClassified(env, env.resolve(r).value, 0).Some?)
  }

  ghost predicate ItemsAdmit(env: Env, element: Shape, items: seq<Json>, depth: nat, above: seq<Text>)
    decreases items, 0, 0
  {
    items != [] ==> Admits(env, element, items[0], depth, above) && ItemsAdmit(env, element, items[1..], depth, above)
  }

  /** No field name comes twice, or is among those already `declared`. */
  predicate Unrepeated(fields: seq<Field>, declared: set<Text>) {
    && (forall i :: 0 <= i < |fields| ==> fields[i].name !in declared)
    && (forall i, j :: 0 <= i < j < |fields| ==> fields[i].name != fields[j].name)
  }

  ghost predicate FieldsAdmit(env: Env, fields: seq<Field>, v: Json, depth: nat, above: seq<Text>)
    requires v.Obj?
    decreases v, 0, |fields|
  {
    fields != [] ==>
      && FieldsAdmit(env, fields[1..], v, depth, above)
      && match Find(v.members, fields[0].name)
         case None => true
         case Some(child) =>
           && env.resolve(fields[0].shape).Some?
           && Admits(env, env.resolve(fields[0].shape).value, child, depth, above + [fields[0].name])
  }

  /** The nodes charged for a value that is admitted: those looked at, and those of every replacement. */
  ghost function Cost(env: Env, shape: Shape, v: Json, above: seq<Text>): nat
    decreases v, 1, 0
  {
    match Ground(env, shape, Layers(env))
    case Some(Classified(kind)) =>
      NodeCount(v) + AnswerNodes(env, Consultation(env.target, PathOf(above), kind, v))
    case Some(Fields(_, _)) =>
      (match Present(env, shape, Layers(env))
       case Some(Fields(serialize, deserialize)) =>
         if !v.Obj? then 1
         else 1 + FieldsCost(env, if env.direction.Serialize? then serialize else deserialize, v, above)
       case Some(Sequence(r)) => ElementsCost(env, r, v, above)
       case Some(FixedSequence(r, length)) => ElementsCost(env, r, v, above)
       case _ => 1)
    case _ => 1
  }

  ghost function ElementsCost(env: Env, r: Resolver, v: Json, above: seq<Text>): nat
    decreases v, 0, 1
  {
    if v.Arr? && env.resolve(r).Some? then 1 + ItemsCost(env, env.resolve(r).value, v.items, above) else 1
  }

  ghost function ItemsCost(env: Env, element: Shape, items: seq<Json>, above: seq<Text>): nat
    decreases items, 0, 0
  {
    if items == [] then 0 else Cost(env, element, items[0], above) + ItemsCost(env, element, items[1..], above)
  }

  ghost function FieldsCost(env: Env, fields: seq<Field>, v: Json, above: seq<Text>): nat
    requires v.Obj?
    decreases v, 0, |fields|
  {
    if fields == [] then 0
    else
      FieldsCost(env, fields[1..], v, above)
      + match Find(v.members, fields[0].name)
        case None => 0
        case Some(child) =>
          if env.resolve(fields[0].shape).None? then 0
          else Cost(env, env.resolve(fields[0].shape).value, child, above + [fields[0].name])
  }

  // ---------------------------------------------------------------------------------------------
  // Values below an inherited kind

  /** A walk down to a kind succeeds exactly on nested values within the limits, and charges their nodes. */
  lemma {:induction false} ShapeExact(env: Env, v: Json, shape: Shape, layers: nat, depth: nat, visited: nat)
    requires Chain(env, shape, HopBudget(env)).Some?
    requires Ground(env, shape, layers).Some? && Ground(env, shape, layers).value.Classified?
    requires depth <= env.limits.maxDepth && visited <= env.limits.maxNodes
    ensures ValidateShapeVisited(env, v, shape, depth, visited)
            == if Nested(env, shape, v, layers) && Fits(env.limits, v, depth)
                  && visited + NodeCount(v) - 1 <= env.limits.maxNodes
               then Some(visited + NodeCount(v) - 1) else None
    decreases v, Rank(env, shape), 1
  {
    match shape {
      case Classified(_) => ValidateDescendantsExact(env, v, depth, visited);
      case Optional(r) =>
        if !v.Null? {
          ChainDescends(env, shape);
          ShapeExact(env, v, env.resolve(r).value, layers - 1, depth, visited);
          assert NestedBeneath(env, r, [v], layers) <==> Nested(env, env.resolve(r).value, [v][0], layers - 1);
        }
      case Sequence(r) =>
        ChainDescends(env, shape);
        if v.Arr? {
          ElementsExact(env, v.items, env.resolve(r).value, layers - 1, depth + 1, visited);
          assert NestedBeneath(env, r, v.items, layers)
                 <==> forall i :: 0 <= i < |v.items| ==> Nested(env, env.resolve(r).value, v.items[i], layers - 1);
        }
      case FixedSequence(r, _) =>
        ChainDescends(env, shape);
        if v.Arr? {
          ElementsExact(env, v.items, env.resolve(r).value, layers - 1, depth + 1, visited);
          assert NestedBeneath(env, r, v.items, layers)
                 <==> forall i :: 0 <= i < |v.items| ==> Nested(env, env.resolve(r).value, v.items[i], layers - 1);
        }
    }
  }

  lemma {:induction false} ElementsExact(
      env: Env, items: seq<Json>, element: Shape, layers: nat, depth: nat, visited: nat)
    requires Chain(env, element, HopBudget(env)).Some?
    requires Ground(env, element, layers).Some? && Ground(env, element, layers).value.Classified?
    requires visited <= env.limits.maxNodes
    ensures ValidateElements(env, items, element, depth, visited)
            == if (forall i :: 0 <= i < |items| ==> Nested(env, element, items[i], layers))
                  && ItemsFit(env.limits, items, depth) && visited + ItemNodes(items) <= env.limits.maxNodes
               then Some(visited + ItemNodes(items)) else None
    decreases items, 0, 0
  {
    if items != [] {
      assert forall i :: 0 <= i < |items[1..]| ==> items[1..][i] == items[i + 1];
      assert (forall i :: 0 <= i < |items| ==> Nested(env, element, items[i], layers))
             <==> Nested(env, element, items[0], layers)
                  && forall i :: 0 <= i < |items[1..]| ==> Nested(env, element, items[1..][i], layers);
      if Visit(env, depth, visited).Some? {
        ShapeExact(env, items[0], element, layers, depth, visited + 1);
        if ValidateShape(env, items[0], element, depth, visited).Some? {
          ElementsExact(env, items[1..], element, layers, depth, visited + NodeCount(items[0]));
        }
      }
    }
  }

  // ---------------------------------------------------------------------------------------------

  /** A projection at `t` finishes exactly when it is admitted and can be paid for, and then charges its cost. */
  ghost predicate Exact<T>(env: Env, outcome: Outcome<T>, t: Trace, admitted: bool, cost: int) {
    && (outcome.Done? <==> admitted && t.visited + cost <= env.limits.maxNodes)
    && (outcome.Done? ==> outcome.trace.visited == t.visited + cost)
  }

  /** Consulting on a value whose nodes have all been charged. */
  lemma SanitizeExact(env: Env, v: Json, kind: Kind, depth: nat, above: seq<Text>, t: Trace)
    requires t.visited <= env.limits.maxNodes
    ensures var c := Consultation(env.target, PathOf(above), kind, v);
            Exact(env, SanitizeClassified(env, v, kind, depth, PathOf(above), t), t, AnswerFits(env, c, depth),
                  AnswerNodes(env, c))
  {
    var answer := env.sanitize(Consultation(env.target, PathOf(above), kind, v));
    if answer.Some? && answer.value.Replaced? {
      ValidateValueExact(env, answer.value.replacement, depth, t.visited);
    }
  }

  /** Consulting after a walk that charges the nodes of the value beneath its root, if it succeeds. */
  lemma WalkedExact(
      env: Env, v: Json, kind: Kind, depth: nat, above: seq<Text>, t: Trace, walkable: bool, walked: Option<nat>)
    requires t.visited <= env.limits.maxNodes
    requires walked == if walkable && t.visited + NodeCount(v) - 1 <= env.limits.maxNodes
                       then Some(t.visited + NodeCount(v) - 1) else None
    ensures var c := Consultation(env.target, PathOf(above), kind, v);
            var outcome := match walked
              case None => Failed(t.consulted)
              case Some(n) => SanitizeClassified(env, v, kind, depth, PathOf(above), t.(visited := n));
            Exact(env, outcome, t, walkable && AnswerFits(env, c, depth), NodeCount(v) + AnswerNodes(env, c) - 1)
  {
    if walked.Some? {
      SanitizeExact(env, v, kind, depth, above, t.(visited := walked.value));
    }
  }

  /** A projection finishes if and only if the value is admitted and its cost is within the node budget left. */
  lemma {:induction false} ProjectExact(env: Env, v: Json, shape: Shape, depth: nat, above: seq<Text>, t: Trace)
    requires t.visited <= env.limits.maxNodes
    ensures Exact(env, Project(env, v, shape, depth, PathOf(above), t), t, Admits(env, shape, v, depth, above),
                  Cost(env, shape, v, above))
    decreases v, Rank(env, shape), 3, 0
  {
    if Visit(env, depth, t.visited).Some? {
      VisitedExact(env, v, shape, depth, above, t.(visited := t.visited + 1));
    } else {
      CostIsPositive(env, shape, v, above);
    }
  }

  lemma CostIsPositive(env: Env, shape: Shape, v: Json, above: seq<Text>)
    ensures Cost(env, shape, v, above) >= 1
  {
  }

  lemma {:induction false} VisitedExact(env: Env, v: Json, shape: Shape, depth: nat, above: seq<Text>, t: Trace)
    requires depth <= env.limits.maxDepth && t.visited <= env.limits.maxNodes
    ensures Exact(env, ProjectVisited(env, v, shape, depth, PathOf(above), t), t, Admits(env, shape, v, depth, above),
                  Cost(env, shape, v, above) - 1)
    decreases v, Rank(env, shape), 2, 0
  {
    match shape {
      case Opaque =>
      case Classified(kind) =>
        ValidateDescendantsExact(env, v, depth, t.visited);
        WalkedExact(env, v, kind, depth, above, t, Fits(env.limits, v, depth),
                    ValidateDescendants(env, v, depth, t.visited));
      case Fields(_, _) =>
        if v.Obj? { FieldsExact(env, v, DirectedFields(env, shape), {}, depth + 1, above, t); }
      case Optional(_) => OptionalExact(env, v, shape, depth, above, t);
      case Sequence(_) => SequenceExact(env, v, shape, None, depth, above, t);
      case FixedSequence(_, length) => SequenceExact(env, v, shape, Some(length), depth, above, t);
    }
  }

  lemma BrokenHasNoGround(env: Env, shape: Shape)
    requires Delegate(shape).Some?
    requires env.resolve(Delegate(shape).value).None? || Inherited(env, env.resolve(Delegate(shape).value).value, 0).Broken?
    ensures Ground(env, shape, Layers(env)).None?
  {
    if env.resolve(Delegate(shape).value).Some? {
      InheritedIsGround(env, env.resolve(Delegate(shape).value).value, 0);
    }
  }

  lemma {:induction false} OptionalExact(env: Env, v: Json, shape: Shape, depth: nat, above: seq<Text>, t: Trace)
    requires shape.Optional? && depth <= env.limits.maxDepth && t.visited <= env.limits.maxNodes
    ensures Exact(env, ProjectOptional(env, v, shape, depth, PathOf(above), t), t, Admits(env, shape, v, depth, above),
                  Cost(env, shape, v, above) - 1)
    decreases v, Rank(env, shape), 1, 0
  {
    if env.resolve(shape.inner).None? || Inherited(env, env.resolve(shape.inner).value, 0).Broken? {
      BrokenHasNoGround(env, shape);
      return;
    }
    var inner := env.resolve(shape.inner).value;
    InheritedIsGround(env, inner, 0);
    GroundThrough(env, shape, inner);
    match Inherited(env, inner, 0) {
      case InheritsOpaque =>
      case InheritsKind(kind) =>
        DelegationDescends(env, shape, inner);
        ShapeExact(env, v, shape, Layers(env), depth, t.visited);
        WalkedExact(env, v, kind, depth, above, t, Nested(env, shape, v, Layers(env)) && Fits(env.limits, v, depth),
                    ValidateShapeVisited(env, v, shape, depth, t.visited));
      case Unclassified =>
        DelegationDescends(env, shape, inner);
        if !v.Null? {
          VisitedExact(env, v, inner, depth, above, t);
        }
    }
  }

  lemma ArrayOfKindExact(env: Env, v: Json, shape: Shape, element: Shape, depth: nat, visited: nat)
    requires (shape.Sequence? || shape.FixedSequence?) && env.resolve(shape.element) == Some(element)
    requires ArrayWithin(env.limits, v, if shape.Sequence? then None else Some(shape.length))
    requires Chain(env, element, HopBudget(env)).Some? && Inherited(env, element, 0).InheritsKind?
    requires depth <= env.limits.maxDepth && visited <= env.limits.maxNodes
    ensures ValidateElements(env, v.items, element, depth + 1, visited)
            == if Nested(env, shape, v, Layers(env)) && Fits(env.limits, v, depth)
                  && visited + NodeCount(v) - 1 <= env.limits.maxNodes
               then Some(visited + NodeCount(v) - 1) else None
  {
    InheritedIsGround(env, element, 0);
    ElementsExact(env, v.items, element, env.limits.maxDepth, depth + 1, visited);
    assert NestedBeneath(env, shape.element, v.items, Layers(env))
           <==> forall i :: 0 <= i < |v.items| ==> Nested(env, element, v.items[i], env.limits.maxDepth);
  }

  lemma KindAdmits(env: Env, v: Json, shape: Shape, kind: Kind, depth: nat, above: seq<Text>)
    requires Ground(env, shape, Layers(env)) == Some(Classified(kind)) && depth <= env.limits.maxDepth
    ensures var c := Consultation(env.target, PathOf(above), kind, v);
            && Admits(env, shape, v, depth, above)
               == (Nested(env, shape, v, Layers(env)) && Fits(env.limits, v, depth) && AnswerFits(env, c, depth))
            && Cost(env, shape, v, above) == NodeCount(v) + AnswerNodes(env, c)
  {
  }

  lemma SequenceOfKind(
      env: Env, v: Json, shape: Shape, element: Shape, kind: Kind, required: Option<nat>, depth: nat, path: Text, t: Trace)
    requires (shape.Sequence? && required.None?) || (shape.FixedSequence? && required == Some(shape.length))
    requires ArrayWithin(env.limits, v, required) && env.resolve(shape.element) == Some(element)
    requires Inherited(env, element, 0) == InheritsKind(kind) && Chain(env, element, HopBudget(env)).Some?
    ensures ProjectSequence(env, v, shape, required, depth, path, t)
            == match ValidateElements(env, v.items, element, depth + 1, t.visited)
               case None => Failed(t.consulted)
               case Some(visited) => SanitizeClassified(env, v, kind, depth, path, t.(visited := visited))
  {
  }

  lemma SequenceOfKindExact(
      env: Env, v: Json, shape: Shape, element: Shape, kind: Kind, required: Option<nat>, depth: nat, above: seq<Text>,
      t: Trace)
    requires (shape.Sequence? && required.None?) || (shape.FixedSequence? && required == Some(shape.length))
    requires ArrayWithin(env.limits, v, required) && env.resolve(shape.element) == Some(element)
    requires Inherited(env, element, 0) == InheritsKind(kind) && Chain(env, element, HopBudget(env)).Some?
    requires Ground(env, shape, Layers(env)) == Some(Classified(kind))
    requires depth <= env.limits.maxDepth && t.visited <= env.limits.maxNodes
    ensures Exact(env, ProjectSequence(env, v, shape, required, depth, PathOf(above), t), t,
                  Admits(env, shape, v, depth, above), Cost(env, shape, v, above) - 1)
  {
    KindAdmits(env, v, shape, kind, depth, above);
    SequenceOfKind(env, v, shape, element, kind, required, depth, PathOf(above), t);
    ArrayOfKindExact(env, v, shape, element, depth, t.visited);
    WalkedExact(env, v, kind, depth, above, t, Nested(env, shape, v, Layers(env)) && Fits(env.limits, v, depth),
                ValidateElements(env, v.items, element, depth + 1, t.visited));
  }

  lemma {:induction false} SequenceExact(
      env: Env, v: Json, shape: Shape, required: Option<nat>, depth: nat, above: seq<Text>, t: Trace)
    requires (shape.Sequence? && required.None?) || (shape.FixedSequence? && required == Some(shape.length))
    requires depth <= env.limits.maxDepth && t.visited <= env.limits.maxNodes
    ensures Exact(env, ProjectSequence(env, v, shape, required, depth, PathOf(above), t), t,
                  Admits(env, shape, v, depth, above), Cost(env, shape, v, above) - 1)
    decreases v, Rank(env, shape), 1, 0
  {
    if env.resolve(shape.element).None? || Inherited(env, env.resolve(shape.element).value, 0).Broken? {
      BrokenHasNoGround(env, shape);
      return;
    }
    var element := env.resolve(shape.element).value;
    InheritedIsGround(env, element, 0);
    GroundThrough(env, shape, element);
    if !ArrayWithin(env.limits, v, required) {
      return;
    }
    match Inherited(env, element, 0) {
      case InheritsOpaque =>
      case InheritsKind(kind) =>
        DelegationDescends(env, shape, element);
        SequenceOfKindExact(env, v, shape, element, kind, required, depth, above, t);
      case Unclassified => ItemsExact(env, v.items, element, depth + 1, above, t);
    }
  }

  lemma {:induction false} ItemsExact(env: Env, items: seq<Json>, element: Shape, depth: nat, above: seq<Text>, t: Trace)
    requires t.visited <= env.limits.maxNodes
    ensures Exact(env, ProjectItems(env, items, element, depth, PathOf(above), t), t,
                  ItemsAdmit(env, element, items, depth, above), ItemsCost(env, element, items, above))
    decreases items, 0, 0, 0
  {
    if items != [] {
      ProjectExact(env, items[0], element, depth, above, t);
      var first := Project(env, items[0], element, depth, PathOf(above), t);
      if first.Done? {
        ItemsExact(env, items[1..], element, depth, above, first.trace);
      }
    }
  }

  lemma {:induction false} FieldsExact(
      env: Env, v: Json, fields: seq<Field>, declared: set<Text>, depth: nat, above: seq<Text>, t: Trace)
    requires v.Obj? && t.visited <= env.limits.maxNodes
    ensures Exact(env, ProjectFields(env, v, fields, declared, depth, PathOf(above), t), t,
                  Unrepeated(fields, declared) && FieldsAdmit(env, fields, v, depth, above),
                  FieldsCost(env, fields, v, above))
    decreases v, 0, 1, |fields|
  {
    if fields != [] && fields[0].name !in declared {
      var declared', found := declared + {fields[0].name}, Find(v.members, fields[0].name);
      UnrepeatedStep(fields, declared);
      if found.None? {
        FieldsExact(env, v, fields[1..], declared', depth, above, t);
      } else if env.resolve(fields[0].shape).Some? {
        var shape, below := env.resolve(fields[0].shape).value, above + [fields[0].name];
        PathOfPush(above, fields[0].name);
        ProjectExact(env, found.value, shape, depth, below, t);
        var first := Project(env, found.value, shape, depth, PathOf(below), t);
        if first.Done? {
          FieldsExact(env, v, fields[1..], declared', depth, above, first.trace);
        }
      }
    }
  }

  lemma UnrepeatedStep(fields: seq<Field>, declared: set<Text>)
    requires fields != [] && fields[0].name !in declared
    ensures Unrepeated(fields, declared) <==> Unrepeated(fields[1..], declared + {fields[0].name})
  {
    var rest, declared' := fields[1..], declared + {fields[0].name};
    assert forall i :: 0 <= i < |rest| ==> rest[i] == fields[i + 1];
    if Unrepeated(rest, declared') {
      forall i, j | 0 <= i < j < |fields| ensures fields[i].name != fields[j].name {
        assert fields[j] == rest[j - 1];
        if i > 0 { assert fields[i] == rest[i - 1]; }
      }
      forall i | 0 <= i < |fields| ensures fields[i].name !in declared {
        if i > 0 { assert fields[i] == rest[i - 1]; }
      }
    }
  }

  // ---------------------------------------------------------------------------------------------
  // Whole projections

  /** The encoder takes the value, within the output limit. */
  predicate Encodes(env: Env, v: Json, encodedLength: Json -> Option<nat>) {
    encodedLength(v).Some? && encodedLength(v).value <= env.limits.maxOutputBytes
  }

  /**
   * Arguments are shown if and only if they are declared sensitive or not at all, admitted, within the node budget and
   * encodable; what is shown are the declared fields that show something, in order.
   */
  lemma ShownArguments(
      env: Env, sensitivity: Option<seq<Field>>, arguments: seq<Member>, encodedLength: Json -> Option<nat>, x: Json)
    ensures SanitizedArguments(env, sensitivity, arguments, encodedLength) == Some(x)
            <==> && sensitivity.Some? && Unrepeated(sensitivity.value, {})
                 && FieldsAdmit(env, sensitivity.value, Obj(arguments), 0, [])
                 && FieldsCost(env, sensitivity.value, Obj(arguments), []) <= env.limits.maxNodes
                 && x.Obj? && x.members != []
                 && ShowsFields(env, sensitivity.value, Obj(arguments), [], x.members)
                 && Encodes(env, x, encodedLength)
  {
    if sensitivity.Some? {
      var declared := sensitivity.value;
      FieldsExact(env, Obj(arguments), declared, {}, 0, [], Trace(0, []));
      var outcome := ProjectFields(env, Obj(arguments), declared, {}, 0, PathOf([]), Trace(0, []));
      if outcome.Done? {
        FieldsShow(env, Obj(arguments), declared, {}, 0, [], Trace(0, []));
        if x.Obj? && ShowsFields(env, declared, Obj(arguments), [], x.members) {
          FieldsShowOneThing(env, declared, Obj(arguments), [], outcome.result, x.members);
        }
      }
    }
  }

  /**
   * A response is shown if and only if it is classified, within the input limit, parses, is admitted, within the node
   * budget and encodable; what is shown is what the schema and the policy show of it.
   */
  lemma ShownResponse(env: Env, response: Option<Resolver>, body: Body, encodedLength: Json -> Option<nat>, x: Json)
    ensures SanitizedResponse(env, response, body, encodedLength) == Some(x)
            <==> && response.Some? && env.resolve(response.value).Some? && !env.resolve(response.value).value.Opaque?
                 && body.length <= env.limits.maxInputBytes && body.parsed.Some?
                 && var shape, v := env.resolve(response.value).value, body.parsed.value;
                    && Admits(env, shape, v, 0, []) && Cost(env, shape, v, []) <= env.limits.maxNodes
                    && Shows(env, shape, v, [], Some(x)) && Encodes(env, x, encodedLength)
  {
    if response.Some? && env.resolve(response.value).Some? && body.parsed.Some? {
      var shape, v := env.resolve(response.value).value, body.parsed.value;
      ProjectExact(env, v, shape, 0, [], Trace(0, []));
      var outcome := Project(env, v, shape, 0, PathOf([]), Trace(0, []));
      if outcome.Done? {
        ProjectShows(env, v, shape, 0, [], Trace(0, []));
        if Shows(env, shape, v, [], Some(x)) {
          ShowsOneThing(env, shape, v, [], Visible(outcome.result), Some(x));
        }
      }
    }
  }
}
