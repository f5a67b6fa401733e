/** What every successful projection is held to: the node, depth, array and string budgets. */
module ProjectionBounds {
  import opened Prelude
  import opened Json
  import opened Projection

  /** A projected value at `depth`: only the redaction marker may exceed the string limit. */
  predicate Bounded(limits: Limits, v: Json, depth: nat)
    decreases v, 1
  {
    && depth <= limits.maxDepth
    && match v
       case Str(text) => |text| <= limits.maxStringBytes || text == REDACTED
       case Arr(items) => |items| <= limits.maxArrayItems && ItemsBounded(limits, items, depth + 1)
       case Obj(members) => MembersBounded(limits, members, depth + 1)
       case _ => true
  }

  predicate ItemsBounded(limits: Limits, items: seq<Json>, depth: nat)
    decreases items, 0
  {
    items != [] ==> Bounded(limits, items[0], depth) && ItemsBounded(limits, items[1..], depth)
  }

  predicate MembersBounded(limits: Limits, members: seq<Member>, depth: nat)
    decreases members, 0
  {
    members != [] ==> Bounded(limits, members[0].value, depth) && MembersBounded(limits, members[1..], depth)
  }

  /** A value the sanitizer may be shown: it keeps every limit and its nodes were all charged. */
  ghost predicate Consultable(env: Env, c: Consultation) {
    c.target == env.target && Fits(env.limits, c.value, 0) && NodeCount(c.value) <= env.limits.maxNodes
  }

  /** Whatever was logged since is consultable. */
  ghost predicate ShownSince(env: Env, before: seq<Consultation>, after: seq<Consultation>) {
    before <= after && forall i :: |before| <= i < |after| ==> Consultable(env, after[i])
  }

  /** The trace only grows, stays within the node budget, and logs only consultable values. */
  ghost predicate Grew(env: Env, before: Trace, after: Trace) {
    before.visited <= after.visited <= env.limits.maxNodes && ShownSince(env, before.consulted, after.consulted)
  }

  /** A projected value at `depth` that was paid for with `budget` visited nodes. */
  ghost predicate Paid(env: Env, projected: Projected, depth: nat, budget: int) {
    projected.Value? ==> Bounded(env.limits, projected.value, depth) && NodeCount(projected.value) <= budget
  }

  /**
   * A projection begun at `t` with `charged` nodes of its value already charged keeps every budget; a failed one has
   * still shown the sanitizer only consultable values.
   */
  ghost predicate Keeps(env: Env, outcome: Outcome<Projected>, t: Trace, depth: nat, charged: nat) {
    match outcome
    case Failed(shown) => ShownSince(env, t.consulted, shown)
    case Done(projected, t') => Grew(env, t, t') && Paid(env, projected, depth, t'.visited - t.visited + charged)
  }

  // ---------------------------------------------------------------------------------------------
  // The budgeted walk is exact

  /** Validation succeeds exactly on the values that keep the limits and whose nodes still fit the budget. */
  lemma {:induction false} ValidateValueExact(env: Env, v: Json, depth: nat, visited: nat)
    ensures ValidateValue(env, v, depth, visited)
            == if Fits(env.limits, v, depth) && visited + NodeCount(v) <= env.limits.maxNodes
               then Some(visited + NodeCount(v)) else None
    decreases v, 2
  {
    if Visit(env, depth, visited).Some? {
      ValidateDescendantsExact(env, v, depth, visited + 1);
    }
  }

  lemma {:induction false} ValidateDescendantsExact(env: Env, v: Json, depth: nat, visited: nat)
    requires depth <= env.limits.maxDepth && visited <= env.limits.maxNodes
    ensures ValidateDescendants(env, v, depth, visited)
            == if Fits(env.limits, v, depth) && visited + NodeCount(v) - 1 <= env.limits.maxNodes
               then Some(visited + NodeCount(v) - 1) else None
    decreases v, 1
  {
    match v {
      case Arr(items) => ValidateItemsExact(env, items, depth + 1, visited);
      case Obj(members) => ValidateMembersExact(env, members, depth + 1, visited);
      case _ =>
    }
  }

  lemma {:induction false} ValidateItemsExact(env: Env, items: seq<Json>, depth: nat, visited: nat)
    requires visited <= env.limits.maxNodes
    ensures ValidateItems(env, items, depth, visited)
            == if ItemsFit(env.limits, items, depth) && visited + ItemNodes(items) <= env.limits.maxNodes
               then Some(visited + ItemNodes(items)) else None
    decreases items, 0
  {
    if items != [] {
      ValidateValueExact(env, items[0], depth, visited);
      if ValidateValue(env, items[0], depth, visited).Some? {
        ValidateItemsExact(env, items[1..], depth, visited + NodeCount(items[0]));
      }
    }
  }

  lemma {:induction false} ValidateMembersExact(env: Env, members: seq<Member>, depth: nat, visited: nat)
    requires visited <= env.limits.maxNodes
    ensures ValidateMembers(env, members, depth, visited)
            == if MembersFit(env.limits, members, depth) && visited + MemberNodes(members) <= env.limits.maxNodes
               then Some(visited + MemberNodes(members)) else None
    decreases members, 0
  {
    if members != [] {
      ValidateValueExact(env, members[0].value, depth, visited);
      if ValidateValue(env, members[0].value, depth, visited).Some? {
        ValidateMembersExact(env, members[1..], depth, visited + NodeCount(members[0].value));
      }
    }
  }

  /** Validating a value against a shape that inherits a kind charges the whole value, as if it were a bare kind. */
  lemma {:induction false} InheritedKindCharges(env: Env, v: Json, shape: Shape, schemaDepth: nat, depth: nat, visited: nat)
    requires Chain(env, shape, HopBudget(env)).Some?
    requires Inherited(env, shape, schemaDepth).InheritsKind?
    requires depth <= env.limits.maxDepth && visited <= env.limits.maxNodes
    requires ValidateShapeVisited(env, v, shape, depth, visited).Some?
    ensures ValidateShapeVisited(env, v, shape, depth, visited) == Some(visited + NodeCount(v) - 1)
    ensures Fits(env.limits, v, depth) && visited + NodeCount(v) - 1 <= env.limits.maxNodes
    decreases v, Rank(env, shape), 1
  {
    match shape {
      case Classified(_) => ValidateDescendantsExact(env, v, depth, visited);
      case Optional(r) =>
        if !v.Null? {
          ChainDescends(env, shape);
          InheritedKindCharges(env, v, env.resolve(r).value, schemaDepth + 1, depth, visited);
        }
      case Sequence(r) =>
        ChainDescends(env, shape);
        InheritedElementsCharge(env, v.items, env.resolve(r).value, schemaDepth + 1, depth + 1, visited);
      case FixedSequence(r, _) =>
        ChainDescends(env, shape);
        InheritedElementsCharge(env, v.items, env.resolve(r).value, schemaDepth + 1, depth + 1, visited);
    }
  }

  lemma {:induction false} InheritedElementsCharge(
    env: Env, items: seq<Json>, element: Shape, schemaDepth: nat, depth: nat, visited: nat)
    requires Chain(env, element, HopBudget(env)).Some?
    requires Inherited(env, element, schemaDepth).InheritsKind?
    requires visited <= env.limits.maxNodes
    requires ValidateElements(env, items, element, depth, visited).Some?
    ensures ValidateElements(env, items, element, depth, visited) == Some(visited + ItemNodes(items))
    ensures ItemsFit(env.limits, items, depth) && visited + ItemNodes(items) <= env.limits.maxNodes
    decreases items, 0, 0
  {
    if items != [] {
      InheritedKindCharges(env, items[0], element, schemaDepth, depth, visited + 1);
      InheritedElementsCharge(env, items[1..], element, schemaDepth, depth, visited + NodeCount(items[0]));
    }
  }

  // ---------------------------------------------------------------------------------------------
  // Fitting is inherited by shallower positions and by projections

  lemma {:induction false} FitsShallower(limits: Limits, v: Json, depth: nat, shallower: nat)
    requires shallower <= depth && Fits(limits, v, depth)
    ensures Fits(limits, v, shallower)
    decreases v, 1
  {
    match v {
      case Arr(items) => ItemsFitShallower(limits, items, depth + 1, shallower + 1);
      case Obj(members) => MembersFitShallower(limits, members, depth + 1, shallower + 1);
      case _ =>
    }
  }

  lemma {:induction false} ItemsFitShallower(limits: Limits, items: seq<Json>, depth: nat, shallower: nat)
    requires shallower <= depth && ItemsFit(limits, items, depth)
    ensures ItemsFit(limits, items, shallower)
    decreases items, 0
  {
    if items != [] {
      FitsShallower(limits, items[0], depth, shallower);
      ItemsFitShallower(limits, items[1..], depth, shallower);
    }
  }

  lemma {:induction false} MembersFitShallower(limits: Limits, members: seq<Member>, depth: nat, shallower: nat)
    requires shallower <= depth && MembersFit(limits, members, depth)
    ensures MembersFit(limits, members, shallower)
    decreases members, 0
  {
    if members != [] {
      FitsShallower(limits, members[0].value, depth, shallower);
      MembersFitShallower(limits, members[1..], depth, shallower);
    }
  }

  lemma {:induction false} FitsIsBounded(limits: Limits, v: Json, depth: nat)
    requires Fits(limits, v, depth)
    ensures Bounded(limits, v, depth)
    decreases v, 1
  {
    match v {
      case Arr(items) => ItemsFitAreBounded(limits, items, depth + 1);
      case Obj(members) => MembersFitAreBounded(limits, members, depth + 1);
      case _ =>
    }
  }

  lemma {:induction false} ItemsFitAreBounded(limits: Limits, items: seq<Json>, depth: nat)
    requires ItemsFit(limits, items, depth)
    ensures ItemsBounded(limits, items, depth)
    decreases items, 0
  {
    if items != [] {
      FitsIsBounded(limits, items[0], depth);
      ItemsFitAreBounded(limits, items[1..], depth);
    }
  }

  lemma {:induction false} MembersFitAreBounded(limits: Limits, members: seq<Member>, depth: nat)
    requires MembersFit(limits, members, depth)
    ensures MembersBounded(limits, members, depth)
    decreases members, 0
  {
    if members != [] {
      FitsIsBounded(limits, members[0].value, depth);
      MembersFitAreBounded(limits, members[1..], depth);
    }
  }

  // ---------------------------------------------------------------------------------------------
  // Every projection stays within its budgets

  /** Consulting the sanitizer on a value already charged in full keeps every budget, whatever it answers. */
  lemma SanitizeKeepsBudget(env: Env, value: Json, kind: Kind, depth: nat, path: Text, t: Trace)
    requires Fits(env.limits, value, depth) && NodeCount(value) <= t.visited <= env.limits.maxNodes
    ensures Keeps(env, SanitizeClassified(env, value, kind, depth, path, t), t, depth, NodeCount(value))
  {
    FitsShallower(env.limits, value, depth, 0);
    FitsIsBounded(env.limits, value, depth);
    var answer := env.sanitize(Consultation(env.target, path, kind, value));
    if answer.Some? && answer.value.Replaced? {
      var replacement := answer.value.replacement;
      ValidateValueExact(env, replacement, depth, t.visited);
      if Fits(env.limits, replacement, depth) {
        FitsIsBounded(env.limits, replacement, depth);
      }
    }
  }

  /**
   * The projection of one node, its own visit included, stays within every budget and, even when it fails later on,
   * shows the sanitizer only values already validated within limits.
   */
  lemma {:induction false} ProjectKeepsBudget(env: Env, value: Json, shape: Shape, depth: nat, path: Text, t: Trace)
    requires t.visited <= env.limits.maxNodes
    ensures Keeps(env, Project(env, value, shape, depth, path, t), t, depth, 0)
    decreases value, Rank(env, shape), 3, 0
  {
    if Visit(env, depth, t.visited).Some? {
      VisitedKeepsBudget(env, value, shape, depth, path, t.(visited := t.visited + 1));
    }
  }

  lemma {:induction false} VisitedKeepsBudget(env: Env, value: Json, shape: Shape, depth: nat, path: Text, t: Trace)
    requires depth <= env.limits.maxDepth && 1 <= t.visited <= env.limits.maxNodes
    ensures Keeps(env, ProjectVisited(env, value, shape, depth, path, t), t, depth, 1)
    decreases value, Rank(env, shape), 2, 0
  {
    match shape {
      case Opaque =>
      case Classified(kind) =>
        ValidateDescendantsExact(env, value, depth, t.visited);
        if ValidateDescendants(env, value, depth, t.visited).Some? {
          SanitizeKeepsBudget(env, value, kind, depth, path, t.(visited := t.visited + NodeCount(value) - 1));
        }
      case Fields(_, _) =>
        if value.Obj? {
          FieldsKeepBudget(env, value, DirectedFields(env, shape), {}, depth + 1, path, t);
        }
      case Optional(_) => OptionalKeepsBudget(env, value, shape, depth, path, t);
      case Sequence(_) => SequenceKeepsBudget(env, value, shape, None, depth, path, t);
      case FixedSequence(_, length) => SequenceKeepsBudget(env, value, shape, Some(length), depth, path, t);
    }
  }

  /** A value that inherits a kind is charged in full before it is shown. */
  lemma KindOfValueKeepsBudget(env: Env, value: Json, inner: Shape, kind: Kind, depth: nat, path: Text, t: Trace)
    requires depth <= env.limits.maxDepth && 1 <= t.visited <= env.limits.maxNodes
    requires Chain(env, inner, HopBudget(env)).Some? && Inherited(env, inner, 0) == InheritsKind(kind)
    requires ValidateShapeVisited(env, value, inner, depth, t.visited).Some?
    ensures var visited := ValidateShapeVisited(env, value, inner, depth, t.visited).value;
            Keeps(env, SanitizeClassified(env, value, kind, depth, path, t.(visited := visited)), t, depth, 1)
  {
    InheritedKindCharges(env, value, inner, 0, depth, t.visited);
    SanitizeKeepsBudget(env, value, kind, depth, path, t.(visited := t.visited + NodeCount(value) - 1));
  }

  lemma {:induction false} OptionalKeepsBudget(env: Env, value: Json, shape: Shape, depth: nat, path: Text, t: Trace)
    requires shape.Optional? && depth <= env.limits.maxDepth && 1 <= t.visited <= env.limits.maxNodes
    ensures Keeps(env, ProjectOptional(env, value, shape, depth, path, t), t, depth, 1)
    decreases value, Rank(env, shape), 1, 0
  {
    if env.resolve(shape.inner).Some? {
      var inner := env.resolve(shape.inner).value;
      match Inherited(env, inner, 0) {
        case InheritsKind(kind) =>
          DelegationDescends(env, shape, inner);
          if value.Null? {
            SanitizeKeepsBudget(env, value, kind, depth, path, t);
          } else if ValidateShapeVisited(env, value, inner, depth, t.visited).Some? {
            KindOfValueKeepsBudget(env, value, inner, kind, depth, path, t);
          }
        case Unclassified =>
          DelegationDescends(env, shape, inner);
          if !value.Null? {
            VisitedKeepsBudget(env, value, inner, depth, path, t);
          }
        case _ =>
      }
    }
  }

  /** An array whose elements inherit a kind is charged in full before it is shown as a whole. */
  lemma KindOfElementsKeepsBudget(
    env: Env, value: Json, element: Shape, kind: Kind, depth: nat, path: Text, t: Trace)
    requires value.Arr? && |value.items| <= env.limits.maxArrayItems && depth <= env.limits.maxDepth
    requires 1 <= t.visited <= env.limits.maxNodes
    requires Chain(env, element, HopBudget(env)).Some? && Inherited(env, element, 0) == InheritsKind(kind)
    requires ValidateElements(env, value.items, element, depth + 1, t.visited).Some?
    ensures var visited := ValidateElements(env, value.items, element, depth + 1, t.visited).value;
            Keeps(env, SanitizeClassified(env, value, kind, depth, path, t.(visited := visited)), t, depth, 1)
  {
    InheritedElementsCharge(env, value.items, element, 0, depth + 1, t.visited);
    SanitizeKeepsBudget(env, value, kind, depth, path, t.(visited := t.visited + ItemNodes(value.items)));
  }

  lemma {:induction false} SequenceKeepsBudget(
    env: Env, value: Json, shape: Shape, required: Option<nat>, depth: nat, path: Text, t: Trace)
    requires shape.Sequence? || shape.FixedSequence?
    requires depth <= env.limits.maxDepth && 1 <= t.visited <= env.limits.maxNodes
    ensures Keeps(env, ProjectSequence(env, value, shape, required, depth, path, t), t, depth, 1)
    decreases value, Rank(env, shape), 1, 0
  {
    if value.Arr? && env.resolve(shape.element).Some? {
      var element := env.resolve(shape.element).value;
      match Inherited(env, element, 0) {
        case InheritsKind(kind) =>
          DelegationDescends(env, shape, element);
          if |value.items| <= env.limits.maxArrayItems
             && ValidateElements(env, value.items, element, depth + 1, t.visited).Some? {
            KindOfElementsKeepsBudget(env, value, element, kind, depth, path, t);
          }
        case Unclassified => ItemsKeepBudget(env, value.items, element, depth + 1, path, t);
        case _ =>
      }
    }
  }

  lemma {:induction false} ItemsKeepBudget(env: Env, items: seq<Json>, element: Shape, depth: nat, path: Text, t: Trace)
    requires t.visited <= env.limits.maxNodes
    ensures match ProjectItems(env, items, element, depth, path, t)
            case Failed(shown) => ShownSince(env, t.consulted, shown)
            case Done(projected, t') =>
              && Grew(env, t, t')
              && |projected| <= |items|
              && ItemsBounded(env.limits, projected, depth)
              && ItemNodes(projected) <= t'.visited - t.visited
    decreases items, 0, 0, 0
  {
    if items != [] {
      ProjectKeepsBudget(env, items[0], element, depth, path, t);
      var first := Project(env, items[0], element, depth, path, t);
      if first.Done? {
        ItemsKeepBudget(env, items[1..], element, depth, path, first.trace);
      }
    }
  }

  lemma {:induction false} FieldsKeepBudget(
    env: Env, value: Json, fields: seq<Field>, declared: set<Text>, depth: nat, path: Text, t: Trace)
    requires value.Obj? && t.visited <= env.limits.maxNodes
    ensures match ProjectFields(env, value, fields, declared, depth, path, t)
            case Failed(shown) => ShownSince(env, t.consulted, shown)
            case Done(projected, t') =>
              && Grew(env, t, t')
              && MembersBounded(env.limits, projected, depth)
              && MemberNodes(projected) <= t'.visited - t.visited
    decreases value, 0, 1, |fields|
  {
    if fields != [] && fields[0].name !in declared {
      var declared' := declared + {fields[0].name};
      var found := Find(value.members, fields[0].name);
      if found.None? {
        FieldsKeepBudget(env, value, fields[1..], declared', depth, path, t);
      } else if env.resolve(fields[0].shape).Some? {
        var shape := env.resolve(fields[0].shape).value;
        var path' := PushSegment(path, fields[0].name);
        ProjectKeepsBudget(env, found.value, shape, depth, path', t);
        var first := Project(env, found.value, shape, depth, path', t);
        if first.Done? {
          FieldsKeepBudget(env, value, fields[1..], declared', depth, path, first.trace);
        }
      }
    }
  }

  /** Everything the sanitizer is shown of the arguments, whether they are shown in the end or not. */
  lemma ArgumentsAreValidatedFirst(env: Env, declared: seq<Field>, arguments: seq<Member>)
    ensures forall c :: c in Consulted(ProjectArguments(env, declared, arguments)) ==> Consultable(env, c)
  {
    FieldsKeepBudget(env, Obj(arguments), declared, {}, 0, "", Trace(0, []));
  }

  /** Everything the sanitizer is shown of a response body, whether it is shown in the end or not. */
  lemma ResponseIsValidatedFirst(env: Env, body: Json, shape: Shape)
    ensures forall c :: c in Consulted(Project(env, body, shape, 0, "", Trace(0, []))) ==> Consultable(env, c)
  {
    ProjectKeepsBudget(env, body, shape, 0, "", Trace(0, []));
  }

  /** Shown arguments keep every limit; the object that holds them is the one node never charged. */
  lemma ShownArgumentsKeepLimits(
    env: Env, sensitivity: Option<seq<Field>>, arguments: seq<Member>, encodedLength: Json -> Option<nat>)
    requires SanitizedArguments(env, sensitivity, arguments, encodedLength).Some?
    ensures var v := SanitizedArguments(env, sensitivity, arguments, encodedLength).value;
            && v.Obj? && MembersBounded(env.limits, v.members, 0)
            && NodeCount(v) <= env.limits.maxNodes + 1
            && encodedLength(v).Some? && encodedLength(v).value <= env.limits.maxOutputBytes
    ensures ConsultationsWereValid(env, ProjectArguments(env, sensitivity.value, arguments).trace)
  {
    FieldsKeepBudget(env, Obj(arguments), sensitivity.value, {}, 0, "", Trace(0, []));
  }

  lemma ShownResponseKeepsLimits(
    env: Env, response: Option<Resolver>, body: Body, encodedLength: Json -> Option<nat>)
    requires SanitizedResponse(env, response, body, encodedLength).Some?
    ensures var v := SanitizedResponse(env, response, body, encodedLength).value;
            && Bounded(env.limits, v, 0)
            && NodeCount(v) <= env.limits.maxNodes
            && encodedLength(v).Some? && encodedLength(v).value <= env.limits.maxOutputBytes
            && body.length <= env.limits.maxInputBytes
  {
    ProjectKeepsBudget(env, body.parsed.value, env.resolve(response.value).value, 0, "", Trace(0, []));
  }

  /** Every value the sanitizer was shown had been validated in full, and all were charged to the budget. */
  ghost predicate ConsultationsWereValid(env: Env, t: Trace) {
    t.visited <= env.limits.maxNodes && forall c :: c in t.consulted ==> Consultable(env, c)
  }
}
