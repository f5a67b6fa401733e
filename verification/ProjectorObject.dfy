/** The projector itself: a mutable node count and path buffer, driven by loops over fields, items and members. */
module ProjectorObject {
  import opened Prelude
  import opened Json
  import P = Projection

  /** Extends an outcome on the remaining fields or items by what has been projected so far. */
  ghost function Prepend<T>(done: seq<T>, rest: P.Outcome<seq<T>>): P.Outcome<seq<T>> {
    match rest
    case Failed(shown) => P.Failed(shown)
    case Done(more, t) => P.Done(done + more, t)
  }

  lemma PrependAssociates<T>(outcome: P.Outcome<seq<T>>)
    ensures Prepend([], outcome) == outcome
    ensures forall done: seq<T>, x: T :: Prepend(done, Prepend([x], outcome)) == Prepend(done + [x], outcome)
  {
    if outcome.Done? {
      assert [] + outcome.result == outcome.result;
      forall done: seq<T>, x: T ensures done + ([x] + outcome.result) == done + [x] + outcome.result {}
    }
  }

  class Projector {
    const env: P.Env
    var visitedNodes: nat
    var path: Text
    /** The values the sanitizer has been shown so far. */
    ghost var consulted: seq<P.Consultation>

    constructor (env: P.Env)
      ensures this.env == env && visitedNodes == 0 && path == "" && consulted == []
    {
      this.env := env;
      visitedNodes, path, consulted := 0, "", [];
    }

    ghost function Trace(): P.Trace
      reads this
    {
      P.Trace(visitedNodes, consulted)
    }

    /** An outcome of the functional model, as a result left behind in the projector. */
    ghost predicate Matches<T(!new)>(r: Option<T>, outcome: P.Outcome<T>)
      reads this
    {
      match r
      case None => outcome == P.Failed(consulted)
      case Some(value) => outcome == P.Done(value, Trace())
    }

    /** The same for a walk that only counts nodes. */
    ghost predicate Counts(ok: bool, walk: Option<nat>)
      reads this
    {
      if ok then walk == Some(visitedNodes) else walk.None?
    }

    method Visit(depth: nat) returns (ok: bool)
      modifies this`visitedNodes
      ensures Counts(ok, P.Visit(env, depth, old(visitedNodes)))
    {
      if depth > env.limits.maxDepth {
        return false;
      }
      visitedNodes := visitedNodes + 1;
      return visitedNodes <= env.limits.maxNodes;
    }

    method ValidateValue(value: Json, depth: nat) returns (ok: bool)
      modifies this`visitedNodes
      ensures Counts(ok, P.ValidateValue(env, value, depth, old(visitedNodes)))
      decreases value, 2
    {
      ok := Visit(depth);
      if ok {
        ok := ValidateDescendants(value, depth);
      }
    }

    method ValidateDescendants(value: Json, depth: nat) returns (ok: bool)
      modifies this`visitedNodes
      ensures Counts(ok, P.ValidateDescendants(env, value, depth, old(visitedNodes)))
      decreases value, 1
    {
      match value {
        case Str(text) => return |text| <= env.limits.maxStringBytes;
        case Arr(items) =>
          if |items| > env.limits.maxArrayItems {
            return false;
          }
          for i := 0 to |items|
            invariant P.ValidateItems(env, items, depth + 1, old(visitedNodes))
                      == P.ValidateItems(env, items[i..], depth + 1, visitedNodes)
          {
            assert items[i..][0] == items[i] && items[i..][1..] == items[i + 1..];
            ok := ValidateValue(items[i], depth + 1);
            if !ok {
              return;
            }
          }
          return true;
        case Obj(members) =>
          for i := 0 to |members|
            invariant P.ValidateMembers(env, members, depth + 1, old(visitedNodes))
                      == P.ValidateMembers(env, members[i..], depth + 1, visitedNodes)
          {
            assert members[i..][0] == members[i] && members[i..][1..] == members[i + 1..];
            if |members[i].name| > env.limits.maxStringBytes {
              return false;
            }
            ok := ValidateValue(members[i].value, depth + 1);
            if !ok {
              return;
            }
          }
          return true;
        case _ => return true;
      }
    }

    method ValidateShape(value: Json, shape: P.Shape, depth: nat) returns (ok: bool)
      requires P.Chain(env, shape, P.HopBudget(env)).Some?
      modifies this`visitedNodes
      ensures Counts(ok, P.ValidateShape(env, value, shape, depth, old(visitedNodes)))
      decreases value, P.Rank(env, shape), 2
    {
      ok := Visit(depth);
      if ok {
        ok := ValidateShapeVisited(value, shape, depth);
      }
    }

    method ValidateShapeVisited(value: Json, shape: P.Shape, depth: nat) returns (ok: bool)
      requires P.Chain(env, shape, P.HopBudget(env)).Some?
      modifies this`visitedNodes
      ensures Counts(ok, P.ValidateShapeVisited(env, value, shape, depth, old(visitedNodes)))
      decreases value, P.Rank(env, shape), 1
    {
      match shape {
        case Opaque => return true;
        case Classified(_) => ok := ValidateDescendants(value, depth);
        case Fields(_, _) => return value.Obj?;
        case Optional(r) =>
          if value.Null? {
            return true;
          }
          P.ChainDescends(env, shape);
          ok := ValidateShapeVisited(value, env.resolve(r).value, depth);
        case Sequence(r) =>
          P.ChainDescends(env, shape);
          ok := ValidateSequence(value, env.resolve(r).value, None, depth);
        case FixedSequence(r, length) =>
          P.ChainDescends(env, shape);
          ok := ValidateSequence(value, env.resolve(r).value, Some(length), depth);
      }
    }

    method ValidateSequence(value: Json, element: P.Shape, required: Option<nat>, depth: nat) returns (ok: bool)
      requires P.Chain(env, element, P.HopBudget(env)).Some?
      modifies this`visitedNodes
      ensures Counts(ok,
                     if !value.Arr? || |value.items| > env.limits.maxArrayItems
                        || (required.Some? && |value.items| != required.value) then None
                     else P.ValidateElements(env, value.items, element, depth + 1, old(visitedNodes)))
      decreases value, 0, 3
    {
      if !value.Arr? || |value.items| > env.limits.maxArrayItems
         || (required.Some? && |value.items| != required.value) {
        return false;
      }
      ok := ValidateElements(value.items, element, depth + 1);
    }

    method ValidateElements(items: seq<Json>, element: P.Shape, depth: nat) returns (ok: bool)
      requires P.Chain(env, element, P.HopBudget(env)).Some?
      modifies this`visitedNodes
      ensures Counts(ok, P.ValidateElements(env, items, element, depth, old(visitedNodes)))
      decreases items, 0, 0
    {
      for i := 0 to |items|
        invariant P.ValidateElements(env, items, element, depth, old(visitedNodes))
                  == P.ValidateElements(env, items[i..], element, depth, visitedNodes)
      {
        assert items[i..][0] == items[i] && items[i..][1..] == items[i + 1..];
        ok := ValidateShape(items[i], element, depth);
        if !ok {
          return;
        }
      }
      return true;
    }

    method SanitizeClassified(value: Json, kind: P.Kind, depth: nat) returns (r: Option<P.Projected>)
      modifies this`visitedNodes, this`consulted
      ensures Matches(r, P.SanitizeClassified(env, value, kind, depth, path, old(Trace())))
    {
      var consultation := P.Consultation(env.target, path, kind, value);
      consulted := consulted + [consultation];
      match env.sanitize(consultation) {
        case None => return None;
        case Some(Omitted) => return Some(P.Omit);
        case Some(Redacted) => return Some(P.Value(Str(P.REDACTED)));
        case Some(Revealed) => return Some(P.Value(value));
        case Some(Replaced(replacement)) =>
          var ok := ValidateValue(replacement, depth);
          return if ok then Some(P.Value(replacement)) else None;
      }
    }

    method Project(value: Json, shape: P.Shape, depth: nat) returns (r: Option<P.Projected>)
      modifies this
      ensures path == old(path)
      ensures Matches(r, P.Project(env, value, shape, depth, path, old(Trace())))
      decreases value, P.Rank(env, shape), 3, 0
    {
      var ok := Visit(depth);
      if !ok {
        return None;
      }
      r := ProjectVisited(value, shape, depth);
    }

    method ProjectVisited(value: Json, shape: P.Shape, depth: nat) returns (r: Option<P.Projected>)
      modifies this
      ensures path == old(path)
      ensures Matches(r, P.ProjectVisited(env, value, shape, depth, path, old(Trace())))
      decreases value, P.Rank(env, shape), 2, 0
    {
      match shape {
        case Opaque => return Some(P.Omit);
        case Classified(kind) =>
          var ok := ValidateDescendants(value, depth);
          if !ok {
            return None;
          }
          r := SanitizeClassified(value, kind, depth);
        case Fields(_, _) =>
          if !value.Obj? {
            return None;
          }
          var members := ProjectFields(value, P.DirectedFields(env, shape), depth + 1);
          return match members
            case None => None
            case Some(ms) => Some(if ms == [] then P.Omit else P.Value(Obj(ms)));
        case Optional(_) => r := ProjectOptional(value, shape, depth);
        case Sequence(_) => r := ProjectSequence(value, shape, None, depth);
        case FixedSequence(_, length) => r := ProjectSequence(value, shape, Some(length), depth);
      }
    }

    method ProjectOptional(value: Json, shape: P.Shape, depth: nat) returns (r: Option<P.Projected>)
      requires shape.Optional?
      modifies this
      ensures path == old(path)
      ensures Matches(r, P.ProjectOptional(env, value, shape, depth, path, old(Trace())))
      decreases value, P.Rank(env, shape), 1, 0
    {
      if env.resolve(shape.inner).None? {
        return None;
      }
      var inner := env.resolve(shape.inner).value;
      match P.Inherited(env, inner, 0) {
        case Broken => return None;
        case InheritsOpaque => return Some(P.Omit);
        case InheritsKind(kind) =>
          P.DelegationDescends(env, shape, inner);
          var ok := ValidateShapeVisited(value, shape, depth);
          if !ok {
            return None;
          }
          r := SanitizeClassified(value, kind, depth);
        case Unclassified =>
          P.DelegationDescends(env, shape, inner);
          if value.Null? {
            return Some(P.Omit);
          }
          r := ProjectVisited(value, inner, depth);
      }
    }

    method ProjectFields(value: Json, fields: seq<P.Field>, depth: nat) returns (r: Option<seq<Member>>)
      requires value.Obj?
      modifies this
      ensures path == old(path)
      ensures Matches(r, P.ProjectFields(env, value, fields, {}, depth, path, old(Trace())))
      decreases value, 0, 1, |fields|
    {
      var projected: seq<Member>, declared: set<Text> := [], {};
      PrependAssociates(P.ProjectFields(env, value, fields, {}, depth, path, Trace()));
      assert fields[0..] == fields;
      for i := 0 to |fields|
        invariant path == old(path)
        invariant P.ProjectFields(env, value, fields, {}, depth, path, old(Trace()))
                  == Prepend(projected, P.ProjectFields(env, value, fields[i..], declared, depth, path, Trace()))
      {
        var field := fields[i];
        assert fields[i..][0] == field && fields[i..][1..] == fields[i + 1..];
        if field.name in declared {
          return None;
        }
        declared := declared + {field.name};
        var found := Find(value.members, field.name);
        if found.Some? {
          if env.resolve(field.shape).None? {
            return None;
          }
          var previous := path;
          path := P.PushSegment(path, field.name);
          var result := Project(found.value, env.resolve(field.shape).value, depth);
          path := previous;
          if result.None? {
            return None;
          }
          PrependAssociates(P.ProjectFields(env, value, fields[i + 1..], declared, depth, path, Trace()));
          if result.value.Value? {
            projected := projected + [Member(field.name, result.value.value)];
          }
        }
      }
      assert projected + [] == projected;
      return Some(projected);
    }

    method ProjectSequence(value: Json, shape: P.Shape, required: Option<nat>, depth: nat)
      returns (r: Option<P.Projected>)
      requires shape.Sequence? || shape.FixedSequence?
      modifies this
      ensures path == old(path)
      ensures Matches(r, P.ProjectSequence(env, value, shape, required, depth, path, old(Trace())))
      decreases value, P.Rank(env, shape), 1, 0
    {
      if !value.Arr? || |value.items| > env.limits.maxArrayItems
         || (required.Some? && |value.items| != required.value) || env.resolve(shape.element).None? {
        return None;
      }
      var element := env.resolve(shape.element).value;
      match P.Inherited(env, element, 0) {
        case Broken => return None;
        case InheritsOpaque => return Some(P.Omit);
        case InheritsKind(kind) =>
          P.DelegationDescends(env, shape, element);
          var ok := ValidateElements(value.items, element, depth + 1);
          if !ok {
            return None;
          }
          r := SanitizeClassified(value, kind, depth);
        case Unclassified =>
          var items := ProjectItems(value.items, element, depth + 1);
          if items.None? {
            return None;
          }
          if items.value != [] {
            return Some(P.Value(Arr(items.value)));
          }
          if value.items != [] {
            return Some(P.Omit);
          }
          return match P.HasClassified(env, element, 0)
            case None => None
            case Some(classified) => Some(if classified then P.Value(Arr([])) else P.Omit);
      }
    }

    method ProjectItems(items: seq<Json>, element: P.Shape, depth: nat) returns (r: Option<seq<Json>>)
      modifies this
      ensures path == old(path)
      ensures Matches(r, P.ProjectItems(env, items, element, depth, path, old(Trace())))
      decreases items, 0, 0, 0
    {
      var projected: seq<Json> := [];
      PrependAssociates(P.ProjectItems(env, items, element, depth, path, Trace()));
      assert items[0..] == items;
      for i := 0 to |items|
        invariant path == old(path)
        invariant P.ProjectItems(env, items, element, depth, path, old(Trace()))
                  == Prepend(projected, P.ProjectItems(env, items[i..], element, depth, path, Trace()))
      {
        assert items[i..][0] == items[i] && items[i..][1..] == items[i + 1..];
        var result := Project(items[i], element, depth);
        if result.None? {
          return None;
        }
        PrependAssociates(P.ProjectItems(env, items[i + 1..], element, depth, path, Trace()));
        if result.value.Value? {
          projected := projected + [result.value.value];
        }
      }
      assert projected + [] == projected;
      return Some(projected);
    }
  }

  method SanitizeArguments(
    env: P.Env, sensitivity: Option<seq<P.Field>>, arguments: seq<Member>, encodedLength: Json -> Option<nat>)
    returns (shown: Option<Json>)
    ensures shown == P.SanitizedArguments(env, sensitivity, arguments, encodedLength)
  {
    if sensitivity.None? {
      return None;
    }
    var projector := new Projector(env);
    var members := projector.ProjectFields(Obj(arguments), sensitivity.value, 0);
    match members {
      case None => return None;
      case Some(ms) =>
        var projected := if ms == [] then P.Omit else P.Value(Obj(ms));
        return P.Finish(env, projected, encodedLength);
    }
  }

  method SanitizeResponse(
    env: P.Env, response: Option<P.Resolver>, body: P.Body, encodedLength: Json -> Option<nat>)
    returns (shown: Option<Json>)
    ensures shown == P.SanitizedResponse(env, response, body, encodedLength)
  {
    if response.None? || env.resolve(response.value).None? {
      return None;
    }
    var shape := env.resolve(response.value).value;
    if shape.Opaque? || body.length > env.limits.maxInputBytes || body.parsed.None? {
      return None;
    }
    var projector := new Projector(env);
    var projected := projector.Project(body.parsed.value, shape, 0);
    match projected {
      case None => return None;
      case Some(p) => return P.Finish(env, p, encodedLength);
    }
  }
}
