/**
 * Schema-driven projection of JSON values, as functions that thread the visited-node count and the log of
 * sanitizer consultations. A resolver is a name into a shape table, so recursive and infinitely nested schemas
 * are expressible; a resolver or sanitizer that panics yields None and fails the projection closed.
 */
module Projection {
  import opened Prelude
  import opened Json

  type Resolver = nat
  type Kind = Text

  datatype Shape =
    | Opaque
    | Classified(kind: Kind)
    | Fields(serialize: seq<Field>, deserialize: seq<Field>)
    | Optional(inner: Resolver)
    | Sequence(element: Resolver)
    | FixedSequence(element: Resolver, length: nat)

  datatype Field = Field(name: Text, shape: Resolver)

  datatype Direction = Serialize | Deserialize

  datatype Target = ArgumentsTarget | ResponseTarget

  /** What a sanitizer sees of one classified value. */
  datatype Consultation = Consultation(target: Target, path: Text, kind: Kind, value: Json)

  datatype Sanitization = Omitted | Redacted | Revealed | Replaced(replacement: Json)

  datatype Env = Env(
    resolve: Resolver -> Option<Shape>,
    sanitize: Consultation -> Option<Sanitization>,
    limits: Limits,
    direction: Direction,
    target: Target)

  datatype Projected = Omit | Value(value: Json)

  datatype Trace = Trace(visited: nat, consulted: seq<Consultation>)

  /** A failed projection shows nothing, but what the sanitizer was shown on the way stays on record. */
  datatype Outcome<T> = Failed(shown: seq<Consultation>) | Done(result: T, trace: Trace)

  /** What the sanitizer has been shown when a projection ends, either way. */
  function Consulted<T>(outcome: Outcome<T>): seq<Consultation> {
    match outcome
    case Failed(shown) => shown
    case Done(_, t) => t.consulted
  }

  datatype Lineage = Broken | Unclassified | InheritsOpaque | InheritsKind(kind: Kind)

  const REDACTED: Text := "<redacted>"

  function DirectedFields(env: Env, shape: Shape): seq<Field>
    requires shape.Fields?
  {
    match env.direction
    case Serialize => shape.serialize
    case Deserialize => shape.deserialize
  }

  /** Appends one escaped segment of an RFC 6901 pointer. */
  function PushSegment(path: Text, segment: Text): Text {
    path + "/" + Escape(segment)
  }

  function Escape(segment: Text): Text {
    if segment == "" then ""
    else EscapeChar(segment[0]) + Escape(segment[1..])
  }

  function EscapeChar(c: char): Text {
    if c == '~' then "~0" else if c == '/' then "~1" else [c]
  }

  // ---------------------------------------------------------------------------------------------
  // Shapes

  /** The resolver a shape delegates its classification to, if it delegates at all. */
  function Delegate(shape: Shape): Option<Resolver> {
    match shape
    case Optional(r) => Some(r)
    case Sequence(r) => Some(r)
    case FixedSequence(r, _) => Some(r)
    case _ => None
  }

  function Inherited(env: Env, shape: Shape, schemaDepth: nat): Lineage
    decreases env.limits.maxDepth + 1 - schemaDepth
  {
    if schemaDepth > env.limits.maxDepth then Broken
    else match shape
      case Opaque => InheritsOpaque
      case Classified(kind) => InheritsKind(kind)
      case Fields(_, _) => Unclassified
      case _ =>
        match env.resolve(Delegate(shape).value)
        case None => Broken
        case Some(inner) => Inherited(env, inner, schemaDepth + 1)
  }

  function HasClassified(env: Env, shape: Shape, schemaDepth: nat): Option<bool>
    decreases env.limits.maxDepth + 1 - schemaDepth, 1, 0
  {
    if schemaDepth > env.limits.maxDepth then None
    else match shape
      case Opaque => Some(false)
      case Classified(_) => Some(true)
      case Fields(_, _) => AnyFieldClassified(env, DirectedFields(env, shape), schemaDepth)
      case _ =>
        match env.resolve(Delegate(shape).value)
        case None => None
        case Some(inner) => HasClassified(env, inner, schemaDepth + 1)
  }

  function AnyFieldClassified(env: Env, fields: seq<Field>, schemaDepth: nat): Option<bool>
    requires schemaDepth <= env.limits.maxDepth
    decreases env.limits.maxDepth + 1 - schemaDepth, 0, |fields|
  {
    if fields == [] then Some(false)
    else match env.resolve(fields[0].shape)
      case None => None
      case Some(shape) =>
        match HasClassified(env, shape, schemaDepth + 1)
        case None => None
        case Some(true) => Some(true)
        case Some(false) => AnyFieldClassified(env, fields[1..], schemaDepth)
  }

  /** How many delegations lead from a shape to one that delegates no further, within a budget of hops. */
  function Chain(env: Env, shape: Shape, budget: nat): (hops: Option<nat>)
    ensures hops.Some? ==> hops.value <= budget
    decreases budget
  {
    match Delegate(shape)
    case None => Some(0)
    case Some(r) =>
      if budget == 0 || env.resolve(r).None? then None
      else match Chain(env, env.resolve(r).value, budget - 1)
        case None => None
        case Some(hops) => Some(hops + 1)
  }

  function HopBudget(env: Env): nat {
    env.limits.maxDepth + 1
  }

  /** The second component of the termination measure: the length of the delegation chain, or a cap beyond it. */
  function Rank(env: Env, shape: Shape): nat {
    match Chain(env, shape, HopBudget(env))
    case Some(hops) => hops
    case None => HopBudget(env) + 1
  }

  lemma {:induction false} ChainMonotone(env: Env, shape: Shape, small: nat, large: nat)
    requires small <= large && Chain(env, shape, small).Some?
    ensures Chain(env, shape, large) == Chain(env, shape, small)
    decreases small
  {
    if Delegate(shape).Some? {
      ChainMonotone(env, env.resolve(Delegate(shape).value).value, small - 1, large - 1);
    }
  }

  /** The schema-depth check is what bounds a delegation chain. */
  lemma {:induction false} InheritedEndsChain(env: Env, shape: Shape, schemaDepth: nat)
    requires !Inherited(env, shape, schemaDepth).Broken?
    ensures schemaDepth <= env.limits.maxDepth
    ensures Chain(env, shape, env.limits.maxDepth - schemaDepth).Some?
    decreases env.limits.maxDepth + 1 - schemaDepth
  {
    if Delegate(shape).Some? {
      InheritedEndsChain(env, env.resolve(Delegate(shape).value).value, schemaDepth + 1);
    }
  }

  /** Following one delegation of a classifiable shape strictly lowers the rank. */
  lemma DelegationDescends(env: Env, shape: Shape, inner: Shape)
    requires Delegate(shape).Some? && env.resolve(Delegate(shape).value) == Some(inner)
    requires !Inherited(env, inner, 0).Broken?
    ensures Chain(env, inner, HopBudget(env)).Some? && Chain(env, shape, HopBudget(env)).Some?
    ensures Rank(env, inner) + 1 == Rank(env, shape)
  {
    InheritedEndsChain(env, inner, 0);
    ChainMonotone(env, inner, env.limits.maxDepth, HopBudget(env));
  }

  /** The same for a chain already known to end. */
  lemma ChainDescends(env: Env, shape: Shape)
    requires Chain(env, shape, HopBudget(env)).Some? && Delegate(shape).Some?
    ensures env.resolve(Delegate(shape).value).Some?
    ensures var inner := env.resolve(Delegate(shape).value).value;
            && Chain(env, inner, HopBudget(env)).Some?
            && Rank(env, inner) + 1 == Rank(env, shape)
  {
    ChainMonotone(env, env.resolve(Delegate(shape).value).value, HopBudget(env) - 1, HopBudget(env));
  }

  // ---------------------------------------------------------------------------------------------
  // Budgeted walks

  /** Charges one node at a depth against the budgets. */
  function Visit(env: Env, depth: nat, visited: nat): Option<nat> {
    if depth > env.limits.maxDepth || visited + 1 > env.limits.maxNodes then None
    else Some(visited + 1)
  }

  function ValidateValue(env: Env, value: Json, depth: nat, visited: nat): Option<nat>
    decreases value, 2
  {
    match Visit(env, depth, visited)
    case None => None
    case Some(visited') => ValidateDescendants(env, value, depth, visited')
  }

  function ValidateDescendants(env: Env, value: Json, depth: nat, visited: nat): Option<nat>
    decreases value, 1
  {
    match value
    case Str(text) => if |text| > env.limits.maxStringBytes then None else Some(visited)
    case Arr(items) =>
      if |items| > env.limits.maxArrayItems then None else ValidateItems(env, items, depth + 1, visited)
    case Obj(members) => ValidateMembers(env, members, depth + 1, visited)
    case _ => Some(visited)
  }

  function ValidateItems(env: Env, items: seq<Json>, depth: nat, visited: nat): Option<nat>
    decreases items, 0
  {
    if items == [] then Some(visited)
    else match ValidateValue(env, items[0], depth, visited)
      case None => None
      case Some(visited') => ValidateItems(env, items[1..], depth, visited')
  }

  function ValidateMembers(env: Env, members: seq<Member>, depth: nat, visited: nat): Option<nat>
    decreases members, 0
  {
    if members == [] then Some(visited)
    else if |members[0].name| > env.limits.maxStringBytes then None
    else match ValidateValue(env, members[0].value, depth, visited)
      case None => None
      case Some(visited') => ValidateMembers(env, members[1..], depth, visited')
  }

  function ValidateShape(env: Env, value: Json, shape: Shape, depth: nat, visited: nat): Option<nat>
    requires Chain(env, shape, HopBudget(env)).Some?
    decreases value, Rank(env, shape), 2
  {
    match Visit(env, depth, visited)
    case None => None
    case Some(visited') => ValidateShapeVisited(env, value, shape, depth, visited')
  }

  function ValidateShapeVisited(env: Env, value: Json, shape: Shape, depth: nat, visited: nat): Option<nat>
    requires Chain(env, shape, HopBudget(env)).Some?
    decreases value, Rank(env, shape), 1
  {
    match shape
    case Opaque => Some(visited)
    case Classified(_) => ValidateDescendants(env, value, depth, visited)
    case Fields(_, _) => if value.Obj? then Some(visited) else None
    case Optional(r) =>
      if value.Null? then Some(visited)
      else
        ChainDescends(env, shape);
        ValidateShapeVisited(env, value, env.resolve(r).value, depth, visited)
    case Sequence(r) =>
      ChainDescends(env, shape);
      if !value.Arr? || |value.items| > env.limits.maxArrayItems then None
      else ValidateElements(env, value.items, env.resolve(r).value, depth + 1, visited)
    case FixedSequence(r, length) =>
      ChainDescends(env, shape);
      if !value.Arr? || |value.items| > env.limits.maxArrayItems || |value.items| != length then None
      else ValidateElements(env, value.items, env.resolve(r).value, depth + 1, visited)
  }

  function ValidateElements(env: Env, items: seq<Json>, element: Shape, depth: nat, visited: nat): Option<nat>
    requires Chain(env, element, HopBudget(env)).Some?
    decreases items, 0, 0
  {
    if items == [] then Some(visited)
    else match ValidateShape(env, items[0], element, depth, visited)
      case None => None
      case Some(visited') => ValidateElements(env, items[1..], element, depth, visited')
  }

  // ---------------------------------------------------------------------------------------------
  // Projection

  function SanitizeClassified(env: Env, value: Json, kind: Kind, depth: nat, path: Text, t: Trace): Outcome<Projected>
  {
    var consultation := Consultation(env.target, path, kind, value);
    var t' := t.(consulted := t.consulted + [consultation]);
    match env.sanitize(consultation)
    case None => Failed(t'.consulted)
    case Some(Omitted) => Done(Omit, t')
    case Some(Redacted) => Done(Value(Str(REDACTED)), t')
    case Some(Revealed) => Done(Value(value), t')
    case Some(Replaced(replacement)) =>
      match ValidateValue(env, replacement, depth, t.visited)
      case None => Failed(t'.consulted)
      case Some(visited) => Done(Value(replacement), t'.(visited := visited))
  }

  function Project(env: Env, value: Json, shape: Shape, depth: nat, path: Text, t: Trace): Outcome<Projected>
    decreases value, Rank(env, shape), 3, 0
  {
    match Visit(env, depth, t.visited)
    case None => Failed(t.consulted)
    case Some(visited) => ProjectVisited(env, value, shape, depth, path, t.(visited := visited))
  }

  function ProjectVisited(env: Env, value: Json, shape: Shape, depth: nat, path: Text, t: Trace): Outcome<Projected>
    decreases value, Rank(env, shape), 2, 0
  {
    match shape
    case Opaque => Done(Omit, t)
    case Classified(kind) =>
      (match ValidateDescendants(env, value, depth, t.visited)
       case None => Failed(t.consulted)
       case Some(visited) => SanitizeClassified(env, value, kind, depth, path, t.(visited := visited)))
    case Fields(_, _) =>
      if !value.Obj? then Failed(t.consulted)
      else (match ProjectFields(env, value, DirectedFields(env, shape), {}, depth + 1, path, t)
            case Failed(shown) => Failed(shown)
            case Done(members, t') => Done(if members == [] then Omit else Value(Obj(members)), t'))
    case Optional(r) => ProjectOptional(env, value, shape, depth, path, t)
    case Sequence(r) => ProjectSequence(env, value, shape, None, depth, path, t)
    case FixedSequence(r, length) => ProjectSequence(env, value, shape, Some(length), depth, path, t)
  }

  function ProjectOptional(env: Env, value: Json, shape: Shape, depth: nat, path: Text, t: Trace): Outcome<Projected>
    requires shape.Optional?
    decreases value, Rank(env, shape), 1, 0
  {
    match env.resolve(shape.inner)
    case None => Failed(t.consulted)
    case Some(inner) =>
      match Inherited(env, inner, 0)
      case Broken => Failed(t.consulted)
      case InheritsOpaque => Done(Omit, t)
      case InheritsKind(kind) =>
        DelegationDescends(env, shape, inner);
        (match ValidateShapeVisited(env, value, shape, depth, t.visited)
         case None => Failed(t.consulted)
         case Some(visited) => SanitizeClassified(env, value, kind, depth, path, t.(visited := visited)))
      case Unclassified =>
        DelegationDescends(env, shape, inner);
        if value.Null? then Done(Omit, t)
        else ProjectVisited(env, value, inner, depth, path, t)
  }

  /**
   * Projects the declared fields of an object at the depth of its members, in declaration order; `declared` holds
   * the names already seen.
   */
  function ProjectFields(env: Env, value: Json, fields: seq<Field>, declared: set<Text>, depth: nat, path: Text, t: Trace)
    : Outcome<seq<Member>>
    requires value.Obj?
    decreases value, 0, 1, |fields|
  {
    if fields == [] then Done([], t)
    else if fields[0].name in declared then Failed(t.consulted)
    else match Find(value.members, fields[0].name)
      case None => ProjectFields(env, value, fields[1..], declared + {fields[0].name}, depth, path, t)
      case Some(child) =>
        match env.resolve(fields[0].shape)
        case None => Failed(t.consulted)
        case Some(shape) =>
          match Project(env, child, shape, depth, PushSegment(path, fields[0].name), t)
          case Failed(shown) => Failed(shown)
          case Done(projected, t') =>
            match ProjectFields(env, value, fields[1..], declared + {fields[0].name}, depth, path, t')
            case Failed(shown) => Failed(shown)
            case Done(members, t'') =>
              Done(if projected.Omit? then members else [Member(fields[0].name, projected.value)] + members, t'')
  }

  function ProjectSequence(env: Env, value: Json, shape: Shape, required: Option<nat>, depth: nat, path: Text, t: Trace)
    : Outcome<Projected>
    requires shape.Sequence? || shape.FixedSequence?
    decreases value, Rank(env, shape), 1, 0
  {
    if !value.Arr? || |value.items| > env.limits.maxArrayItems || (required.Some? && |value.items| != required.value)
    then Failed(t.consulted)
    else match env.resolve(shape.element)
      case None => Failed(t.consulted)
      case Some(element) =>
        match Inherited(env, element, 0)
        case Broken => Failed(t.consulted)
        case InheritsOpaque => Done(Omit, t)
        case InheritsKind(kind) =>
          DelegationDescends(env, shape, element);
          (match ValidateElements(env, value.items, element, depth + 1, t.visited)
           case None => Failed(t.consulted)
           case Some(visited) => SanitizeClassified(env, value, kind, depth, path, t.(visited := visited)))
        case Unclassified =>
          match ProjectItems(env, value.items, element, depth + 1, path, t)
          case Failed(shown) => Failed(shown)
          case Done(items, t') =>
            if items != [] then Done(Value(Arr(items)), t')
            else if value.items != [] then Done(Omit, t')
            else match HasClassified(env, element, 0)
              case None => Failed(t'.consulted)
              case Some(classified) => Done(if classified then Value(Arr([])) else Omit, t')
  }

  function ProjectItems(env: Env, items: seq<Json>, element: Shape, depth: nat, path: Text, t: Trace): Outcome<seq<Json>>
    decreases items, 0, 0, 0
  {
    if items == [] then Done([], t)
    else match Project(env, items[0], element, depth, path, t)
      case Failed(shown) => Failed(shown)
      case Done(projected, t') =>
        match ProjectItems(env, items[1..], element, depth, path, t')
        case Failed(shown) => Failed(shown)
        case Done(rest, t'') => Done(if projected.Omit? then rest else [projected.value] + rest, t'')
  }

  // ---------------------------------------------------------------------------------------------
  // Whole projections, which fail closed

  /** Projects named arguments; each starts its own path at depth zero and all share one node budget. */
  function ProjectArguments(env: Env, declared: seq<Field>, arguments: seq<Member>): Outcome<Projected> {
    match ProjectFields(env, Obj(arguments), declared, {}, 0, "", Trace(0, []))
    case Failed(shown) => Failed(shown)
    case Done(members, t) => Done(if members == [] then Omit else Value(Obj(members)), t)
  }

  /** The output check; `encodedLength` yields None when encoding fails. */
  function Finish(env: Env, projected: Projected, encodedLength: Json -> Option<nat>): Option<Json> {
    match projected
    case Omit => None
    case Value(v) =>
      match encodedLength(v)
      case None => None
      case Some(n) => if n > env.limits.maxOutputBytes then None else Some(v)
  }

  /** None stands for an omitted value, whether by policy or because the projection failed. */
  function SanitizedArguments(
    env: Env, sensitivity: Option<seq<Field>>, arguments: seq<Member>, encodedLength: Json -> Option<nat>): Option<Json>
  {
    match sensitivity
    case None => None
    case Some(declared) =>
      match ProjectArguments(env, declared, arguments)
      case Failed(_) => None
      case Done(projected, _) => Finish(env, projected, encodedLength)
  }

  /** An encoded response body: its length and what it parses to, if it parses. */
  datatype Body = Body(length: nat, parsed: Option<Json>)

  function SanitizedResponse(
    env: Env, response: Option<Resolver>, body: Body, encodedLength: Json -> Option<nat>): Option<Json>
  {
    if response.None? || env.resolve(response.value).None? then None
    else
      var shape := env.resolve(response.value).value;
      if shape.Opaque? || body.length > env.limits.maxInputBytes || body.parsed.None? then None
      else match Project(env, body.parsed.value, shape, 0, "", Trace(0, []))
        case Failed(_) => None
        case Done(projected, _) => Finish(env, projected, encodedLength)
  }
}
