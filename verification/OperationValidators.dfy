/** How the macro resolves a method's parameters and how the contract checks an operation, slot by slot. */
module OperationValidators {
  import opened Prelude
  import opened Routes
  import opened RouteValidators
  import opened Operations

  datatype OperationError =
    | InvalidRoute(error: RouteError)
    | InvalidContext
    | InvalidMapParameter
    | InvalidName
    | DuplicateName
    | DuplicateSource(source: Source)
    | PlaceholderSource
    | MissingPlaceholder
    | InvalidRepetition
    | InvalidShape
    | NoRequestBody
    | MixedBody
    | UnsupportedVerb

  /** Which of the sources that exclude others are taken. */
  datatype Slots = Slots(context: bool, rawBody: bool, bodyField: bool, queryMap: bool, headerMap: bool)

  function SlotsOf(parameters: seq<Parameter>): Slots {
    Slots(CountOf(parameters, Context) > 0, CountOf(parameters, Body) > 0, CountOf(parameters, BodyField) > 0,
          CountOf(parameters, QueryMap) > 0, CountOf(parameters, HeaderMap) > 0)
  }

  /** Takes the slot of a source; a single source cannot be taken twice. */
  method Claim(slots: Slots, source: Source, ghost parameters: seq<Parameter>, ghost p: Parameter)
    returns (next: Option<Slots>)
    requires slots == SlotsOf(parameters) && source == p.source
    ensures next.Some? <==> Free(parameters, source)
    ensures next.Some? ==> next.value == SlotsOf(parameters + [p])
  {
    CountAppend(parameters, p, Context);
    CountAppend(parameters, p, Body);
    CountAppend(parameters, p, BodyField);
    CountAppend(parameters, p, QueryMap);
    CountAppend(parameters, p, HeaderMap);
    match source
    case Context => next := if slots.context then None else Some(slots.(context := true));
    case Body => next := if slots.rawBody then None else Some(slots.(rawBody := true));
    case QueryMap => next := if slots.queryMap then None else Some(slots.(queryMap := true));
    case HeaderMap => next := if slots.headerMap then None else Some(slots.(headerMap := true));
    case BodyField => next := Some(slots.(bodyField := true));
    case _ => next := Some(slots);
  }

  /** The checks of one parameter that do not depend on the others. */
  method CheckInput(input: Input, placeholders: set<Bytes>, verb: Verb) returns (error: Option<OperationError>)
    ensures error.None? <==> AcceptsInput(input, placeholders, verb)
  {
    if IsContext(input) {
      return if input.sensitive || input.wireName.Some? || input.repeated || input.shape != Plain(true)
             then Some(InvalidContext) else None;
    }
    if input.source == Some(QueryMap) || input.source == Some(HeaderMap) {
      if input.wireName.Some? || input.repeated {
        return Some(InvalidMapParameter);
      }
    }
    var wire := WireName(input);
    if !IsIdentity(wire) {
      return Some(InvalidName);
    }
    var source := ResolvedSource(input, placeholders, verb);
    if source != Path && wire in placeholders {
      return Some(PlaceholderSource);
    }
    if input.repeated && input.source != Some(Query) {
      return Some(InvalidRepetition);
    }
    if source == Path && wire !in placeholders {
      return Some(MissingPlaceholder);
    }
    if (source == Body || source == BodyField) && TakesNoBody(verb) {
      return Some(NoRequestBody);
    }
    if source == Query {
      if input.shape.OptionOf? && input.shape.inner.VecOf? {
        return Some(InvalidShape);
      }
      if input.shape.VecOf? {
        if !input.repeated || input.shape.inner.OptionOf? || input.shape.inner.VecOf? {
          return Some(InvalidShape);
        }
      }
    } else if source == Path && (input.shape.OptionOf? || input.shape.VecOf?) {
      return Some(InvalidShape);
    }
    error := None;
  }

  /** The macro's pass over a method's parameters. */
  method ResolveParameters(verb: Verb, path: Bytes, inputs: seq<Input>, u: Unicode)
    returns (result: Result<seq<Parameter>, OperationError>)
    ensures result.Ok? <==> AcceptsRoute(path, u) && AcceptsInputs(inputs, Placeholders(path), verb)
    ensures result.Ok? ==> result.value == ResolveAll(inputs, Placeholders(path), verb)
  {
    var route := ValidateRoute(path, u);
    if route.Err? {
      return Err(InvalidRoute(route.error));
    }
    var placeholders := route.value;
    var parameters: seq<Parameter> := [];
    var names: set<Bytes> := {};
    var slots := Slots(false, false, false, false, false);
    for i := 0 to |inputs|
      invariant AcceptsEach(inputs[..i], placeholders, verb)
      invariant parameters == ResolveAll(inputs[..i], placeholders, verb)
      invariant names == WireNames(parameters) && slots == SlotsOf(parameters)
    {
      var error := CheckInput(inputs[i], placeholders, verb);
      AdvanceInput(inputs, i, placeholders, verb);
      if error.Some? {
        return Err(error.value);
      }
      var p := Resolve(inputs[i], placeholders, verb);
      NamesAppend(parameters, p);
      if !p.source.Context? {
        if p.wireName in names {
          return Err(DuplicateName);
        }
        names := names + {p.wireName};
      }
      var claimed := Claim(slots, p.source, parameters, p);
      if claimed.None? {
        return Err(DuplicateSource(p.source));
      }
      slots := claimed.value;
      parameters := parameters + [p];
    }
    assert inputs[..|inputs|] == inputs;
    if !(placeholders <= PathNames(parameters)) {
      return Err(MissingPlaceholder);
    }
    if slots.rawBody && slots.bodyField {
      return Err(MixedBody);
    }
    result := Ok(parameters);
  }

  /** A parameter list is acceptable so far: distinct names, and only query parameters repeat. */
  predicate AcceptableSoFar(parameters: seq<Parameter>) {
    DistinctNames(parameters)
    && forall i :: 0 <= i < |parameters| ==> parameters[i].repeated ==> parameters[i].source.Query?
  }

  lemma AcceptableAppend(parameters: seq<Parameter>, i: nat)
    requires i < |parameters|
    requires AcceptableSoFar(parameters[..i])
    ensures parameters[..i + 1] == parameters[..i] + [parameters[i]]
    ensures AcceptableSoFar(parameters[..i + 1])
            <==> (parameters[i].source.Context? || parameters[i].wireName !in WireNames(parameters[..i]))
                 && (parameters[i].repeated ==> parameters[i].source.Query?)
    ensures AcceptableSoFar(parameters) ==> AcceptableSoFar(parameters[..i + 1])
  {
    var done, more := parameters[..i], parameters[..i + 1];
    assert more == done + [parameters[i]];
    DistinctAppend(done, parameters[i]);
    assert more[i] == parameters[i];
    forall k | 0 <= k < i ensures more[k] == done[k] {}
    if AcceptableSoFar(parameters) {
      forall j, k | 0 <= j < k < |more| && !more[j].source.Context? && !more[k].source.Context?
        ensures more[j].wireName != more[k].wireName
      {
        assert more[j] == parameters[j] && more[k] == parameters[k];
      }
    }
  }

  /** What the contract counts in a parameter list. */
  datatype Tally = Tally(pathNames: set<Bytes>, bodies: nat, bodyFields: nat, queryMaps: nat, headerMaps: nat)

  function TallyOf(parameters: seq<Parameter>): Tally {
    Tally(PathNames(parameters), CountOf(parameters, Body), CountOf(parameters, BodyField),
          CountOf(parameters, QueryMap), CountOf(parameters, HeaderMap))
  }

  method Count(tally: Tally, p: Parameter, ghost parameters: seq<Parameter>) returns (next: Tally)
    requires tally == TallyOf(parameters)
    ensures next == TallyOf(parameters + [p])
  {
    NamesAppend(parameters, p);
    CountAppend(parameters, p, Body);
    CountAppend(parameters, p, BodyField);
    CountAppend(parameters, p, QueryMap);
    CountAppend(parameters, p, HeaderMap);
    match p.source
    case Path => next := tally.(pathNames := tally.pathNames + {p.wireName});
    case Body => next := tally.(bodies := tally.bodies + 1);
    case BodyField => next := tally.(bodyFields := tally.bodyFields + 1);
    case QueryMap => next := tally.(queryMaps := tally.queryMaps + 1);
    case HeaderMap => next := tally.(headerMaps := tally.headerMaps + 1);
    case _ => next := tally;
  }

  /** The contract's pass over the parameters: duplicate names and misplaced repetition end it, the rest is counted. */
  method ScanParameters(parameters: seq<Parameter>) returns (result: Result<Tally, OperationError>)
    requires forall i :: 0 <= i < |parameters| ==> !parameters[i].source.Context?
    ensures result.Ok? <==> AcceptableSoFar(parameters)
    ensures result.Ok? ==> result.value == TallyOf(parameters)
  {
    var names: set<Bytes> := {};
    var tally := Tally({}, 0, 0, 0, 0);
    for i := 0 to |parameters|
      invariant AcceptableSoFar(parameters[..i])
      invariant names == WireNames(parameters[..i]) && tally == TallyOf(parameters[..i])
    {
      var p := parameters[i];
      AcceptableAppend(parameters, i);
      NamesAppend(parameters[..i], p);
      if p.wireName in names {
        return Err(DuplicateName);
      }
      names := names + {p.wireName};
      if p.repeated && p.source != Query {
        return Err(InvalidRepetition);
      }
      tally := Count(tally, p, parameters[..i]);
    }
    assert parameters[..|parameters|] == parameters;
    result := Ok(tally);
  }

  /** The contract's check of an operation. */
  method ValidateHttpOperation(verb: Verb, path: Bytes, parameters: seq<Parameter>, u: Unicode)
    returns (error: Option<OperationError>)
    requires forall i :: 0 <= i < |parameters| ==> !parameters[i].source.Context?
    ensures error.None? <==> AcceptsOperation(verb, path, parameters, u)
  {
    if verb.Extension? {
      return Some(UnsupportedVerb);
    }
    var route := ValidateHttpRoute(path, u);
    if route.Err? {
      return Some(InvalidRoute(route.error));
    }
    var scanned := ScanParameters(parameters);
    if scanned.Err? {
      return Some(scanned.error);
    }
    var tally := scanned.value;
    if tally.bodies > 1 {
      return Some(DuplicateSource(Body));
    }
    if tally.bodies == 1 && tally.bodyFields != 0 {
      return Some(MixedBody);
    }
    if tally.queryMaps > 1 {
      return Some(DuplicateSource(QueryMap));
    }
    if tally.headerMaps > 1 {
      return Some(DuplicateSource(HeaderMap));
    }
    if TakesNoBody(verb) && tally.bodies + tally.bodyFields != 0 {
      return Some(NoRequestBody);
    }
    if route.value != tally.pathNames {
      return Some(MissingPlaceholder);
    }
    error := None;
  }
}
