/** Parameter mappings: what the macro accepts from an interface, and what the contract accepts of an operation. */
module Operations {
  import opened Prelude
  import opened Routes

  datatype Verb = Get | Post | Put | Patch | Delete | Head | Options | Extension(token: Bytes)

  datatype Source = Context | Path | Query | Header | Cookie | BodyField | Body | QueryMap | HeaderMap

  /** As much of a parameter's type as the macro looks at. */
  datatype TypeShape = Plain(isCall: bool) | OptionOf(inner: TypeShape) | VecOf(inner: TypeShape)

  /** One parsed interface parameter, its attributes already checked for duplicates and conflicts. */
  datatype Input = Input(
    name: Bytes, source: Option<Source>, wireName: Option<Bytes>, repeated: bool, sensitive: bool, shape: TypeShape)

  /** A resolved parameter; a context parameter has no wire name. */
  datatype Parameter = Parameter(wireName: Bytes, source: Source, repeated: bool)

  predicate TakesNoBody(verb: Verb) {
    verb.Get? || verb.Head? || verb.Options?
  }

  predicate IsContext(input: Input) {
    input.source == Some(Context)
  }

  function WireName(input: Input): Bytes {
    if input.wireName.Some? then input.wireName.value else input.name
  }

  function ResolvedSource(input: Input, placeholders: set<Bytes>, verb: Verb): Source {
    if input.source.Some? then input.source.value
    else if WireName(input) in placeholders then Path
    else if verb.Post? || verb.Put? || verb.Patch? then BodyField
    else Query
  }

  function Resolve(input: Input, placeholders: set<Bytes>, verb: Verb): Parameter {
    if IsContext(input) then Parameter([], Context, false)
    else
      var source := ResolvedSource(input, placeholders, verb);
      Parameter(WireName(input), source, source.Query? && input.repeated)
  }

  /** Repeated query parameters are lists of scalars and say so; path parameters are required scalars. */
  predicate AcceptsShape(shape: TypeShape, source: Source, repeated: bool) {
    match source
    case Query =>
      && !(shape.OptionOf? && shape.inner.VecOf?)
      && (shape.VecOf? ==> repeated && shape.inner.Plain?)
    case Path => shape.Plain?
    case _ => true
  }

  /** What the macro checks of one parameter by itself. */
  predicate AcceptsInput(input: Input, placeholders: set<Bytes>, verb: Verb) {
    if IsContext(input) then
      !input.sensitive && input.wireName.None? && !input.repeated && input.shape == Plain(true)
    else
      var source, wire := ResolvedSource(input, placeholders, verb), WireName(input);
      && (source.QueryMap? || source.HeaderMap? ==> input.wireName.None? && !input.repeated)
      && IsIdentity(wire)
      && (source.Path? <==> wire in placeholders)
      && (input.repeated ==> input.source == Some(Query))
      && (source.Body? || source.BodyField? ==> !TakesNoBody(verb))
      && AcceptsShape(input.shape, source, input.repeated)
  }

  function CountOf(parameters: seq<Parameter>, source: Source): nat {
    if parameters == [] then 0
    else CountOf(parameters[..|parameters| - 1], source) + if parameters[|parameters| - 1].source == source then 1 else 0
  }

  /** The wire names that are taken. */
  function WireNames(parameters: seq<Parameter>): set<Bytes> {
    set i | 0 <= i < |parameters| && !parameters[i].source.Context? :: parameters[i].wireName
  }

  function PathNames(parameters: seq<Parameter>): set<Bytes> {
    set i | 0 <= i < |parameters| && parameters[i].source.Path? :: parameters[i].wireName
  }

  predicate DistinctNames(parameters: seq<Parameter>) {
    forall i, j :: 0 <= i < j < |parameters| && !parameters[i].source.Context? && !parameters[j].source.Context? ==>
      parameters[i].wireName != parameters[j].wireName
  }

  /** A source that at most one parameter may have. */
  predicate IsSingle(source: Source) {
    source.Context? || source.Body? || source.QueryMap? || source.HeaderMap?
  }

  predicate Compatible(parameters: seq<Parameter>) {
    DistinctNames(parameters)
    && CountOf(parameters, Context) <= 1 && CountOf(parameters, Body) <= 1
    && CountOf(parameters, QueryMap) <= 1 && CountOf(parameters, HeaderMap) <= 1
  }

  function ResolveAll(inputs: seq<Input>, placeholders: set<Bytes>, verb: Verb): (r: seq<Parameter>)
    ensures |r| == |inputs| && forall i :: 0 <= i < |inputs| ==> r[i] == Resolve(inputs[i], placeholders, verb)
  {
    seq(|inputs|, i requires 0 <= i < |inputs| => Resolve(inputs[i], placeholders, verb))
  }

  predicate AcceptsSingly(inputs: seq<Input>, placeholders: set<Bytes>, verb: Verb) {
    forall i :: 0 <= i < |inputs| ==> AcceptsInput(inputs[i], placeholders, verb)
  }

  predicate AcceptsEach(inputs: seq<Input>, placeholders: set<Bytes>, verb: Verb) {
    AcceptsSingly(inputs, placeholders, verb) && Compatible(ResolveAll(inputs, placeholders, verb))
  }

  /** What the macro accepts of a method's parameters. */
  predicate AcceptsInputs(inputs: seq<Input>, placeholders: set<Bytes>, verb: Verb) {
    var parameters := ResolveAll(inputs, placeholders, verb);
    && AcceptsEach(inputs, placeholders, verb)
    && placeholders <= PathNames(parameters)
    && !(CountOf(parameters, Body) > 0 && CountOf(parameters, BodyField) > 0)
  }

  /** What the contract accepts of an operation's parameters. */
  predicate AcceptsParameters(parameters: seq<Parameter>, placeholders: set<Bytes>, verb: Verb) {
    && DistinctNames(parameters)
    && (forall i :: 0 <= i < |parameters| ==> parameters[i].repeated ==> parameters[i].source.Query?)
    && CountOf(parameters, Body) <= 1 && CountOf(parameters, QueryMap) <= 1 && CountOf(parameters, HeaderMap) <= 1
    && !(CountOf(parameters, Body) == 1 && CountOf(parameters, BodyField) != 0)
    && (TakesNoBody(verb) ==> CountOf(parameters, Body) + CountOf(parameters, BodyField) == 0)
    && placeholders == PathNames(parameters)
  }

  predicate AcceptsOperation(verb: Verb, path: Bytes, parameters: seq<Parameter>, u: Unicode) {
    !verb.Extension? && AcceptsRoute(path, u) && AcceptsParameters(parameters, Placeholders(path), verb)
  }

  // ---------------------------------------------------------------------------------------------
  // One more parameter

  lemma CountAppend(parameters: seq<Parameter>, p: Parameter, source: Source)
    ensures CountOf(parameters + [p], source) == CountOf(parameters, source) + if p.source == source then 1 else 0
  {
    assert (parameters + [p])[..|parameters|] == parameters;
  }

  lemma NamesAppend(parameters: seq<Parameter>, p: Parameter)
    ensures WireNames(parameters + [p]) == WireNames(parameters) + if p.source.Context? then {} else {p.wireName}
    ensures PathNames(parameters + [p]) == PathNames(parameters) + if p.source.Path? then {p.wireName} else {}
  {
    var all := parameters + [p];
    forall i | 0 <= i < |parameters| ensures all[i] == parameters[i] {}
    assert all[|parameters|] == p;
    forall name | name in WireNames(parameters) ensures name in WireNames(all) {
      var i :| 0 <= i < |parameters| && !parameters[i].source.Context? && name == parameters[i].wireName;
      assert all[i] == parameters[i];
    }
    forall name | name in PathNames(parameters) ensures name in PathNames(all) {
      var i :| 0 <= i < |parameters| && parameters[i].source.Path? && name == parameters[i].wireName;
      assert all[i] == parameters[i];
    }
  }

  lemma DistinctAppend(parameters: seq<Parameter>, p: Parameter)
    ensures DistinctNames(parameters + [p])
            <==> DistinctNames(parameters) && (p.source.Context? || p.wireName !in WireNames(parameters))
  {
    var all := parameters + [p];
    assert all[|parameters|] == p;
    forall i | 0 <= i < |parameters| ensures parameters[i] == all[i] {}
    if DistinctNames(all) {
      forall i, j | 0 <= i < j < |parameters| && !parameters[i].source.Context? && !parameters[j].source.Context?
        ensures parameters[i].wireName != parameters[j].wireName
      {
        assert all[i] == parameters[i] && all[j] == parameters[j];
      }
    }
    if DistinctNames(parameters) && (p.source.Context? || p.wireName !in WireNames(parameters)) {
      forall i, j | 0 <= i < j < |all| && !all[i].source.Context? && !all[j].source.Context?
        ensures all[i].wireName != all[j].wireName
      {
        assert all[i] == parameters[i] && all[i].wireName in WireNames(parameters);
      }
    }
  }

  predicate Free(parameters: seq<Parameter>, source: Source) {
    IsSingle(source) ==> CountOf(parameters, source) == 0
  }

  lemma CompatibleAppend(parameters: seq<Parameter>, p: Parameter)
    ensures Compatible(parameters + [p])
            <==> Compatible(parameters) && (p.source.Context? || p.wireName !in WireNames(parameters))
                 && Free(parameters, p.source)
  {
    DistinctAppend(parameters, p);
    CountAppend(parameters, p, Context);
    CountAppend(parameters, p, Body);
    CountAppend(parameters, p, QueryMap);
    CountAppend(parameters, p, HeaderMap);
  }

  lemma {:induction false} CompatiblePrefix(parameters: seq<Parameter>, i: nat)
    requires i <= |parameters| && Compatible(parameters)
    ensures Compatible(parameters[..i])
    decreases |parameters|
  {
    if i < |parameters| {
      var shorter := parameters[..|parameters| - 1];
      assert parameters == shorter + [parameters[|parameters| - 1]];
      CompatibleAppend(shorter, parameters[|parameters| - 1]);
      CompatiblePrefix(shorter, i);
      assert shorter[..i] == parameters[..i];
    } else {
      assert parameters[..i] == parameters;
    }
  }

  lemma ResolveOneMore(inputs: seq<Input>, i: nat, placeholders: set<Bytes>, verb: Verb)
    requires i < |inputs|
    ensures ResolveAll(inputs[..i + 1], placeholders, verb)
            == ResolveAll(inputs[..i], placeholders, verb) + [Resolve(inputs[i], placeholders, verb)]
    ensures ResolveAll(inputs[..i + 1], placeholders, verb) == ResolveAll(inputs, placeholders, verb)[..i + 1]
  {
  }

  /** Reading one more input: accepted exactly when acceptable by itself, with a new name and a free single slot. */
  lemma AdvanceInput(inputs: seq<Input>, i: nat, placeholders: set<Bytes>, verb: Verb)
    requires i < |inputs| && AcceptsEach(inputs[..i], placeholders, verb)
    ensures var done, p := ResolveAll(inputs[..i], placeholders, verb), Resolve(inputs[i], placeholders, verb);
            && ResolveAll(inputs[..i + 1], placeholders, verb) == done + [p]
            && (AcceptsEach(inputs[..i + 1], placeholders, verb)
                <==> AcceptsInput(inputs[i], placeholders, verb)
                     && (p.source.Context? || p.wireName !in WireNames(done)) && Free(done, p.source))
    ensures AcceptsEach(inputs, placeholders, verb) ==> AcceptsEach(inputs[..i + 1], placeholders, verb)
  {
    ResolveOneMore(inputs, i, placeholders, verb);
    CompatibleAppend(ResolveAll(inputs[..i], placeholders, verb), Resolve(inputs[i], placeholders, verb));
    SinglyPrefix(inputs, i, placeholders, verb);
    EachPrefix(inputs, i, placeholders, verb);
  }

  lemma EachPrefix(inputs: seq<Input>, i: nat, placeholders: set<Bytes>, verb: Verb)
    requires i < |inputs|
    ensures AcceptsEach(inputs, placeholders, verb) ==> AcceptsEach(inputs[..i + 1], placeholders, verb)
  {
    if AcceptsEach(inputs, placeholders, verb) {
      ResolveOneMore(inputs, i, placeholders, verb);
      SinglyPrefix(inputs, i, placeholders, verb);
      CompatiblePrefix(ResolveAll(inputs, placeholders, verb), i + 1);
    }
  }

  lemma SinglyPrefix(inputs: seq<Input>, i: nat, placeholders: set<Bytes>, verb: Verb)
    requires i < |inputs|
    ensures AcceptsSingly(inputs[..i + 1], placeholders, verb)
            <==> AcceptsSingly(inputs[..i], placeholders, verb) && AcceptsInput(inputs[i], placeholders, verb)
    ensures AcceptsSingly(inputs, placeholders, verb) ==> AcceptsSingly(inputs[..i + 1], placeholders, verb)
  {
    var done, more := inputs[..i], inputs[..i + 1];
    assert more == done + [inputs[i]];
    if AcceptsSingly(more, placeholders, verb) {
      assert AcceptsInput(more[i], placeholders, verb);
      forall k | 0 <= k < i ensures AcceptsInput(done[k], placeholders, verb) { assert done[k] == more[k]; }
    }
  }

  // ---------------------------------------------------------------------------------------------
  // From the macro to the contract

  /** The parameters a generated descriptor declares: all but the context. */
  function Declared(parameters: seq<Parameter>): seq<Parameter> {
    if parameters == [] then []
    else
      var last := parameters[|parameters| - 1];
      Declared(parameters[..|parameters| - 1]) + if last.source.Context? then [] else [last]
  }

  lemma {:induction false} DeclaredKeeps(parameters: seq<Parameter>)
    ensures DistinctNames(parameters) ==> DistinctNames(Declared(parameters))
    ensures WireNames(Declared(parameters)) == WireNames(parameters)
    ensures PathNames(Declared(parameters)) == PathNames(parameters)
    ensures forall source :: source != Context ==> CountOf(Declared(parameters), source) == CountOf(parameters, source)
    ensures forall p :: p in Declared(parameters) ==> p in parameters && !p.source.Context?
  {
    if parameters != [] {
      var shorter, last := parameters[..|parameters| - 1], parameters[|parameters| - 1];
      assert parameters == shorter + [last];
      DeclaredKeeps(shorter);
      DistinctAppend(shorter, last);
      NamesAppend(shorter, last);
      if last.source.Context? {
        assert Declared(parameters) == Declared(shorter);
      } else {
        DistinctAppend(Declared(shorter), last);
        NamesAppend(Declared(shorter), last);
        forall source | source != Context
          ensures CountOf(Declared(parameters), source) == CountOf(parameters, source)
        {
          CountAppend(Declared(shorter), last, source);
        }
      }
    }
  }

  lemma {:induction false} NoneOf(parameters: seq<Parameter>, source: Source)
    requires forall i :: 0 <= i < |parameters| ==> parameters[i].source != source
    ensures CountOf(parameters, source) == 0
  {
    if parameters != [] { NoneOf(parameters[..|parameters| - 1], source); }
  }

  /** Static acceptance implies dynamic acceptance, parameter list by parameter list. */
  lemma AcceptedInputsAreAcceptedParameters(inputs: seq<Input>, placeholders: set<Bytes>, verb: Verb)
    requires AcceptsInputs(inputs, placeholders, verb)
    ensures var declared := Declared(ResolveAll(inputs, placeholders, verb));
            && AcceptsParameters(declared, placeholders, verb)
            && forall i :: 0 <= i < |declared| ==> IsIdentity(declared[i].wireName)
  {
    var parameters := ResolveAll(inputs, placeholders, verb);
    var declared := Declared(parameters);
    DeclaredKeeps(parameters);
    forall i | 0 <= i < |declared|
      ensures (declared[i].repeated ==> declared[i].source.Query?) && IsIdentity(declared[i].wireName)
    {
      assert declared[i] in parameters;
      var k :| 0 <= k < |parameters| && parameters[k] == declared[i];
      assert AcceptsInput(inputs[k], placeholders, verb);
    }
    forall i | 0 <= i < |parameters| ensures parameters[i].source.Path? ==> parameters[i].wireName in placeholders {
      assert AcceptsInput(inputs[i], placeholders, verb);
    }
    if TakesNoBody(verb) {
      forall i | 0 <= i < |parameters| ensures parameters[i].source != Body && parameters[i].source != BodyField {
        assert AcceptsInput(inputs[i], placeholders, verb);
      }
      NoneOf(parameters, Body);
      NoneOf(parameters, BodyField);
    }
  }
}
