/** The rules for a parameter list as its author reads them: where each value comes from, and what may not be combined. */
module ParameterRules {
  import opened Prelude
  import opened Routes
  import opened Operations

  // ---------------------------------------------------------------------------------------------
  // Sources

  /**
   * Where the value of a parameter comes from: the declared source always wins; without one, a name of the route's
   * template is a path parameter, and any other is a body field where the verb has a body to send and a query
   * parameter where it has none.
   */
  lemma SourceOfParameter(input: Input, placeholders: set<Bytes>, verb: Verb)
    ensures var p, wire := Resolve(input, placeholders, verb), WireName(input);
            && (input.source.Some? ==> p.source == input.source.value)
            && (input.source.None? ==>
                  && (p.source.Path? <==> wire in placeholders)
                  && (p.source.BodyField? <==> wire !in placeholders && verb in {Post, Put, Patch})
                  && (p.source.Query? <==> wire !in placeholders && verb !in {Post, Put, Patch}))
            && (input.source != Some(Context) ==>
                  && p.wireName == (match input.wireName case Some(name) => name case None => input.name)
                  && (p.repeated <==> p.source.Query? && input.repeated))
  {
  }

  /** Which parameter types an accepted parameter may have where: single values in a path, flat lists in a query. */
  lemma AcceptedTypes(input: Input, placeholders: set<Bytes>, verb: Verb)
    requires AcceptsInput(input, placeholders, verb)
    ensures var source := Resolve(input, placeholders, verb).source;
            && (source.Context? ==> input.shape == Plain(true) && input.wireName.None? && !input.sensitive)
            && (source.Path? ==> input.shape.Plain?)
            && (source.Query? && input.shape.VecOf? ==> input.shape.inner.Plain? && input.repeated)
            && (source.Query? && input.shape.OptionOf? ==> !input.shape.inner.VecOf?)
            && (source.QueryMap? || source.HeaderMap? ==> input.wireName.None?)
            && (input.repeated ==> source.Query? && input.source.Some?)
            && (verb in {Get, Head, Options} ==> !source.Body? && !source.BodyField?)
            && (source.Path? <==> !source.Context? && WireName(input) in placeholders)
  {
  }

  /** An identifier with a type the place allows is always accepted, whichever of the five value sources it names. */
  lemma OrdinaryInputsAreAccepted(input: Input, placeholders: set<Bytes>, verb: Verb)
    requires IsIdentity(WireName(input)) && !input.repeated && input.shape.Plain?
    requires match input.source
             case None => true
             case Some(source) =>
               && (source.Path? || source.Query? || source.Header? || source.Cookie? || source.BodyField?)
               && (source.Path? <==> WireName(input) in placeholders)
               && (source.BodyField? ==> verb !in {Get, Head, Options})
    ensures AcceptsInput(input, placeholders, verb)
  {
  }

  // ---------------------------------------------------------------------------------------------
  // Combinations

  /** Some parameter has the source; and two have it. */
  ghost predicate Any(parameters: seq<Parameter>, source: Source) {
    exists i :: 0 <= i < |parameters| && parameters[i].source == source
  }

  ghost predicate Two(parameters: seq<Parameter>, source: Source) {
    exists i, j :: 0 <= i < j < |parameters| && parameters[i].source == source && parameters[j].source == source
  }

  lemma {:induction false} CountMeans(parameters: seq<Parameter>, source: Source)
    ensures CountOf(parameters, source) > 0 <==> Any(parameters, source)
    ensures CountOf(parameters, source) > 1 <==> Two(parameters, source)
  {
    if parameters != [] {
      var shorter, last := parameters[..|parameters| - 1], parameters[|parameters| - 1];
      CountMeans(shorter, source);
      forall i | 0 <= i < |shorter| ensures shorter[i] == parameters[i] {}
      AnyOneMore(shorter, last, source);
      assert parameters == shorter + [last];
    }
  }

  lemma AnyOneMore(parameters: seq<Parameter>, last: Parameter, source: Source)
    ensures Any(parameters + [last], source) <==> Any(parameters, source) || last.source == source
    ensures Two(parameters + [last], source)
            <==> Two(parameters, source) || (Any(parameters, source) && last.source == source)
  {
    var more := parameters + [last];
    assert more[|parameters|] == last;
    forall i | 0 <= i < |parameters| ensures more[i] == parameters[i] {}
    if Any(parameters, source) {
      var i :| 0 <= i < |parameters| && parameters[i].source == source;
      assert more[i].source == source;
    }
    if Two(parameters, source) {
      var i, j :| 0 <= i < j < |parameters| && parameters[i].source == source && parameters[j].source == source;
      assert more[i].source == source && more[j].source == source;
    }
  }

  /**
   * The macro accepts a parameter list exactly when each parameter is acceptable by itself, no two share a wire name,
   * none of the context, the body and the two maps is taken twice, every name in the route's template has its
   * parameter, and a whole body is not combined with body fields.
   */
  lemma MacroAcceptsIff(inputs: seq<Input>, placeholders: set<Bytes>, verb: Verb)
    ensures var ps := ResolveAll(inputs, placeholders, verb);
            AcceptsInputs(inputs, placeholders, verb)
            <==> && (forall i :: 0 <= i < |inputs| ==> AcceptsInput(inputs[i], placeholders, verb))
                 && (forall i, j :: 0 <= i < j < |ps| && !ps[i].source.Context? && !ps[j].source.Context? ==>
                       ps[i].wireName != ps[j].wireName)
                 && !Two(ps, Context) && !Two(ps, Body) && !Two(ps, QueryMap) && !Two(ps, HeaderMap)
                 && (forall name :: name in placeholders ==>
                       exists i :: 0 <= i < |ps| && ps[i].source.Path? && ps[i].wireName == name)
                 && !(Any(ps, Body) && Any(ps, BodyField))
  {
    var ps := ResolveAll(inputs, placeholders, verb);
    CountMeans(ps, Context);
    CountMeans(ps, Body);
    CountMeans(ps, QueryMap);
    CountMeans(ps, HeaderMap);
    CountMeans(ps, BodyField);
  }

  /** The contract's rules for an operation, in the same terms. */
  lemma ContractAcceptsIff(parameters: seq<Parameter>, placeholders: set<Bytes>, verb: Verb)
    ensures AcceptsParameters(parameters, placeholders, verb)
            <==> && (forall i, j :: && 0 <= i < j < |parameters|
                                    && !parameters[i].source.Context? && !parameters[j].source.Context? ==>
                       parameters[i].wireName != parameters[j].wireName)
                 && (forall i :: 0 <= i < |parameters| && parameters[i].repeated ==> parameters[i].source.Query?)
                 && !Two(parameters, Body) && !Two(parameters, QueryMap) && !Two(parameters, HeaderMap)
                 && !(Any(parameters, Body) && Any(parameters, BodyField))
                 && (verb in {Get, Head, Options} ==> !Any(parameters, Body) && !Any(parameters, BodyField))
                 && (forall name :: name in placeholders
                                    <==> exists i :: && 0 <= i < |parameters| && parameters[i].source.Path?
                                                     && parameters[i].wireName == name)
  {
    CountMeans(parameters, Body);
    CountMeans(parameters, QueryMap);
    CountMeans(parameters, HeaderMap);
    CountMeans(parameters, BodyField);
    PathNamesMean(parameters);
  }

  lemma PathNamesMean(parameters: seq<Parameter>)
    ensures forall name :: name in PathNames(parameters)
                           <==> exists i :: && 0 <= i < |parameters| && parameters[i].source.Path?
                                            && parameters[i].wireName == name
  {
  }
}
