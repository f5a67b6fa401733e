/** Whole interfaces: what the macro accepts, and the descriptor its generated code builds at run time. */
module Interfaces {
  import opened Prelude
  import opened Routes
  import opened RouteValidators
  import opened Operations
  import opened OperationValidators

  /** Parses a media type and writes it canonically, if it is one. */
  type Mime = Bytes -> Option<Bytes>

  const MAX_METHODS: nat := 65536

  /** "application/json" */
  const JSON: Bytes :=
    [0x61, 0x70, 0x70, 0x6C, 0x69, 0x63, 0x61, 0x74, 0x69, 0x6F, 0x6E, 0x2F, 0x6A, 0x73, 0x6F, 0x6E]

  /** A parsed trait method; `ordinary` stands for the checks of its signature and attributes. */
  datatype InterfaceMethod = InterfaceMethod(
    name: Bytes, ordinary: bool, verb: Bytes, path: Bytes, consumes: Option<Bytes>, produces: Option<Bytes>,
    inputs: seq<Input>, unitResponse: bool)

  datatype Interface = Interface(name: Bytes, group: Option<Bytes>, version: Option<Bytes>, methods: seq<InterfaceMethod>)

  datatype ServiceMethod = ServiceMethod(
    name: Bytes, verb: Verb, path: Bytes, parameters: seq<Parameter>, consumes: Bytes, produces: Bytes)

  /** The validated interface the code generator works from. */
  datatype Service = Service(name: Bytes, group: Option<Bytes>, version: Option<Bytes>, methods: seq<ServiceMethod>)

  datatype Operation = Operation(verb: Verb, path: Bytes, parameters: seq<Parameter>, consumes: Bytes, produces: Bytes)

  datatype MethodDescriptor = MethodDescriptor(id: nat, name: Bytes, operation: Operation)

  datatype Descriptor = Descriptor(name: Bytes, group: Option<Bytes>, version: Option<Bytes>, methods: seq<MethodDescriptor>)

  // ---------------------------------------------------------------------------------------------
  // The macro

  function Upper(text: Bytes): (r: Bytes)
    ensures |r| == |text|
  {
    seq(|text|, i requires 0 <= i < |text| => if 0x61 <= text[i] <= 0x7A then text[i] - 0x20 else text[i])
  }

  function ParseVerb(text: Bytes): Option<Verb> {
    var upper := Upper(text);
    if upper == [0x47, 0x45, 0x54] then Some(Get)
    else if upper == [0x50, 0x4F, 0x53, 0x54] then Some(Post)
    else if upper == [0x50, 0x55, 0x54] then Some(Put)
    else if upper == [0x50, 0x41, 0x54, 0x43, 0x48] then Some(Patch)
    else if upper == [0x44, 0x45, 0x4C, 0x45, 0x54, 0x45] then Some(Delete)
    else if upper == [0x48, 0x45, 0x41, 0x44] then Some(Head)
    else if upper == [0x4F, 0x50, 0x54, 0x49, 0x4F, 0x4E, 0x53] then Some(Options)
    else None
  }

  function MediaType(value: Option<Bytes>, mime: Mime): Option<Bytes> {
    if value.None? then Some(JSON) else mime(value.value)
  }

  predicate OptionalIdentity(value: Option<Bytes>) {
    value.Some? ==> IsIdentity(value.value)
  }

  predicate AcceptsMethod(m: InterfaceMethod, u: Unicode, mime: Mime) {
    && m.ordinary && IsIdentity(m.name) && ParseVerb(m.verb).Some?
    && MediaType(m.consumes, mime).Some? && MediaType(m.produces, mime).Some?
    && AcceptsRoute(m.path, u)
    && AcceptsInputs(m.inputs, Placeholders(m.path), ParseVerb(m.verb).value)
    && (ParseVerb(m.verb) == Some(Head) ==> m.unitResponse)
  }

  function Translate(m: InterfaceMethod, mime: Mime): ServiceMethod
    requires ParseVerb(m.verb).Some? && MediaType(m.consumes, mime).Some? && MediaType(m.produces, mime).Some?
  {
    var verb := ParseVerb(m.verb).value;
    ServiceMethod(m.name, verb, m.path, ResolveAll(m.inputs, Placeholders(m.path), verb),
                  MediaType(m.consumes, mime).value, MediaType(m.produces, mime).value)
  }

  predicate AcceptsMethods(methods: seq<InterfaceMethod>, u: Unicode, mime: Mime) {
    forall i :: 0 <= i < |methods| ==> AcceptsMethod(methods[i], u, mime)
  }

  function RouteKey(m: ServiceMethod): (Verb, Bytes) {
    (m.verb, RouteShape(m.path))
  }

  function TranslateAll(methods: seq<InterfaceMethod>, u: Unicode, mime: Mime): (r: seq<ServiceMethod>)
    requires AcceptsMethods(methods, u, mime)
    ensures |r| == |methods| && forall i :: 0 <= i < |methods| ==> r[i] == Translate(methods[i], mime)
  {
    seq(|methods|, i requires 0 <= i < |methods| => Translate(methods[i], mime))
  }

  predicate DistinctRoutes(methods: seq<ServiceMethod>) {
    forall i, j :: 0 <= i < j < |methods| ==> RouteKey(methods[i]) != RouteKey(methods[j])
  }

  predicate AcceptsInterface(interface: Interface, u: Unicode, mime: Mime) {
    && IsIdentity(interface.name) && OptionalIdentity(interface.group) && OptionalIdentity(interface.version)
    && 1 <= |interface.methods| <= MAX_METHODS
    && AcceptsAll(interface.methods, u, mime)
  }

  function ServiceOf(interface: Interface, u: Unicode, mime: Mime): Service
    requires AcceptsMethods(interface.methods, u, mime)
  {
    Service(interface.name, interface.group, interface.version, TranslateAll(interface.methods, u, mime))
  }

  method ValidateMethod(m: InterfaceMethod, u: Unicode, mime: Mime) returns (accepted: Option<ServiceMethod>)
    ensures accepted.Some? <==> AcceptsMethod(m, u, mime)
    ensures accepted.Some? ==> accepted.value == Translate(m, mime)
  {
    if !m.ordinary || !IsIdentity(m.name) {
      return None;
    }
    var verb := ParseVerb(m.verb);
    if verb.None? {
      return None;
    }
    var route := ValidateRoute(m.path, u);
    if route.Err? {
      return None;
    }
    var consumes, produces := MediaType(m.consumes, mime), MediaType(m.produces, mime);
    if consumes.None? || produces.None? {
      return None;
    }
    var parameters := ResolveParameters(verb.value, m.path, m.inputs, u);
    if parameters.Err? {
      return None;
    }
    if verb.value.Head? && !m.unitResponse {
      return None;
    }
    accepted := Some(ServiceMethod(m.name, verb.value, m.path, parameters.value, consumes.value, produces.value));
  }

  predicate AcceptsAll(methods: seq<InterfaceMethod>, u: Unicode, mime: Mime) {
    AcceptsMethods(methods, u, mime) && DistinctRoutes(TranslateAll(methods, u, mime))
  }

  lemma RefusedMethod(methods: seq<InterfaceMethod>, i: nat, u: Unicode, mime: Mime)
    requires i < |methods| && !AcceptsMethod(methods[i], u, mime)
    ensures !AcceptsAll(methods, u, mime)
  {
  }

  lemma RepeatedRoute(methods: seq<InterfaceMethod>, k: nat, i: nat, u: Unicode, mime: Mime)
    requires k < i < |methods| && AcceptsMethod(methods[k], u, mime) && AcceptsMethod(methods[i], u, mime)
    requires RouteKey(Translate(methods[k], mime)) == RouteKey(Translate(methods[i], mime))
    ensures !AcceptsAll(methods, u, mime)
  {
    if AcceptsMethods(methods, u, mime) {
      var all := TranslateAll(methods, u, mime);
      assert RouteKey(all[k]) == RouteKey(all[i]);
    }
  }

  predicate TranslatedSoFar(methods: seq<InterfaceMethod>, translated: seq<ServiceMethod>, u: Unicode, mime: Mime) {
    && |translated| <= |methods|
    && forall k :: 0 <= k < |translated| ==>
         AcceptsMethod(methods[k], u, mime) && translated[k] == Translate(methods[k], mime)
  }

  lemma TranslatedOneMore(methods: seq<InterfaceMethod>, translated: seq<ServiceMethod>, u: Unicode, mime: Mime)
    requires TranslatedSoFar(methods, translated, u, mime) && |translated| < |methods|
    requires AcceptsMethod(methods[|translated|], u, mime)
    ensures TranslatedSoFar(methods, translated + [Translate(methods[|translated|], mime)], u, mime)
  {
  }

  lemma TranslatedCompletely(methods: seq<InterfaceMethod>, translated: seq<ServiceMethod>, u: Unicode, mime: Mime)
    requires TranslatedSoFar(methods, translated, u, mime) && |translated| == |methods|
    ensures AcceptsMethods(methods, u, mime) && translated == TranslateAll(methods, u, mime)
  {
  }

  lemma TranslatedAt(methods: seq<InterfaceMethod>, translated: seq<ServiceMethod>, k: nat, u: Unicode, mime: Mime)
    requires TranslatedSoFar(methods, translated, u, mime) && k < |translated|
    ensures AcceptsMethod(methods[k], u, mime) && translated[k] == Translate(methods[k], mime)
  {
  }

  /** The macro's pass over the methods; a shape seen twice under one verb is a duplicate route. */
  method TranslateMethods(methods: seq<InterfaceMethod>, u: Unicode, mime: Mime)
    returns (result: Option<seq<ServiceMethod>>)
    ensures result.Some? <==> AcceptsAll(methods, u, mime)
    ensures result.Some? ==> result.value == TranslateAll(methods, u, mime)
  {
    var translated: seq<ServiceMethod> := [];
    var routes: set<(Verb, Bytes)> := {};
    for i := 0 to |methods|
      invariant |translated| == i && TranslatedSoFar(methods, translated, u, mime)
      invariant routes == set k | 0 <= k < i :: RouteKey(translated[k])
      invariant DistinctRoutes(translated)
    {
      var next := ValidateMethod(methods[i], u, mime);
      if next.None? {
        RefusedMethod(methods, i, u, mime);
        return None;
      }
      var key := RouteKey(next.value);
      if key in routes {
        ghost var k :| 0 <= k < i && RouteKey(translated[k]) == key;
        TranslatedAt(methods, translated, k, u, mime);
        RepeatedRoute(methods, k, i, u, mime);
        return None;
      }
      TranslatedOneMore(methods, translated, u, mime);
      routes := routes + {key};
      translated := translated + [next.value];
    }
    TranslatedCompletely(methods, translated, u, mime);
    result := Some(translated);
  }

  method Validate(interface: Interface, u: Unicode, mime: Mime) returns (service: Option<Service>)
    ensures service.Some? <==> AcceptsInterface(interface, u, mime)
    ensures service.Some? ==> service.value == ServiceOf(interface, u, mime)
  {
    if !IsIdentity(interface.name) || !OptionalIdentity(interface.group) || !OptionalIdentity(interface.version) {
      return None;
    }
    if |interface.methods| == 0 || |interface.methods| > MAX_METHODS {
      return None;
    }
    var methods := TranslateMethods(interface.methods, u, mime);
    if methods.None? {
      return None;
    }
    service := Some(Service(interface.name, interface.group, interface.version, methods.value));
  }

  // ---------------------------------------------------------------------------------------------
  // The contract

  predicate AcceptsIdentities(parameters: seq<Parameter>) {
    forall i :: 0 <= i < |parameters| ==> IsIdentity(parameters[i].wireName)
  }

  /** What building one method's descriptor requires. */
  predicate Describable(m: ServiceMethod, u: Unicode, mime: Mime) {
    && IsIdentity(m.name) && AcceptsIdentities(Declared(m.parameters))
    && mime(m.consumes).Some? && mime(m.produces).Some?
    && AcceptsOperation(m.verb, m.path, Declared(m.parameters), u)
  }

  function Describe(m: ServiceMethod, id: nat, mime: Mime): MethodDescriptor
    requires mime(m.consumes).Some? && mime(m.produces).Some?
  {
    MethodDescriptor(id % MAX_METHODS, m.name,
                     Operation(m.verb, m.path, Declared(m.parameters), mime(m.consumes).value, mime(m.produces).value))
  }

  function OperationKey(m: MethodDescriptor): (Verb, Bytes) {
    (m.operation.verb, RouteShape(m.operation.path))
  }

  /** Contiguous ids, distinct names, distinct routes. */
  predicate AcceptsDescriptors(methods: seq<MethodDescriptor>) {
    && methods != []
    && (forall i :: 0 <= i < |methods| ==> methods[i].id == i)
    && (forall i, j :: 0 <= i < j < |methods| ==>
          methods[i].name != methods[j].name && OperationKey(methods[i]) != OperationKey(methods[j]))
  }

  /** The generated descriptor code: one method, then the whole list. */
  method DescribeMethod(m: ServiceMethod, id: nat, u: Unicode, mime: Mime) returns (descriptor: Option<MethodDescriptor>)
    ensures descriptor.Some? <==> Describable(m, u, mime)
    ensures descriptor.Some? ==> descriptor.value == Describe(m, id, mime)
  {
    var declared := Declared(m.parameters);
    for i := 0 to |declared|
      invariant forall k :: 0 <= k < i ==> IsIdentity(declared[k].wireName)
    {
      if !IsIdentity(declared[i].wireName) {
        return None;
      }
    }
    var consumes, produces := mime(m.consumes), mime(m.produces);
    if consumes.None? || produces.None? {
      return None;
    }
    DeclaredKeeps(m.parameters);
    var error := ValidateHttpOperation(m.verb, m.path, declared, u);
    if error.Some? || !IsIdentity(m.name) {
      return None;
    }
    descriptor := Some(MethodDescriptor(id % MAX_METHODS, m.name,
                                        Operation(m.verb, m.path, declared, consumes.value, produces.value)));
  }

  method ValidateMethods(methods: seq<MethodDescriptor>) returns (accepted: bool)
    ensures accepted <==> AcceptsDescriptors(methods)
  {
    if methods == [] {
      return false;
    }
    var names: set<Bytes> := {};
    var routes: set<(Verb, Bytes)> := {};
    for i := 0 to |methods|
      invariant names == set k | 0 <= k < i :: methods[k].name
      invariant routes == set k | 0 <= k < i :: OperationKey(methods[k])
      invariant forall k :: 0 <= k < i ==> methods[k].id == k
      invariant forall j, k :: 0 <= j < k < i ==>
                  methods[j].name != methods[k].name && OperationKey(methods[j]) != OperationKey(methods[k])
    {
      if methods[i].id != i || methods[i].name in names {
        return false;
      }
      names := names + {methods[i].name};
      var shape := HttpRouteShape(methods[i].operation.path);
      if (methods[i].operation.verb, shape) in routes {
        return false;
      }
      routes := routes + {(methods[i].operation.verb, shape)};
    }
    accepted := true;
  }

  predicate AllDescribable(methods: seq<ServiceMethod>, u: Unicode, mime: Mime) {
    forall i :: 0 <= i < |methods| ==> Describable(methods[i], u, mime)
  }

  function DescribeAll(methods: seq<ServiceMethod>, u: Unicode, mime: Mime): (r: seq<MethodDescriptor>)
    requires AllDescribable(methods, u, mime)
    ensures |r| == |methods| && forall i :: 0 <= i < |methods| ==> r[i] == Describe(methods[i], i, mime)
  {
    seq(|methods|, i requires 0 <= i < |methods| => Describe(methods[i], i, mime))
  }

  predicate AcceptsService(service: Service, u: Unicode, mime: Mime) {
    && IsIdentity(service.name) && OptionalIdentity(service.group) && OptionalIdentity(service.version)
    && AllDescribable(service.methods, u, mime)
    && AcceptsDescriptors(DescribeAll(service.methods, u, mime))
  }

  method BuildDescriptor(service: Service, u: Unicode, mime: Mime) returns (descriptor: Option<Descriptor>)
    ensures descriptor.Some? <==> AcceptsService(service, u, mime)
    ensures descriptor.Some? ==>
              descriptor.value == Descriptor(service.name, service.group, service.version,
                                             DescribeAll(service.methods, u, mime))
  {
    if !IsIdentity(service.name) || !OptionalIdentity(service.group) || !OptionalIdentity(service.version) {
      return None;
    }
    var methods: seq<MethodDescriptor> := [];
    for i := 0 to |service.methods|
      invariant |methods| == i
      invariant forall k :: 0 <= k < i ==>
                  Describable(service.methods[k], u, mime) && methods[k] == Describe(service.methods[k], k, mime)
    {
      var described := DescribeMethod(service.methods[i], i, u, mime);
      if described.None? {
        return None;
      }
      methods := methods + [described.value];
    }
    assert methods == DescribeAll(service.methods, u, mime);
    var accepted := ValidateMethods(methods);
    if !accepted {
      return None;
    }
    descriptor := Some(Descriptor(service.name, service.group, service.version, methods));
  }

  // ---------------------------------------------------------------------------------------------
  // Agreement

  /** Canonical forms are media types, and canonical; the default media type is one. */
  ghost predicate Canonicalises(mime: Mime) {
    && mime(JSON) == Some(JSON)
    && forall x :: mime(x).Some? ==> mime(mime(x).value) == mime(x)
  }

  predicate DistinctMethodNames(interface: Interface) {
    forall i, j :: 0 <= i < j < |interface.methods| ==> interface.methods[i].name != interface.methods[j].name
  }

  /** An accepted method is describable, and its descriptor keeps the media types the macro wrote. */
  lemma AcceptedMethodIsDescribable(m: InterfaceMethod, id: nat, u: Unicode, mime: Mime)
    requires AcceptsMethod(m, u, mime) && Canonicalises(mime)
    ensures Describable(Translate(m, mime), u, mime)
    ensures var operation := Describe(Translate(m, mime), id, mime).operation;
            operation.consumes == Translate(m, mime).consumes && operation.produces == Translate(m, mime).produces
  {
    AcceptedInputsAreAcceptedParameters(m.inputs, Placeholders(m.path), ParseVerb(m.verb).value);
  }

  /** A descriptor list mirrors a method list: ids count up, names and routes are the same. */
  predicate Mirrors(descriptors: seq<MethodDescriptor>, methods: seq<ServiceMethod>) {
    && |descriptors| == |methods|
    && forall i :: 0 <= i < |methods| ==>
         && descriptors[i].id == i && descriptors[i].name == methods[i].name
         && OperationKey(descriptors[i]) == RouteKey(methods[i])
  }

  lemma DescribedMirrors(methods: seq<ServiceMethod>, u: Unicode, mime: Mime)
    requires AllDescribable(methods, u, mime) && |methods| <= MAX_METHODS
    ensures Mirrors(DescribeAll(methods, u, mime), methods)
  {
    var descriptors := DescribeAll(methods, u, mime);
    forall i | 0 <= i < |methods|
      ensures descriptors[i].id == i && descriptors[i].name == methods[i].name
      ensures OperationKey(descriptors[i]) == RouteKey(methods[i])
    {
      assert Describable(methods[i], u, mime);
      assert descriptors[i] == Describe(methods[i], i, mime);
    }
  }

  lemma MirrorsDistinct(descriptors: seq<MethodDescriptor>, methods: seq<ServiceMethod>)
    requires Mirrors(descriptors, methods) && methods != [] && DistinctRoutes(methods)
    requires forall i, j :: 0 <= i < j < |methods| ==> methods[i].name != methods[j].name
    ensures AcceptsDescriptors(descriptors)
  {
    forall i, j | 0 <= i < j < |descriptors|
      ensures descriptors[i].name != descriptors[j].name && OperationKey(descriptors[i]) != OperationKey(descriptors[j])
    {
      assert RouteKey(methods[i]) != RouteKey(methods[j]);
    }
  }

  lemma AcceptedMethodsAreDescribable(methods: seq<InterfaceMethod>, u: Unicode, mime: Mime)
    requires AcceptsMethods(methods, u, mime) && Canonicalises(mime)
    ensures AllDescribable(TranslateAll(methods, u, mime), u, mime)
  {
    forall i | 0 <= i < |methods| ensures Describable(TranslateAll(methods, u, mime)[i], u, mime) {
      AcceptedMethodIsDescribable(methods[i], i, u, mime);
    }
  }

  lemma TranslatedNames(methods: seq<InterfaceMethod>, u: Unicode, mime: Mime)
    requires AcceptsMethods(methods, u, mime)
    ensures forall i :: 0 <= i < |methods| ==> TranslateAll(methods, u, mime)[i].name == methods[i].name
  {
  }

  /** Whatever the macro accepts, the generated code can build a descriptor for. */
  lemma AcceptedInterfaceIsDescribable(interface: Interface, u: Unicode, mime: Mime)
    requires AcceptsInterface(interface, u, mime) && DistinctMethodNames(interface) && Canonicalises(mime)
    ensures AcceptsService(ServiceOf(interface, u, mime), u, mime)
  {
    AcceptedMethodsAreDescribable(interface.methods, u, mime);
    TranslatedNames(interface.methods, u, mime);
    var methods := TranslateAll(interface.methods, u, mime);
    DescribedMirrors(methods, u, mime);
    MirrorsDistinct(DescribeAll(methods, u, mime), methods);
  }

  /** The macro followed by the code it generates: the second never refuses what the first accepted. */
  method Generate(interface: Interface, u: Unicode, mime: Mime)
    returns (service: Option<Service>, descriptor: Option<Descriptor>)
    requires DistinctMethodNames(interface) && Canonicalises(mime)
    ensures service.Some? <==> AcceptsInterface(interface, u, mime)
    ensures service.Some? ==> descriptor.Some?
    ensures service.Some? ==>
              |service.value.methods| == |descriptor.value.methods| == |interface.methods|
              && forall i :: 0 <= i < |interface.methods| ==>
                   var m, d := service.value.methods[i], descriptor.value.methods[i];
                   m.name == interface.methods[i].name
                   && d == MethodDescriptor(
                             i, m.name, Operation(m.verb, m.path, Declared(m.parameters), m.consumes, m.produces))
  {
    service := Validate(interface, u, mime);
    descriptor := None;
    if service.Some? {
      AcceptedInterfaceIsDescribable(interface, u, mime);
      descriptor := BuildDescriptor(service.value, u, mime);
      forall i | 0 <= i < |interface.methods|
        ensures var m, d := service.value.methods[i], descriptor.value.methods[i];
                d == MethodDescriptor(
                       i, m.name, Operation(m.verb, m.path, Declared(m.parameters), m.consumes, m.produces))
      {
        AcceptedMethodIsDescribable(interface.methods[i], i, u, mime);
      }
    }
  }
}
