/** One named service of the container: its definition, the shared flag,
    the cached shared instance and the resolved flag. The descriptor is an
    immutable record; each mutator returns the updated record, and `Resolve`
    returns the updated record together with what the call returned or threw. */
module DiService {
  import opened Wrappers
  import opened Php
  import opened DiRuntime
  import opened DiBuilder
  import opened DiDefinition

  /** The descriptor's state. `resolved` and `sharedInstance` start out
      null, as uninitialised properties do. */
  datatype Service = Service(name: Value, definition: Value, shared: Value, resolved: Value, sharedInstance: Value)

  /** `new Service(name, definition, shared)`. */
  function NewService(name: Value, definition: Value, shared: Value): (s: Service)
    ensures s.name == name && s.definition == definition && s.shared == shared
    ensures s.resolved == Null && s.sharedInstance == Null
  {
    Service(name, definition, shared, Null, Null)
  }

  function GetName(s: Service): Value { s.name }

  function IsShared(s: Service): Value { s.shared }

  function GetDefinition(s: Service): Value { s.definition }

  function IsResolved(s: Service): Value { s.resolved }

  function SetShared(s: Service, shared: Value): Service { s.(shared := shared) }

  function SetSharedInstance(s: Service, instance: Value): Service { s.(sharedInstance := instance) }

  function SetDefinition(s: Service, definition: Value): Service { s.(definition := definition) }

  /** Each setter is read back by its getter and touches nothing else. */
  lemma SettersReadBack(s: Service, v: Value)
    ensures IsShared(SetShared(s, v)) == v
    ensures GetDefinition(SetDefinition(s, v)) == v
    ensures SetShared(s, v).(shared := s.shared) == s
    ensures SetDefinition(s, v).(definition := s.definition) == s
    ensures SetSharedInstance(s, v).(sharedInstance := s.sharedInstance) == s
    ensures GetName(SetShared(s, v)) == GetName(s) && GetName(SetDefinition(s, v)) == GetName(s)
    ensures IsResolved(SetShared(s, v)) == IsResolved(s) && IsResolved(SetDefinition(s, v)) == IsResolved(s)
  {
  }

  /** A shared service with a cached non-null instance answers from the cache. */
  predicate CacheHit(s: Service) {
    Truthy(s.shared) && s.sharedInstance != Null
  }

  /** Positional arguments from override `parameters`: an array's values,
      nothing otherwise. */
  function OverrideArgs(parameters: Value): (args: seq<Value>)
    ensures parameters.Arr? ==> args == ValuesOf(parameters.entries)
    ensures !parameters.Arr? ==> args == []
  {
    if parameters.Arr? then ValuesOf(parameters.entries) else []
  }

  /** What the definition produces, by its shape. */
  function Produce(s: Service, classes: Classes, parameters: Value, di: Option<Container>): (r: Result<Value, DiError>)
    // a class name that exists is instantiated with the override values, or with none
    ensures s.definition.Str? && classes.classExists(s.definition.s) ==>
              r == classes.create(s.definition, OverrideArgs(parameters))
    // a closure is invoked, bound to the container when there is one, with the override values or none
    ensures IsClosure(s.definition) ==> r == classes.invoke(s.definition.obj, di, OverrideArgs(parameters))
    // any other object is already the instance
    ensures s.definition.Obj? && !IsClosure(s.definition) ==> r == Success(s.definition)
    // an array goes through the builder with the same container and parameters
    ensures s.definition.Arr? ==> r == Build(di, classes, s.definition, parameters)
    // an unknown class, and every other shape, cannot be resolved
    ensures (|| (s.definition.Str? && !classes.classExists(s.definition.s))
             || s.definition.Null? || s.definition.Bool? || s.definition.Int?) ==>
              r == Failure(CannotResolve(s.name))
  {
    match s.definition
    case Str(className) =>
      if classes.classExists(className) then
        if parameters.Arr? then
          if |parameters.entries| > 0 then classes.create(s.definition, ValuesOf(parameters.entries))
          else classes.create(s.definition, [])
        else classes.create(s.definition, [])
      else Failure(CannotResolve(s.name))
    case Obj(o) =>
      if IsClosure(s.definition) then
        if parameters.Arr? then classes.invoke(o, di, ValuesOf(parameters.entries))
        else classes.invoke(o, di, [])
      else Success(s.definition)
    case Arr(_) => Build(di, classes, s.definition, parameters)
    case _ => Failure(CannotResolve(s.name))
  }

  /** The descriptor after a `resolve` call, and what the call returned or threw. */
  datatype Resolution = Resolution(service: Service, outcome: Result<Value, DiError>)

  /** `resolve(parameters, dependencyInjector)`. */
  function Resolve(s: Service, classes: Classes, parameters: Value, di: Option<Container>): (r: Resolution)
    // a cache hit returns the cached instance and changes nothing
    ensures CacheHit(s) ==> r == Resolution(s, Success(s.sharedInstance))
    // otherwise the definition produces the outcome
    ensures !CacheHit(s) ==> r.outcome == Produce(s, classes, parameters, di)
    // a failure leaves the descriptor as it was
    ensures r.outcome.Failure? ==> r.service == s
    // a success marks it resolved and, when shared, caches the instance
    ensures !CacheHit(s) && r.outcome.Success? ==>
              r.service == s.(resolved := Bool(true),
                              sharedInstance := if Truthy(s.shared) then r.outcome.value else s.sharedInstance)
  {
    if Truthy(s.shared) && s.sharedInstance != Null then Resolution(s, Success(s.sharedInstance))
    else
      match Produce(s, classes, parameters, di)
      case Failure(e) => Resolution(s, Failure(e))
      case Success(instance) =>
        var cached := if Truthy(s.shared) then s.(sharedInstance := instance) else s;
        Resolution(cached.(resolved := Bool(true)), Success(instance))
  }

  /** Shared identity: once a shared service has resolved to a non-null
      instance, every later resolve returns that same instance, whatever
      the parameters, container or class oracle, and changes nothing. */
  lemma SharedIdentity(s: Service, classes: Classes, parameters: Value, di: Option<Container>,
                       classes': Classes, parameters': Value, di': Option<Container>)
    requires Truthy(s.shared)
    requires Resolve(s, classes, parameters, di).outcome.Success?
    requires Resolve(s, classes, parameters, di).outcome.value != Null
    ensures var first := Resolve(s, classes, parameters, di);
            Resolve(first.service, classes', parameters', di') == first
  {
  }

  /** A shared service whose instance is null is not served from the cache:
      the next resolve produces again. */
  lemma NullInstanceNotCached(s: Service, classes: Classes, parameters: Value, di: Option<Container>)
    requires Truthy(s.shared)
    requires Resolve(s, classes, parameters, di).outcome == Success(Null)
    ensures !CacheHit(Resolve(s, classes, parameters, di).service)
  {
  }

  /** A non-shared service never fills its cache. */
  lemma UnsharedNeverCaches(s: Service, classes: Classes, parameters: Value, di: Option<Container>)
    requires !Truthy(s.shared)
    ensures Resolve(s, classes, parameters, di).service.sharedInstance == s.sharedInstance
  {
  }

  /** Changing the definition does not clear the cached instance: a shared
      service that has cached an instance keeps answering with it. */
  lemma CacheSurvivesSetDefinition(s: Service, definition: Value, classes: Classes, parameters: Value, di: Option<Container>)
    requires CacheHit(s)
    ensures Resolve(SetDefinition(s, definition), classes, parameters, di).outcome == Success(s.sharedInstance)
  {
  }

  /** For a class-name definition an empty override array is the same as
      no override; for an array definition it is not, since it replaces the
      definition's `arguments` with nothing. */
  lemma EmptyOverrideOnClassName(s: Service, classes: Classes, di: Option<Container>)
    requires s.definition.Str?
    ensures Resolve(s, classes, Arr([]), di) == Resolve(s, classes, Null, di)
  {
  }

  /** An encoded typed definition resolves to its reference meaning. */
  lemma ResolveOfEncode(s: Service, d: Definition, classes: Classes, parameters: Value, di: Option<Container>)
    requires s.definition == Encode(d) && !CacheHit(s)
    ensures Resolve(s, classes, parameters, di).outcome == Instantiate(di, classes, d, parameters)
  {
    BuildOfEncode(di, classes, d, parameters);
  }

  /** `setParameter(position, parameter)`: sets `arguments[position]` in an
      array definition, creating `arguments` when absent. An `arguments`
      entry that is not an array is replaced by `[position => parameter]`. */
  function SetParameter(s: Service, position: Key, parameter: Value): (r: Result<Service, DiError>)
    ensures !s.definition.Arr? <==> r == Failure(DefinitionNotArrayToUpdate)
    // only the definition changes, and in it only `arguments`
    ensures r.Success? ==>
              && r.value.(definition := s.definition) == s
              && r.value.definition.Arr?
              && forall k :: k != StrKey("arguments") ==> Fetch(r.value.definition, k) == Fetch(s.definition, k)
    // in `arguments`, `position` holds `parameter` ...
    ensures r.Success? ==>
              && Field(r.value.definition, "arguments").Some?
              && Fetch(Field(r.value.definition, "arguments").value, position) == Some(parameter)
    // ... and every other position of an existing array keeps its value
    ensures r.Success? && Field(s.definition, "arguments").Some? && Field(s.definition, "arguments").value.Arr? ==>
              forall k :: k != position ==>
                Fetch(Field(r.value.definition, "arguments").value, k) == Fetch(Field(s.definition, "arguments").value, k)
    // ... while a missing or non-array `arguments` becomes the one-entry array
    ensures r.Success? && (Field(s.definition, "arguments").None? || !Field(s.definition, "arguments").value.Arr?) ==>
              Field(r.value.definition, "arguments") == Some(Arr([Entry(position, parameter)]))
  {
    if !s.definition.Arr? then Failure(DefinitionNotArrayToUpdate)
    else
      var arguments :=
        match Field(s.definition, "arguments")
        case Some(Arr(es)) => Put(es, position, parameter)
        case _ => [Entry(position, parameter)];
      Success(s.(definition := Arr(Put(s.definition.entries, StrKey("arguments"), Arr(arguments)))))
  }

  /** `getParameter(position)`: the value at `position` of the definition's
      `arguments`, or null when either is missing. */
  function GetParameter(s: Service, position: Key): (r: Result<Value, DiError>)
    ensures !s.definition.Arr? <==> r == Failure(DefinitionNotArrayToRead)
    ensures r.Success? && r.value != Null ==>
              Field(s.definition, "arguments").Some? && Fetch(Field(s.definition, "arguments").value, position) == Some(r.value)
    // a present position gives its value, null included; a missing `arguments` or position gives null
    ensures s.definition.Arr? && Field(s.definition, "arguments").Some? && Fetch(Field(s.definition, "arguments").value, position).Some? ==>
              r == Success(Fetch(Field(s.definition, "arguments").value, position).value)
    ensures s.definition.Arr? && (Field(s.definition, "arguments").None? || Fetch(Field(s.definition, "arguments").value, position).None?) ==>
              r == Success(Null)
  {
    if !s.definition.Arr? then Failure(DefinitionNotArrayToRead)
    else
      match Field(s.definition, "arguments")
      case Some(arguments) =>
        (match Fetch(arguments, position)
         case Some(parameter) => Success(parameter)
         case None => Success(Null))
      case None => Success(Null)
  }

  /** Reading back a parameter that was just set gives it, and every other
      position reads as before. */
  lemma GetParameterAfterSetParameter(s: Service, position: Key, parameter: Value, other: Key)
    requires s.definition.Arr?
    requires other != position
    ensures SetParameter(s, position, parameter).Success?
    ensures GetParameter(SetParameter(s, position, parameter).value, position) == Success(parameter)
    ensures GetParameter(SetParameter(s, position, parameter).value, other) == GetParameter(s, other)
  {
  }

  /** Overwriting position `start + i` of an encoded argument list is
      encoding the list with its `i`-th spec replaced. */
  lemma {:induction false} PutEncodedArgument(args: seq<ArgSpec>, start: int, i: nat, a: ArgSpec)
    requires i < |args|
    ensures Put(EncodeArgsFrom(args, start), IntKey(start + i), EncodeArg(a)) == EncodeArgsFrom(args[i := a], start)
    decreases |args|
  {
    var es := EncodeArgsFrom(args, start);
    var changed := args[i := a];
    var v := EncodeArg(a);
    EncodeArgsFromCons(args, start);
    EncodeArgsFromCons(changed, start);
    if i == 0 {
      PutAtHead(es, IntKey(start), v);
      assert changed[1..] == args[1..];
    } else {
      PutPastHead(es, IntKey(start + i), v);
      PutEncodedArgument(args[1..], start + 1, i - 1, a);
      assert changed[1..] == args[1..][i - 1 := a];
      assert changed[0] == args[0];
    }
  }

  lemma EncodeArgsFromCons(args: seq<ArgSpec>, start: int)
    requires |args| > 0
    ensures EncodeArgsFrom(args, start) == [Entry(IntKey(start), EncodeArg(args[0]))] + EncodeArgsFrom(args[1..], start + 1)
  {
  }

  /** Assigning the first entry's key overwrites it. */
  lemma PutAtHead(es: seq<Entry>, k: Key, v: Value)
    requires |es| > 0 && es[0].key == k
    ensures Put(es, k, v) == [Entry(k, v)] + es[1..]
  {
  }

  /** Assigning another key keeps the first entry. */
  lemma PutPastHead(es: seq<Entry>, k: Key, v: Value)
    requires |es| > 0 && es[0].key != k
    ensures Put(es, k, v) == [es[0]] + Put(es[1..], k, v)
  {
  }

  /** On an array `arguments`, `setParameter` writes into it in place. */
  lemma SetParameterOnArguments(s: Service, position: Key, parameter: Value, es: seq<Entry>)
    requires s.definition.Arr? && Field(s.definition, "arguments") == Some(Arr(es))
    ensures SetParameter(s, position, parameter) ==
            Success(s.(definition := Arr(Put(s.definition.entries, StrKey("arguments"), Arr(Put(es, position, parameter))))))
  {
  }

  /** Writing `arguments` leaves the other entries the builder reads alone. */
  lemma PutArgumentsKeepsOtherFields(es: seq<Entry>, v: Value)
    ensures Field(Arr(Put(es, StrKey("arguments"), v)), "arguments") == Some(v)
    ensures Field(Arr(Put(es, StrKey("arguments"), v)), "className") == Field(Arr(es), "className")
    ensures Field(Arr(Put(es, StrKey("arguments"), v)), "calls") == Field(Arr(es), "calls")
    ensures Field(Arr(Put(es, StrKey("arguments"), v)), "properties") == Field(Arr(es), "properties")
  {
    var r := Put(es, StrKey("arguments"), v);
    assert "className"[0] != "arguments"[0];
    assert Find(r, StrKey("className")) == Find(es, StrKey("className"));
    assert |"calls"| != |"arguments"|;
    assert Find(r, StrKey("calls")) == Find(es, StrKey("calls"));
    assert |"properties"| != |"arguments"|;
    assert Find(r, StrKey("properties")) == Find(es, StrKey("properties"));
  }

  /** Overwriting position `i` of an encoded definition's arguments gives
      a definition the builder reads as the encoding of the changed one. */
  lemma PutArgumentOfEncode(d: Definition, i: nat, a: ArgSpec)
    requires d.arguments.Some? && i < |d.arguments.value|
    ensures var def := Arr(Put(Encode(d).entries, StrKey("arguments"),
                               Arr(Put(EncodeArgsFrom(d.arguments.value, 0), IntKey(i), EncodeArg(a)))));
            var d' := d.(arguments := Some(d.arguments.value[i := a]));
            && Field(def, "className") == Field(Encode(d'), "className")
            && Field(def, "arguments") == Field(Encode(d'), "arguments")
            && Field(def, "calls") == Field(Encode(d'), "calls")
            && Field(def, "properties") == Field(Encode(d'), "properties")
  {
    var args := d.arguments.value;
    var d' := d.(arguments := Some(args[i := a]));
    var es := EncodeArgsFrom(args, 0);
    var changed := Arr(Put(es, IntKey(i), EncodeArg(a)));
    PutEncodedArgument(args, 0, i, a);
    assert changed == EncodeArgs(args[i := a]);
    EncodeFields(d);
    EncodeFields(d');
    assert OptionalArgs(d'.arguments) == Some(changed);
    assert OptionalCalls(d'.calls) == OptionalCalls(d.calls);
    assert OptionalProperties(d'.properties) == OptionalProperties(d.properties);
    PutArgumentsKeepsOtherFields(Encode(d).entries, changed);
  }

  /** Positional mutation: setting position `i` of an encoded definition's
      arguments to the encoding of `a` makes the next resolve construct
      with `a` at position `i`, everything else as declared. */
  lemma PositionalMutation(s: Service, d: Definition, i: nat, a: ArgSpec,
                           classes: Classes, parameters: Value, di: Option<Container>)
    requires s.definition == Encode(d)
    requires d.arguments.Some? && i < |d.arguments.value|
    requires !Truthy(s.shared)
    ensures SetParameter(s, IntKey(i), EncodeArg(a)).Success?
    ensures Resolve(SetParameter(s, IntKey(i), EncodeArg(a)).value, classes, parameters, di).outcome ==
            Instantiate(di, classes, d.(arguments := Some(d.arguments.value[i := a])), parameters)
  {
    var d' := d.(arguments := Some(d.arguments.value[i := a]));
    EncodeFields(d);
    var es := EncodeArgsFrom(d.arguments.value, 0);
    SetParameterOnArguments(s, IntKey(i), EncodeArg(a), es);
    PutArgumentOfEncode(d, i, a);
    var s' := SetParameter(s, IntKey(i), EncodeArg(a)).value;
    BuildReadsOnlyItsFields(di, classes, s'.definition, Encode(d'), parameters);
    BuildOfEncode(di, classes, d', parameters);
    assert Resolve(s', classes, parameters, di).outcome == Build(di, classes, s'.definition, parameters);
  }

  /** `__set_state(attributes)`: `_name`, `_definition` and `_shared` are
      required; the result is a fresh service with exactly those. */
  function SetState(attributes: Value): (r: Result<Service, DiError>)
    ensures Field(attributes, "_name").None? ==> r == Failure(AttributeRequired("_name"))
    ensures Field(attributes, "_name").Some? && Field(attributes, "_definition").None? ==>
              r == Failure(AttributeRequired("_definition"))
    ensures Field(attributes, "_name").Some? && Field(attributes, "_definition").Some? && Field(attributes, "_shared").None? ==>
              r == Failure(AttributeRequired("_shared"))
    ensures r.Success? ==>
              && Field(attributes, "_name") == Some(r.value.name)
              && Field(attributes, "_definition") == Some(r.value.definition)
              && Field(attributes, "_shared") == Some(r.value.shared)
              && r.value.resolved == Null && r.value.sharedInstance == Null
  {
    match Field(attributes, "_name")
    case None => Failure(AttributeRequired("_name"))
    case Some(name) =>
      match Field(attributes, "_definition")
      case None => Failure(AttributeRequired("_definition"))
      case Some(definition) =>
        match Field(attributes, "_shared")
        case None => Failure(AttributeRequired("_shared"))
        case Some(shared) => Success(NewService(name, definition, shared))
  }

  /** The array `var_export` gives `__set_state` for a service. */
  function Export(s: Service): Value {
    Arr([Entry(StrKey("_name"), s.name), Entry(StrKey("_definition"), s.definition),
         Entry(StrKey("_shared"), s.shared), Entry(StrKey("_resolved"), s.resolved),
         Entry(StrKey("_sharedInstance"), s.sharedInstance)])
  }

  /** Exporting and restoring a service keeps its name, definition and
      shared flag and forgets its resolution state. */
  lemma SetStateOfExport(s: Service)
    ensures SetState(Export(s)) == Success(NewService(s.name, s.definition, s.shared))
  {
    var es := Export(s).entries;
    assert es[0].key != StrKey("_definition") && es[0].key != StrKey("_shared") && es[1].key != StrKey("_shared");
    FindFirst(es, 0, StrKey("_name"));
    FindFirst(es, 1, StrKey("_definition"));
    FindFirst(es, 2, StrKey("_shared"));
  }
}
