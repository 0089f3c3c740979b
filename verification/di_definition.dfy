/** Well-formed service definitions as typed values, their encoding into
    the array shape the builder reads, and a reference semantics written
    directly over the typed form. The main theorem says the builder, run on
    an encoded definition, does exactly what the reference semantics says:
    no positional error can arise from a well-formed definition, arguments
    are resolved in order, calls run before properties. */
module DiDefinition {
  import opened Wrappers
  import opened Php
  import opened DiRuntime
  import opened DiBuilder

  /** One argument spec. */
  datatype ArgSpec =
    | ServiceRef(name: Value)
    | Parameter(value: Value)
    | NewInstance(className: Value, arguments: Option<Value>)

  /** One setter call: the method and, optionally, its argument specs. */
  datatype MethodCall = MethodCall(methodName: Value, arguments: Option<seq<ArgSpec>>)

  /** One property assignment. */
  datatype PropertyAssign = PropertyAssign(name: Value, value: ArgSpec)

  /** A definition: the class, and the optional constructor arguments,
      setter calls and property assignments. */
  datatype Definition = Definition(
    className: Value,
    arguments: Option<seq<ArgSpec>>,
    calls: Option<seq<MethodCall>>,
    properties: Option<seq<PropertyAssign>>)

  function Tagged(tag: Value, fields: seq<Entry>): Value {
    Arr([Entry(StrKey("type"), tag)] + fields)
  }

  /** The array form of an argument spec. */
  function EncodeArg(a: ArgSpec): Value {
    match a
    case ServiceRef(name) => Tagged(ServiceType, [Entry(StrKey("name"), name)])
    case Parameter(value) => Tagged(ParameterType, [Entry(StrKey("value"), value)])
    case NewInstance(className, None) => Tagged(InstanceType, [Entry(StrKey("className"), className)])
    case NewInstance(className, Some(arguments)) =>
      Tagged(InstanceType, [Entry(StrKey("className"), className), Entry(StrKey("arguments"), arguments)])
  }

  /** A list of argument specs keyed `start`, `start + 1`, ... */
  function EncodeArgsFrom(args: seq<ArgSpec>, start: int): (r: seq<Entry>)
    ensures |r| == |args|
    decreases |args|
  {
    if |args| == 0 then [] else [Entry(IntKey(start), EncodeArg(args[0]))] + EncodeArgsFrom(args[1..], start + 1)
  }

  /** The entry at index `i` is the `i`-th item, keyed `start + i`. */
  lemma {:induction false} EncodeArgsFromAt(args: seq<ArgSpec>, start: int, i: nat)
    requires i < |args|
    ensures EncodeArgsFrom(args, start)[i] == Entry(IntKey(start + i), EncodeArg(args[i]))
    decreases i
  {
    if i > 0 {
      EncodeArgsFromAt(args[1..], start + 1, i - 1);
    }
  }

  function EncodeArgs(args: seq<ArgSpec>): Value {
    Arr(EncodeArgsFrom(args, 0))
  }

  function EncodeCall(c: MethodCall): Value {
    match c.arguments
    case None => Arr([Entry(StrKey("method"), c.methodName)])
    case Some(args) => Arr([Entry(StrKey("method"), c.methodName), Entry(StrKey("arguments"), EncodeArgs(args))])
  }

  function EncodeCallsFrom(cs: seq<MethodCall>, start: int): (r: seq<Entry>)
    ensures |r| == |cs|
    decreases |cs|
  {
    if |cs| == 0 then [] else [Entry(IntKey(start), EncodeCall(cs[0]))] + EncodeCallsFrom(cs[1..], start + 1)
  }

  /** The entry at index `i` is the `i`-th item, keyed `start + i`. */
  lemma {:induction false} EncodeCallsFromAt(cs: seq<MethodCall>, start: int, i: nat)
    requires i < |cs|
    ensures EncodeCallsFrom(cs, start)[i] == Entry(IntKey(start + i), EncodeCall(cs[i]))
    decreases i
  {
    if i > 0 {
      EncodeCallsFromAt(cs[1..], start + 1, i - 1);
    }
  }

  function EncodeProperty(p: PropertyAssign): Value {
    Arr([Entry(StrKey("name"), p.name), Entry(StrKey("value"), EncodeArg(p.value))])
  }

  function EncodePropertiesFrom(ps: seq<PropertyAssign>, start: int): (r: seq<Entry>)
    ensures |r| == |ps|
    decreases |ps|
  {
    if |ps| == 0 then [] else [Entry(IntKey(start), EncodeProperty(ps[0]))] + EncodePropertiesFrom(ps[1..], start + 1)
  }

  /** The entry at index `i` is the `i`-th item, keyed `start + i`. */
  lemma {:induction false} EncodePropertiesFromAt(ps: seq<PropertyAssign>, start: int, i: nat)
    requires i < |ps|
    ensures EncodePropertiesFrom(ps, start)[i] == Entry(IntKey(start + i), EncodeProperty(ps[i]))
    decreases i
  {
    if i > 0 {
      EncodePropertiesFromAt(ps[1..], start + 1, i - 1);
    }
  }

  /** The entry `k => v` when `v` is present, nothing otherwise. */
  function Optional(k: Key, v: Option<Value>): seq<Entry> {
    if v.Some? then [Entry(k, v.value)] else []
  }

  function OptionalArgs(args: Option<seq<ArgSpec>>): Option<Value> {
    if args.Some? then Some(EncodeArgs(args.value)) else None
  }

  function OptionalCalls(cs: Option<seq<MethodCall>>): Option<Value> {
    if cs.Some? then Some(Arr(EncodeCallsFrom(cs.value, 0))) else None
  }

  function OptionalProperties(ps: Option<seq<PropertyAssign>>): Option<Value> {
    if ps.Some? then Some(Arr(EncodePropertiesFrom(ps.value, 0))) else None
  }

  /** The array form of a definition. */
  function Encode(d: Definition): Value {
    Arr([Entry(StrKey("className"), d.className)]
        + Optional(StrKey("arguments"), OptionalArgs(d.arguments))
        + Optional(StrKey("calls"), OptionalCalls(d.calls))
        + Optional(StrKey("properties"), OptionalProperties(d.properties)))
  }

  /** Lookup of `k` past an optional entry with another key. */
  lemma FindPastOptional(k: Key, k': Key, v: Option<Value>, rest: seq<Entry>)
    requires k != k'
    ensures Find(Optional(k', v) + rest, k) == Find(rest, k)
  {
    if v.Some? {
      FindCons(Entry(k', v.value), rest, k);
    } else {
      assert Optional(k', v) + rest == rest;
    }
  }

  /** Lookup of `k` at an optional entry with that key. */
  lemma FindAtOptional(k: Key, v: Option<Value>)
    ensures Find(Optional(k, v), k) == v
  {
  }

  /** Lookup of `k` at an optional entry with that key, before `rest`. */
  lemma FindAtOptionalThen(k: Key, v: Option<Value>, rest: seq<Entry>)
    ensures Find(Optional(k, v) + rest, k) == if v.Some? then v else Find(rest, k)
  {
    if v.Some? {
      FindCons(Entry(k, v.value), rest, k);
    } else {
      assert Optional(k, v) + rest == rest;
    }
  }

  /** Three optional entries with distinct keys each read back. */
  lemma FindInThree(ka: Key, kc: Key, kp: Key, va: Option<Value>, vc: Option<Value>, vp: Option<Value>)
    requires ka != kc && ka != kp && kc != kp
    ensures Find(Optional(ka, va) + (Optional(kc, vc) + Optional(kp, vp)), ka) == va
    ensures Find(Optional(ka, va) + (Optional(kc, vc) + Optional(kp, vp)), kc) == vc
    ensures Find(Optional(ka, va) + (Optional(kc, vc) + Optional(kp, vp)), kp) == vp
  {
    var p := Optional(kp, vp);
    var cp := Optional(kc, vc) + p;
    assert p + [] == p;
    FindAtOptional(kp, vp);
    FindPastOptional(ka, kp, vp, []);
    FindPastOptional(kc, kp, vp, []);
    FindAtOptionalThen(kc, vc, p);
    FindPastOptional(ka, kc, vc, p);
    FindPastOptional(kp, kc, vc, p);
    FindAtOptionalThen(ka, va, cp);
    FindPastOptional(kc, ka, va, cp);
    FindPastOptional(kp, ka, va, cp);
  }

  /** The builder reads back each part of an encoded definition. */
  lemma EncodeFields(d: Definition)
    ensures Field(Encode(d), "className") == Some(d.className)
    ensures Field(Encode(d), "arguments") == OptionalArgs(d.arguments)
    ensures Field(Encode(d), "calls") == OptionalCalls(d.calls)
    ensures Field(Encode(d), "properties") == OptionalProperties(d.properties)
  {
    var head := Entry(StrKey("className"), d.className);
    var a := Optional(StrKey("arguments"), OptionalArgs(d.arguments));
    var c := Optional(StrKey("calls"), OptionalCalls(d.calls));
    var p := Optional(StrKey("properties"), OptionalProperties(d.properties));
    var tail := a + (c + p);
    assert Encode(d).entries == [head] + tail;
    FindCons(head, tail, StrKey("className"));
    FindCons(head, tail, StrKey("arguments"));
    FindCons(head, tail, StrKey("calls"));
    FindCons(head, tail, StrKey("properties"));
    FindInThree(StrKey("arguments"), StrKey("calls"), StrKey("properties"),
                OptionalArgs(d.arguments), OptionalCalls(d.calls), OptionalProperties(d.properties));
  }

  /** Reference meaning of one argument spec: the container is asked for a
      service or an instance; a parameter stands for itself. */
  function Eval(di: Option<Container>, a: ArgSpec): Result<Value, DiError> {
    match a
    case Parameter(value) => Success(value)
    case ServiceRef(name) => if di.None? then Failure(InvalidContainer) else di.value.get(name, Null)
    case NewInstance(className, arguments) =>
      if di.None? then Failure(InvalidContainer) else di.value.get(className, arguments.GetOr(Null))
  }

  /** Reference meaning of an argument list: each spec in order, stopping
      at the first that throws. */
  function EvalAll(di: Option<Container>, args: seq<ArgSpec>): Result<seq<Value>, DiError>
    decreases |args|
  {
    if |args| == 0 then Success([])
    else
      match Eval(di, args[0])
      case Failure(e) => Failure(e)
      case Success(v) =>
        match EvalAll(di, args[1..])
        case Failure(e) => Failure(e)
        case Success(vs) => Success([v] + vs)
  }

  /** Reference meaning of a setter call. */
  function CallOf(di: Option<Container>, c: MethodCall): Result<Event, DiError> {
    match EvalAll(di, c.arguments.GetOr([]))
    case Failure(e) => Failure(e)
    case Success(vs) => Success(Call(c.methodName, vs))
  }

  function CallsOf(di: Option<Container>, cs: seq<MethodCall>): Result<seq<Event>, DiError>
    decreases |cs|
  {
    if |cs| == 0 then Success([])
    else
      match CallOf(di, cs[0])
      case Failure(e) => Failure(e)
      case Success(ev) => Prepend(ev, CallsOf(di, cs[1..]))
  }

  /** Reference meaning of a property assignment. */
  function AssignOf(di: Option<Container>, p: PropertyAssign): Result<Event, DiError> {
    match Eval(di, p.value)
    case Failure(e) => Failure(e)
    case Success(v) => Success(SetProp(p.name, v))
  }

  function AssignsOf(di: Option<Container>, ps: seq<PropertyAssign>): Result<seq<Event>, DiError>
    decreases |ps|
  {
    if |ps| == 0 then Success([])
    else
      match AssignOf(di, ps[0])
      case Failure(e) => Failure(e)
      case Success(ev) => Prepend(ev, AssignsOf(di, ps[1..]))
  }

  /** Reference meaning of a definition: construct, with array `parameters`
      as the constructor arguments when given and the definition's own
      otherwise; then, when there is anything to inject, require an object
      and append its calls' events followed by its assignments' events. */
  function Instantiate(di: Option<Container>, classes: Classes, d: Definition, parameters: Value): Result<Value, DiError> {
    var args :- if parameters.Arr? then Success(ValuesOf(parameters.entries))
                else EvalAll(di, d.arguments.GetOr([]));
    var instance :- classes.create(d.className, args);
    Configure(di, d, instance)
  }

  /** Reference meaning of the injection that follows construction: an
      object receives the calls' events, then the assignments' events. */
  function Configure(di: Option<Container>, d: Definition, instance: Value): Result<Value, DiError> {
    if d.calls.None? && d.properties.None? then Success(instance)
    else if !instance.Obj? then
      Failure(if d.calls.Some? then SetterInjectionOnNonObject else PropertyInjectionOnNonObject)
    else
      var calls :- CallsOf(di, d.calls.GetOr([]));
      var assigns :- AssignsOf(di, d.properties.GetOr([]));
      Success(Obj(instance.obj.(trace := instance.obj.trace + calls + assigns)))
  }

  /** Every encoded argument spec resolves to its reference meaning. */
  lemma BuildParameterOfEncodeArg(di: Option<Container>, position: Key, a: ArgSpec)
    ensures BuildParameter(di, position, EncodeArg(a)) == Eval(di, a)
  {
    var tag := Entry(StrKey("type"), EncodeArg(a).entries[0].val);
    var fields := EncodeArg(a).entries[1..];
    assert EncodeArg(a).entries == [tag] + fields;
    FindCons(tag, fields, StrKey("name"));
    FindCons(tag, fields, StrKey("value"));
    FindCons(tag, fields, StrKey("className"));
    FindCons(tag, fields, StrKey("arguments"));
    match a
    case ServiceRef(name) =>
      assert Field(EncodeArg(a), "type") == Some(ServiceType);
      assert Field(EncodeArg(a), "name") == Some(name);
    case Parameter(value) =>
      assert Field(EncodeArg(a), "type") == Some(ParameterType);
      assert Field(EncodeArg(a), "value") == Some(value);
    case NewInstance(className, arguments) =>
      assert Field(EncodeArg(a), "type") == Some(InstanceType);
      assert Field(EncodeArg(a), "className") == Some(className);
      assert Field(EncodeArg(a), "arguments") == arguments;
  }

  /** An encoded argument list builds to its reference meaning. */
  lemma {:induction false} BuildEachOfEncodeArgs(di: Option<Container>, args: seq<ArgSpec>, start: int)
    ensures BuildEach(di, EncodeArgsFrom(args, start)) == EvalAll(di, args)
    decreases |args|
  {
    if |args| > 0 {
      var es := EncodeArgsFrom(args, start);
      assert es[1..] == EncodeArgsFrom(args[1..], start + 1);
      BuildParameterOfEncodeArg(di, IntKey(start), args[0]);
      BuildEachOfEncodeArgs(di, args[1..], start + 1);
    }
  }

  lemma CallEventOfEncodeCall(di: Option<Container>, position: Key, c: MethodCall)
    ensures CallEvent(di, position, EncodeCall(c)) == CallOf(di, c)
  {
    var head := Entry(StrKey("method"), c.methodName);
    var rest := EncodeCall(c).entries[1..];
    assert EncodeCall(c).entries == [head] + rest;
    FindCons(head, rest, StrKey("method"));
    FindCons(head, rest, StrKey("arguments"));
    if c.arguments.Some? {
      FindCons(rest[0], [], StrKey("arguments"));
      assert rest == [rest[0]] + [];
      assert Field(EncodeCall(c), "arguments") == Some(EncodeArgs(c.arguments.value));
      BuildEachOfEncodeArgs(di, c.arguments.value, 0);
    } else {
      assert Field(EncodeCall(c), "arguments") == None;
    }
  }

  lemma {:induction false} EventsOfEncodeCalls(di: Option<Container>, cs: seq<MethodCall>, start: int)
    ensures Events(di, Calls, EncodeCallsFrom(cs, start)) == CallsOf(di, cs)
    decreases |cs|
  {
    if |cs| > 0 {
      var es := EncodeCallsFrom(cs, start);
      assert es[1..] == EncodeCallsFrom(cs[1..], start + 1);
      CallEventOfEncodeCall(di, IntKey(start), cs[0]);
      EventsOfEncodeCalls(di, cs[1..], start + 1);
      if CallOf(di, cs[0]).Success? {
        EventsStep(di, Calls, es);
      }
    }
  }

  lemma PropertyEventOfEncodeProperty(di: Option<Container>, position: Key, p: PropertyAssign)
    ensures PropertyEvent(di, position, EncodeProperty(p)) == AssignOf(di, p)
  {
    var head := Entry(StrKey("name"), p.name);
    var rest := [Entry(StrKey("value"), EncodeArg(p.value))];
    assert EncodeProperty(p).entries == [head] + rest;
    FindCons(head, rest, StrKey("name"));
    FindCons(head, rest, StrKey("value"));
    FindCons(rest[0], [], StrKey("value"));
    assert rest == [rest[0]] + [];
    BuildParameterOfEncodeArg(di, position, p.value);
  }

  lemma {:induction false} EventsOfEncodeProperties(di: Option<Container>, ps: seq<PropertyAssign>, start: int)
    ensures Events(di, Properties, EncodePropertiesFrom(ps, start)) == AssignsOf(di, ps)
    decreases |ps|
  {
    if |ps| > 0 {
      var es := EncodePropertiesFrom(ps, start);
      assert es[1..] == EncodePropertiesFrom(ps[1..], start + 1);
      PropertyEventOfEncodeProperty(di, IntKey(start), ps[0]);
      EventsOfEncodeProperties(di, ps[1..], start + 1);
      if AssignOf(di, ps[0]).Success? {
        EventsStep(di, Properties, es);
      }
    }
  }

  /** The constructed instance agrees with the reference meaning. */
  lemma ConstructOfEncode(di: Option<Container>, classes: Classes, d: Definition, parameters: Value)
    ensures Construct(di, classes, Encode(d), d.className, parameters) ==
            (match (if parameters.Arr? then Success(ValuesOf(parameters.entries)) else EvalAll(di, d.arguments.GetOr([])))
             case Failure(e) => Failure(e)
             case Success(args) => classes.create(d.className, args))
  {
    EncodeFields(d);
    if parameters.Arr? {
      if |parameters.entries| == 0 {
        assert ValuesOf(parameters.entries) == [];
      }
    } else if d.arguments.Some? {
      BuildEachOfEncodeArgs(di, d.arguments.value, 0);
    }
  }

  /** `instance` with `events` appended, as a value. */
  function WithEvents(instance: Object, events: Result<seq<Event>, DiError>): Result<Value, DiError> {
    match events
    case Success(evs) => Success(Obj(instance.(trace := instance.trace + evs)))
    case Failure(e) => Failure(e)
  }

  lemma InjectCallsOfEncode(di: Option<Container>, instance: Value, d: Definition)
    ensures InjectCalls(di, instance, Encode(d)) ==
            if d.calls.None? then Success(instance)
            else if !instance.Obj? then Failure(SetterInjectionOnNonObject)
            else WithEvents(instance.obj, CallsOf(di, d.calls.value))
  {
    EncodeFields(d);
    if d.calls.Some? && instance.Obj? {
      EventsOfEncodeCalls(di, d.calls.value, 0);
      ApplyCallsAppendsEvents(di, instance.obj, EncodeCallsFrom(d.calls.value, 0));
    }
  }

  lemma InjectPropertiesOfEncode(di: Option<Container>, instance: Value, d: Definition)
    ensures InjectProperties(di, instance, Encode(d)) ==
            if d.properties.None? then Success(instance)
            else if !instance.Obj? then Failure(PropertyInjectionOnNonObject)
            else WithEvents(instance.obj, AssignsOf(di, d.properties.value))
  {
    EncodeFields(d);
    if d.properties.Some? && instance.Obj? {
      EventsOfEncodeProperties(di, d.properties.value, 0);
      ApplyPropertiesAppendsEvents(di, instance.obj, EncodePropertiesFrom(d.properties.value, 0));
    }
  }

  /** The builder, run on an encoded definition, computes the reference
      meaning: same instance, same call and assignment events in the same
      order, same error. */
  lemma BuildOfEncode(di: Option<Container>, classes: Classes, d: Definition, parameters: Value)
    ensures Build(di, classes, Encode(d), parameters) == Instantiate(di, classes, d, parameters)
  {
    EncodeFields(d);
    ConstructOfEncode(di, classes, d, parameters);
    var built := Construct(di, classes, Encode(d), d.className, parameters);
    if built.Success? {
      InjectOfEncode(di, built.value, d);
    }
  }

  /** Setter and property injection on an encoded definition is the
      reference configuration. */
  lemma InjectOfEncode(di: Option<Container>, instance: Value, d: Definition)
    ensures (var configured := InjectCalls(di, instance, Encode(d));
             if configured.Success? then InjectProperties(di, configured.value, Encode(d))
             else Failure(configured.error)) == Configure(di, d, instance)
  {
    InjectCallsOfEncode(di, instance, d);
    var afterCalls := InjectCalls(di, instance, Encode(d));
    if afterCalls.Success? {
      InjectPropertiesOfEncode(di, afterCalls.value, d);
      if instance.Obj? {
        var o := instance.obj;
        var calls := CallsOf(di, d.calls.GetOr([]));
        if d.calls.None? {
          assert o.trace + [] == o.trace;
        }
        if d.properties.Some? && calls.Success? {
          var assigns := AssignsOf(di, d.properties.value);
          if assigns.Success? {
            assert o.trace + calls.value + assigns.value == (o.trace + calls.value) + assigns.value;
          }
        } else if calls.Success? {
          assert o.trace + calls.value + [] == o.trace + calls.value;
        }
      }
    }
  }

  /** A falsy `parameter` value (`0`, `""`, `false`, `null`) is passed on as
      is: presence, not truthiness, decides. */
  lemma FalsyParameterKept(di: Option<Container>, position: Key, v: Value)
    requires !Truthy(v)
    ensures BuildParameter(di, position, EncodeArg(Parameter(v))) == Success(v)
  {
    BuildParameterOfEncodeArg(di, position, Parameter(v));
  }
}
