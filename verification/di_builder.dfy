/** The builder that turns an array service definition into an instance:
    constructor arguments first, then the setter calls in order, then the
    property assignments in order. Every argument is a tagged array
    (`service`, `parameter` or `instance`), resolved against the container. */
module DiBuilder {
  import opened Wrappers
  import opened Php
  import opened DiRuntime

  const ServiceType: Value := Str("service")
  const ParameterType: Value := Str("parameter")
  const InstanceType: Value := Str("instance")

  /** The argument tags the builder knows. */
  predicate KnownType(t: Value) {
    t == ServiceType || t == ParameterType || t == InstanceType
  }

  /** Resolves one argument spec found at `position`. */
  function BuildParameter(di: Option<Container>, position: Key, argument: Value): (r: Result<Value, DiError>)
    // an argument without a type, or with one the builder does not know, is rejected with its position
    ensures Field(argument, "type").None? ==> r == Failure(ArgumentWithoutType(position))
    ensures Field(argument, "type").Some? && !KnownType(Field(argument, "type").value) ==>
              r == Failure(UnknownServiceType(position))
    // a `parameter` spec yields its value verbatim, falsy or null values included
    ensures Field(argument, "type") == Some(ParameterType) ==>
              r == (match Field(argument, "value")
                    case Some(v) => Success(v)
                    case None => Failure(ParameterValueRequired(position)))
    // a `service` spec needs a name and a container, and asks the container for the name
    ensures Field(argument, "type") == Some(ServiceType) ==>
              r == (match Field(argument, "name")
                    case None => Failure(ServiceNameRequired(position))
                    case Some(name) => if di.None? then Failure(InvalidContainer) else di.value.get(name, Null))
    // an `instance` spec needs a class name and a container; its `arguments`, when present, are passed on
    ensures Field(argument, "type") == Some(InstanceType) ==>
              r == (match Field(argument, "className")
                    case None => Failure(ClassNameRequired(position))
                    case Some(c) =>
                      if di.None? then Failure(InvalidContainer)
                      else if Field(argument, "arguments").Some? then di.value.get(c, Field(argument, "arguments").value)
                      else di.value.get(c, Null))
  {
    match Field(argument, "type")
    case None => Failure(ArgumentWithoutType(position))
    case Some(kind) =>
      if kind == ServiceType then
        match Field(argument, "name")
        case None => Failure(ServiceNameRequired(position))
        case Some(name) =>
          if di.None? then Failure(InvalidContainer) else di.value.get(name, Null)
      else if kind == ParameterType then
        match Field(argument, "value")
        case None => Failure(ParameterValueRequired(position))
        case Some(value) => Success(value)
      else if kind == InstanceType then
        match Field(argument, "className")
        case None => Failure(ClassNameRequired(position))
        case Some(className) =>
          if di.None? then Failure(InvalidContainer)
          else
            match Field(argument, "arguments")
            case Some(instanceArguments) => di.value.get(className, instanceArguments)
            case None => di.value.get(className, Null)
      else
        Failure(UnknownServiceType(position))
  }

  /** Resolves the entries of an argument array one by one, stopping at the
      first one that throws. */
  function BuildEach(di: Option<Container>, es: seq<Entry>): (r: Result<seq<Value>, DiError>)
    // one value per entry, in order, each the entry's own resolution
    ensures r.Success? ==>
              && |r.value| == |es|
              && forall i :: 0 <= i < |es| ==> BuildParameter(di, es[i].key, es[i].val) == Success(r.value[i])
    // it fails exactly when some entry does, with the first failing entry's error
    ensures r.Success? <==> forall i :: 0 <= i < |es| ==> BuildParameter(di, es[i].key, es[i].val).Success?
    ensures r.Failure? ==>
              exists i :: (&& 0 <= i < |es|
                           && BuildParameter(di, es[i].key, es[i].val) == Failure(r.error)
                           && forall j :: 0 <= j < i ==> BuildParameter(di, es[j].key, es[j].val).Success?)
  {
    if |es| == 0 then Success([])
    else
      var first :- BuildParameter(di, es[0].key, es[0].val);
      var rest :- BuildEach(di, es[1..]);
      Success([first] + rest)
  }

  /** `_buildParameters`: iterating a value that is not an array runs no
      iteration and yields no arguments. */
  function BuildParameters(di: Option<Container>, arguments: Value): Result<seq<Value>, DiError> {
    if arguments.Arr? then BuildEach(di, arguments.entries) else Success([])
  }

  /** The instance before injection: array `parameters` replace the
      definition's `arguments` outright (an empty array means no arguments);
      otherwise the definition's `arguments` are resolved, or none are used. */
  function Construct(di: Option<Container>, classes: Classes, definition: Value, className: Value, parameters: Value)
    : Result<Value, DiError>
  {
    if parameters.Arr? then
      if |parameters.entries| > 0 then classes.create(className, ValuesOf(parameters.entries))
      else classes.create(className, [])
    else
      match Field(definition, "arguments")
      case Some(arguments) =>
        var built :- BuildParameters(di, arguments);
        classes.create(className, built)
      case None => classes.create(className, [])
  }

  /** The call one entry of `calls` makes: its built arguments when it has a
      non-empty `arguments` array, none otherwise. */
  function CallEvent(di: Option<Container>, position: Key, entry: Value): (r: Result<Event, DiError>)
    // malformed entries are rejected with their position
    ensures !entry.Arr? ==> r == Failure(CallNotArray(position))
    ensures entry.Arr? && Field(entry, "method").None? ==> r == Failure(MethodNameRequired(position))
    ensures (&& entry.Arr? && Field(entry, "method").Some? && Field(entry, "arguments").Some?
             && !Field(entry, "arguments").value.Arr?) ==> r == Failure(CallArgumentsNotArray(position))
    // a well-formed entry calls its method with its built arguments, or with none
    ensures r.Success? ==> r.value.Call? && Field(entry, "method") == Some(r.value.methodName)
    ensures r.Success? && r.value.args != [] ==>
              Field(entry, "arguments").Some? && BuildParameters(di, Field(entry, "arguments").value) == Success(r.value.args)
    // a well-formed entry without arguments, or with an empty array of them, always calls its method with none
    ensures (&& entry.Arr? && Field(entry, "method").Some?
             && (Field(entry, "arguments").None? || Field(entry, "arguments").value == Arr([]))) ==>
              r == Success(Call(Field(entry, "method").value, []))
    // with a non-empty arguments array, the call succeeds exactly when every argument builds, and carries them
    ensures (&& entry.Arr? && Field(entry, "method").Some? && Field(entry, "arguments").Some?
             && Field(entry, "arguments").value.Arr? && |Field(entry, "arguments").value.entries| > 0) ==>
              var built := BuildEach(di, Field(entry, "arguments").value.entries);
              && (r.Success? <==> built.Success?)
              && (r.Success? ==> r.value == Call(Field(entry, "method").value, built.value))
              && (r.Failure? ==> r.error == built.error)
  {
    if !entry.Arr? then Failure(CallNotArray(position))
    else
      match Field(entry, "method")
      case None => Failure(MethodNameRequired(position))
      case Some(methodName) =>
        match Field(entry, "arguments")
        case None => Success(Call(methodName, []))
        case Some(arguments) =>
          if !arguments.Arr? then Failure(CallArgumentsNotArray(position))
          else if |arguments.entries| > 0 then
            var built :- BuildParameters(di, arguments);
            Success(Call(methodName, built))
          else Success(Call(methodName, []))
  }

  /** The assignment one entry of `properties` makes. */
  function PropertyEvent(di: Option<Container>, position: Key, property: Value): (r: Result<Event, DiError>)
    // malformed entries are rejected with their position
    ensures !property.Arr? ==> r == Failure(PropertyNotArray(position))
    ensures property.Arr? && Field(property, "name").None? ==> r == Failure(PropertyNameRequired(position))
    ensures property.Arr? && Field(property, "name").Some? && Field(property, "value").None? ==>
              r == Failure(PropertyValueRequired(position))
    // a well-formed entry assigns its named property the resolution of its `value` spec
    ensures r.Success? ==>
              && r.value.SetProp?
              && Field(property, "name") == Some(r.value.name)
              && Field(property, "value").Some?
              && BuildParameter(di, position, Field(property, "value").value) == Success(r.value.value)
    // a well-formed entry fails exactly when its `value` spec does, with that error
    ensures property.Arr? && Field(property, "name").Some? && Field(property, "value").Some? ==>
              var built := BuildParameter(di, position, Field(property, "value").value);
              && (r.Success? <==> built.Success?)
              && (r.Success? ==> r.value == SetProp(Field(property, "name").value, built.value))
              && (r.Failure? ==> r.error == built.error)
  {
    if !property.Arr? then Failure(PropertyNotArray(position))
    else
      match Field(property, "name")
      case None => Failure(PropertyNameRequired(position))
      case Some(name) =>
        match Field(property, "value")
        case None => Failure(PropertyValueRequired(position))
        case Some(spec) =>
          var value :- BuildParameter(di, position, spec);
          Success(SetProp(name, value))
  }

  /** Runs the `calls` entries in order on `instance`. */
  function ApplyCalls(di: Option<Container>, instance: Object, calls: seq<Entry>): Result<Object, DiError>
    decreases |calls|
  {
    if |calls| == 0 then Success(instance)
    else
      var event :- CallEvent(di, calls[0].key, calls[0].val);
      ApplyCalls(di, instance.(trace := instance.trace + [event]), calls[1..])
  }

  /** Runs the `properties` entries in order on `instance`. */
  function ApplyProperties(di: Option<Container>, instance: Object, properties: seq<Entry>): Result<Object, DiError>
    decreases |properties|
  {
    if |properties| == 0 then Success(instance)
    else
      var event :- PropertyEvent(di, properties[0].key, properties[0].val);
      ApplyProperties(di, instance.(trace := instance.trace + [event]), properties[1..])
  }

  /** Setter injection, when the definition has `calls`. */
  function InjectCalls(di: Option<Container>, instance: Value, definition: Value): (r: Result<Value, DiError>)
    ensures Field(definition, "calls").None? ==> r == Success(instance)
    ensures Field(definition, "calls").Some? && !instance.Obj? ==> r == Failure(SetterInjectionOnNonObject)
    ensures Field(definition, "calls").Some? && instance.Obj? && !Field(definition, "calls").value.Arr? ==>
              r == Failure(CallsNotArray)
  {
    match Field(definition, "calls")
    case None => Success(instance)
    case Some(paramCalls) =>
      if !instance.Obj? then Failure(SetterInjectionOnNonObject)
      else if !paramCalls.Arr? then Failure(CallsNotArray)
      else
        var configured :- ApplyCalls(di, instance.obj, paramCalls.entries);
        Success(Obj(configured))
  }

  /** Property injection, when the definition has `properties`. */
  function InjectProperties(di: Option<Container>, instance: Value, definition: Value): (r: Result<Value, DiError>)
    ensures Field(definition, "properties").None? ==> r == Success(instance)
    ensures Field(definition, "properties").Some? && !instance.Obj? ==> r == Failure(PropertyInjectionOnNonObject)
    ensures Field(definition, "properties").Some? && instance.Obj? && !Field(definition, "properties").value.Arr? ==>
              r == Failure(PropertiesNotArray)
  {
    match Field(definition, "properties")
    case None => Success(instance)
    case Some(paramProperties) =>
      if !instance.Obj? then Failure(PropertyInjectionOnNonObject)
      else if !paramProperties.Arr? then Failure(PropertiesNotArray)
      else
        var configured :- ApplyProperties(di, instance.obj, paramProperties.entries);
        Success(Obj(configured))
  }

  /** `build`: a definition without `className` is rejected; otherwise the
      instance is constructed, then its calls run, then its properties are set. */
  function Build(di: Option<Container>, classes: Classes, definition: Value, parameters: Value): (r: Result<Value, DiError>)
    ensures Field(definition, "className").None? ==> r == Failure(MissingClassName)
    // the constructor's error, and then the setter injection's, stop the build
    ensures (&& Field(definition, "className").Some?
             && Construct(di, classes, definition, Field(definition, "className").value, parameters).Failure?) ==>
              r == Construct(di, classes, definition, Field(definition, "className").value, parameters)
  {
    match Field(definition, "className")
    case None => Failure(MissingClassName)
    case Some(className) =>
      var instance :- Construct(di, classes, definition, className, parameters);
      var configured :- InjectCalls(di, instance, definition);
      InjectProperties(di, configured, definition)
  }

  /** The two injection sections of a definition. */
  datatype Section = Calls | Properties

  /** The event one entry of a section records. */
  function EntryEvent(di: Option<Container>, section: Section, position: Key, entry: Value): Result<Event, DiError> {
    match section
    case Calls => CallEvent(di, position, entry)
    case Properties => PropertyEvent(di, position, entry)
  }

  /** The events a whole section records, one per entry in declared order,
      or the error of its first failing entry. */
  function Events(di: Option<Container>, section: Section, es: seq<Entry>): (r: Result<seq<Event>, DiError>)
    ensures r.Success? ==>
              && |r.value| == |es|
              && forall i :: 0 <= i < |es| ==> EntryEvent(di, section, es[i].key, es[i].val) == Success(r.value[i])
    ensures r.Success? <==> forall i :: 0 <= i < |es| ==> EntryEvent(di, section, es[i].key, es[i].val).Success?
    ensures r.Failure? ==>
              exists i :: (&& 0 <= i < |es|
                           && EntryEvent(di, section, es[i].key, es[i].val) == Failure(r.error)
                           && forall j :: 0 <= j < i ==> EntryEvent(di, section, es[j].key, es[j].val).Success?)
  {
    if |es| == 0 then Success([])
    else
      var first :- EntryEvent(di, section, es[0].key, es[0].val);
      var rest :- Events(di, section, es[1..]);
      Success([first] + rest)
  }

  /** `o` with `events` appended to its trace, or the error that stopped them. */
  function Appended(o: Object, events: Result<seq<Event>, DiError>): Result<Object, DiError> {
    match events
    case Success(evs) => Success(o.(trace := o.trace + evs))
    case Failure(e) => Failure(e)
  }

  /** `ev` recorded before the events of `rest`. */
  function Prepend(ev: Event, rest: Result<seq<Event>, DiError>): Result<seq<Event>, DiError> {
    match rest
    case Success(evs) => Success([ev] + evs)
    case Failure(e) => Failure(e)
  }

  lemma EventsStep(di: Option<Container>, section: Section, es: seq<Entry>)
    requires |es| > 0 && EntryEvent(di, section, es[0].key, es[0].val).Success?
    ensures Events(di, section, es) == Prepend(EntryEvent(di, section, es[0].key, es[0].val).value, Events(di, section, es[1..]))
  {
  }

  lemma AppendedStep(o: Object, ev: Event, rest: Result<seq<Event>, DiError>)
    ensures Appended(o.(trace := o.trace + [ev]), rest) == Appended(o, Prepend(ev, rest))
  {
    if rest.Success? {
      assert o.trace + [ev] + rest.value == o.trace + ([ev] + rest.value);
    }
  }

  /** Running the calls appends exactly the calls' events to the trace. */
  lemma {:induction false} ApplyCallsAppendsEvents(di: Option<Container>, o: Object, es: seq<Entry>)
    ensures ApplyCalls(di, o, es) == Appended(o, Events(di, Calls, es))
    decreases |es|
  {
    if |es| == 0 {
      assert o.trace + [] == o.trace;
    } else {
      var first := CallEvent(di, es[0].key, es[0].val);
      if first.Success? {
        var o' := o.(trace := o.trace + [first.value]);
        assert ApplyCalls(di, o, es) == ApplyCalls(di, o', es[1..]);
        ApplyCallsAppendsEvents(di, o', es[1..]);
        EventsStep(di, Calls, es);
        AppendedStep(o, first.value, Events(di, Calls, es[1..]));
      }
    }
  }

  /** Setting the properties appends exactly the properties' events. */
  lemma {:induction false} ApplyPropertiesAppendsEvents(di: Option<Container>, o: Object, es: seq<Entry>)
    ensures ApplyProperties(di, o, es) == Appended(o, Events(di, Properties, es))
    decreases |es|
  {
    if |es| == 0 {
      assert o.trace + [] == o.trace;
    } else {
      var first := PropertyEvent(di, es[0].key, es[0].val);
      if first.Success? {
        var o' := o.(trace := o.trace + [first.value]);
        assert ApplyProperties(di, o, es) == ApplyProperties(di, o', es[1..]);
        ApplyPropertiesAppendsEvents(di, o', es[1..]);
        EventsStep(di, Properties, es);
        AppendedStep(o, first.value, Events(di, Properties, es[1..]));
      }
    }
  }

  /** The entries of an optional section, or none. */
  function SectionEntries(section: Option<Value>): seq<Entry> {
    if section.Some? && section.value.Arr? then section.value.entries else []
  }

  /** A successful setter injection on an object appends the calls' events. */
  lemma InjectCallsAppendsEvents(di: Option<Container>, instance: Value, definition: Value)
    requires InjectCalls(di, instance, definition).Success?
    ensures Field(definition, "calls").Some? ==> instance.Obj? && Field(definition, "calls").value.Arr?
    ensures Events(di, Calls, SectionEntries(Field(definition, "calls"))).Success?
    ensures instance.Obj? ==>
              InjectCalls(di, instance, definition) ==
              Success(Obj(instance.obj.(trace := instance.obj.trace +
                                                 Events(di, Calls, SectionEntries(Field(definition, "calls"))).value)))
  {
    if Field(definition, "calls").Some? {
      ApplyCallsAppendsEvents(di, instance.obj, Field(definition, "calls").value.entries);
    } else if instance.Obj? {
      assert instance.obj.trace + [] == instance.obj.trace;
    }
  }

  /** A successful property injection on an object appends the properties' events. */
  lemma InjectPropertiesAppendsEvents(di: Option<Container>, instance: Value, definition: Value)
    requires InjectProperties(di, instance, definition).Success?
    ensures Field(definition, "properties").Some? ==> instance.Obj? && Field(definition, "properties").value.Arr?
    ensures Events(di, Properties, SectionEntries(Field(definition, "properties"))).Success?
    ensures instance.Obj? ==>
              InjectProperties(di, instance, definition) ==
              Success(Obj(instance.obj.(trace := instance.obj.trace +
                                                 Events(di, Properties, SectionEntries(Field(definition, "properties"))).value)))
  {
    if Field(definition, "properties").Some? {
      ApplyPropertiesAppendsEvents(di, instance.obj, Field(definition, "properties").value.entries);
    } else if instance.Obj? {
      assert instance.obj.trace + [] == instance.obj.trace;
    }
  }

  /** A successful build of a definition with `calls` or `properties`
      constructs an object and appends to its trace every call, in declared
      order, and then every property assignment, in declared order. */
  lemma BuildRunsCallsThenProperties(di: Option<Container>, classes: Classes, definition: Value, parameters: Value)
    requires Build(di, classes, definition, parameters).Success?
    requires Field(definition, "calls").Some? || Field(definition, "properties").Some?
    ensures Field(definition, "className").Some?
    ensures var base := Construct(di, classes, definition, Field(definition, "className").value, parameters);
            var calls := Events(di, Calls, SectionEntries(Field(definition, "calls")));
            var properties := Events(di, Properties, SectionEntries(Field(definition, "properties")));
            && base.Success? && base.value.Obj?
            && calls.Success? && properties.Success?
            && Build(di, classes, definition, parameters) ==
               Success(Obj(base.value.obj.(trace := base.value.obj.trace + calls.value + properties.value)))
  {
    var base := Construct(di, classes, definition, Field(definition, "className").value, parameters).value;
    var afterCalls := InjectCalls(di, base, definition).value;
    InjectCallsAppendsEvents(di, base, definition);
    InjectPropertiesAppendsEvents(di, afterCalls, definition);
  }

  /** A definition with neither `calls` nor `properties` builds to the
      constructed instance itself. */
  lemma BuildWithoutInjection(di: Option<Container>, classes: Classes, definition: Value, parameters: Value)
    requires Field(definition, "className").Some?
    requires Field(definition, "calls").None? && Field(definition, "properties").None?
    ensures Build(di, classes, definition, parameters) ==
            Construct(di, classes, definition, Field(definition, "className").value, parameters)
  {
  }

  /** A build whose calls hold a malformed or failing entry throws the
      error of the first such entry, and no property is assigned. */
  lemma BuildStopsAtFirstFailingCall(di: Option<Container>, classes: Classes, definition: Value, parameters: Value)
    requires Field(definition, "className").Some?
    requires Construct(di, classes, definition, Field(definition, "className").value, parameters).Success?
    requires Construct(di, classes, definition, Field(definition, "className").value, parameters).value.Obj?
    requires Field(definition, "calls").Some? && Field(definition, "calls").value.Arr?
    requires Events(di, Calls, Field(definition, "calls").value.entries).Failure?
    ensures Build(di, classes, definition, parameters) ==
            Failure(Events(di, Calls, Field(definition, "calls").value.entries).error)
  {
    var base := Construct(di, classes, definition, Field(definition, "className").value, parameters).value;
    ApplyCallsAppendsEvents(di, base.obj, Field(definition, "calls").value.entries);
  }

  /** Array `parameters` replace the definition's constructor `arguments`
      outright: two definitions that differ only in `arguments` build alike. */
  lemma OverrideIgnoresDefinitionArguments(di: Option<Container>, classes: Classes, d1: Value, d2: Value, parameters: Value)
    requires parameters.Arr?
    requires Field(d1, "className") == Field(d2, "className")
    requires Field(d1, "calls") == Field(d2, "calls")
    requires Field(d1, "properties") == Field(d2, "properties")
    ensures Build(di, classes, d1, parameters) == Build(di, classes, d2, parameters)
  {
    match Field(d1, "className")
    case None =>
    case Some(className) =>
      var constructed := Construct(di, classes, d1, className, parameters);
      assert constructed == Construct(di, classes, d2, className, parameters);
      if constructed.Success? {
        InjectCallsReadsCalls(di, constructed.value, d1, d2);
        var configured := InjectCalls(di, constructed.value, d1);
        if configured.Success? {
          InjectPropertiesReadsProperties(di, configured.value, d1, d2);
        }
      }
  }

  /** Without override, the constructor receives the definition's
      `arguments`, each resolved at its own position. */
  lemma ConstructorReceivesBuiltArguments(di: Option<Container>, classes: Classes, definition: Value, className: Value, parameters: Value)
    requires !parameters.Arr?
    requires Field(definition, "arguments").Some? && Field(definition, "arguments").value.Arr?
    requires BuildEach(di, Field(definition, "arguments").value.entries).Success?
    ensures var es := Field(definition, "arguments").value.entries;
            var args := BuildEach(di, es).value;
            && Construct(di, classes, definition, className, parameters) == classes.create(className, args)
            && |args| == |es|
            && forall i :: 0 <= i < |es| ==> BuildParameter(di, es[i].key, es[i].val) == Success(args[i])
  {
  }

  /** `build` reads a definition only through its `className`, `arguments`,
      `calls` and `properties` entries. */
  lemma BuildReadsOnlyItsFields(di: Option<Container>, classes: Classes, d1: Value, d2: Value, parameters: Value)
    requires Field(d1, "className") == Field(d2, "className")
    requires Field(d1, "arguments") == Field(d2, "arguments")
    requires Field(d1, "calls") == Field(d2, "calls")
    requires Field(d1, "properties") == Field(d2, "properties")
    ensures Build(di, classes, d1, parameters) == Build(di, classes, d2, parameters)
  {
    match Field(d1, "className")
    case None =>
    case Some(className) =>
      ConstructReadsArguments(di, classes, d1, d2, className, parameters);
      var constructed := Construct(di, classes, d1, className, parameters);
      if constructed.Success? {
        InjectCallsReadsCalls(di, constructed.value, d1, d2);
        var configured := InjectCalls(di, constructed.value, d1);
        if configured.Success? {
          InjectPropertiesReadsProperties(di, configured.value, d1, d2);
        }
      }
  }

  lemma ConstructReadsArguments(di: Option<Container>, classes: Classes, d1: Value, d2: Value, className: Value, parameters: Value)
    requires Field(d1, "arguments") == Field(d2, "arguments")
    ensures Construct(di, classes, d1, className, parameters) == Construct(di, classes, d2, className, parameters)
  {
  }

  lemma InjectCallsReadsCalls(di: Option<Container>, instance: Value, d1: Value, d2: Value)
    requires Field(d1, "calls") == Field(d2, "calls")
    ensures InjectCalls(di, instance, d1) == InjectCalls(di, instance, d2)
  {
  }

  lemma InjectPropertiesReadsProperties(di: Option<Container>, instance: Value, d1: Value, d2: Value)
    requires Field(d1, "properties") == Field(d2, "properties")
    ensures InjectProperties(di, instance, d1) == InjectProperties(di, instance, d2)
  {
  }
}
