/** What the service builder and the service descriptor call but do not
    implement: the dependency-injection container, class instantiation and
    closure invocation. Each is an oracle function the caller supplies, so
    the model says what the core asks of them and does with their answers,
    and nothing about how they work. All of them may throw. */
module DiRuntime {
  import opened Wrappers
  import opened Php

  /** The exceptions the core throws, one constructor per distinct message,
      plus `Raised` for whatever an oracle throws. */
  datatype DiError =
    | ArgumentWithoutType(position: Key)
    | ServiceNameRequired(position: Key)
    | ParameterValueRequired(position: Key)
    | ClassNameRequired(position: Key)
    | UnknownServiceType(position: Key)
    | InvalidContainer
    | MissingClassName
    | SetterInjectionOnNonObject
    | CallsNotArray
    | CallNotArray(position: Key)
    | MethodNameRequired(position: Key)
    | CallArgumentsNotArray(position: Key)
    | PropertyInjectionOnNonObject
    | PropertiesNotArray
    | PropertyNotArray(position: Key)
    | PropertyNameRequired(position: Key)
    | PropertyValueRequired(position: Key)
    | CannotResolve(name: Value)
    | DefinitionNotArrayToUpdate
    | DefinitionNotArrayToRead
    | AttributeRequired(attribute: string)
    | Raised(text: string)

  /** The text of the exception each error stands for. */
  function Message(e: DiError): string {
    match e
    case ArgumentWithoutType(p) => "Argument at position " + KeyToString(p) + " must have a type"
    case ServiceNameRequired(p) => "Service 'name' is required in parameter on position " + KeyToString(p)
    case ParameterValueRequired(p) => "Service 'value' is required in parameter on position " + KeyToString(p)
    case ClassNameRequired(p) => "Service 'className' is required in parameter on position " + KeyToString(p)
    case UnknownServiceType(p) => "Unknown service type in parameter on position " + KeyToString(p)
    case InvalidContainer => "The dependency injector container is not valid"
    case MissingClassName => "Invalid service definition. Missing 'className' parameter"
    case SetterInjectionOnNonObject =>
      "The definition has setter injection parameters but the constructor didn't return an instance"
    case CallsNotArray => "Setter injection parameters must be an array"
    case CallNotArray(p) => "Method call must be an array on position " + KeyToString(p)
    case MethodNameRequired(p) => "The method name is required on position " + KeyToString(p)
    case CallArgumentsNotArray(p) => "Call arguments must be an array " + KeyToString(p)
    case PropertyInjectionOnNonObject =>
      "The definition has properties injection parameters but the constructor didn't return an instance"
    case PropertiesNotArray => "Setter injection parameters must be an array"
    case PropertyNotArray(p) => "Property must be an array on position " + KeyToString(p)
    case PropertyNameRequired(p) => "The property name is required on position " + KeyToString(p)
    case PropertyValueRequired(p) => "The property value is required on position " + KeyToString(p)
    case CannotResolve(name) => "Service '" + StrOf(name) + "' cannot be resolved"
    case DefinitionNotArrayToUpdate => "Definition must be an array to update its parameters"
    case DefinitionNotArrayToRead => "Definition must be an array to obtain its parameters"
    case AttributeRequired(a) => "The attribute '" + a + "' is required"
    case Raised(text) => text
  }

  /** The container as the core sees it: `get(name, parameters)`. A call
      without parameters is `get(name, null)`, the container's default. */
  datatype Container = Container(get: (Value, Value) -> Result<Value, DiError>)

  /** Class instantiation and closure invocation.
      - `classExists(c)`: PHP's `class_exists`;
      - `create(c, args)`: instantiate class `c` with positional constructor
        arguments (no arguments is `create(c, [])`);
      - `invoke(f, bound, args)`: call closure `f` with positional arguments,
        its `$this` bound to the container when `bound` holds one. */
  datatype Classes = Classes(
    classExists: string -> bool,
    create: (Value, seq<Value>) -> Result<Value, DiError>,
    invoke: (Object, Option<Container>, seq<Value>) -> Result<Value, DiError>)
}
