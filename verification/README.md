# A Dafny model of the Phalcon service container and its small pure cores

This project models, in Dafny, the part of the Phalcon framework (a PHP
framework written in Zephir; the source paths below point to a PHP
rendering of its Zephir classes)
that turns a service definition into an instance. Around it sit several
smaller cores that are pure enough to state exactly.

- **Service resolution** (`DiService`): a named service holds a definition, a
  shared flag, a cached shared instance and a resolved flag. `resolve`
  dispatches on the definition's shape:
  - a class name is instantiated;
  - a closure is invoked;
  - any other object is returned as it is;
  - an array is handed to the builder;
  - anything else cannot be resolved.

  A shared service caches what it produced. `setParameter` and
  `getParameter` edit and read the positional constructor arguments of an
  array definition.
- **The builder** (`DiBuilder`): an array definition names a class, its
  constructor `arguments`, its setter `calls` and its `properties`. Each
  argument is a tagged spec: `service`, `parameter` or `instance`. The
  builder resolves the arguments, constructs the instance, runs the calls
  in order and then assigns the properties in order. Every malformed shape
  has its own error.
  - `DiDefinition` gives the array form a typed reading (`Definition`,
    `ArgSpec`) with an independent reference semantics (`Instantiate`).
  - It proves that building the array form of a typed definition is that
    semantics.
- **HTTP request** (`HttpRequest`): the request method with its override
  rules, method checks, header lookup, scheme and port, and the counting
  and flattening of `$_FILES`.
- **Metadata introspection** (`MetadataIntrospection`): the classification
  of a table's columns into the model metadata arrays, and the inversion of
  a model's column map.
- **String-length validator** (`StringLengthValidator`): option checks,
  the `allowEmpty` escape, the maximum checked before the minimum, and the
  message templates.
- **Micro collection** (`MicroCollection`): route registration on a micro
  application's handler group.
- **Logger formatter** (`LoggerFormatter`): level names and `{key}`
  interpolation.
- **Annotations memory adapter** (`AnnotationsMemory`), **database index
  state** (`DbIndex`) and **the no-op cache frontend** (`CacheFrontendNone`).

## How the PHP world is modelled

- **Values.** PHP values are `Php.Value`: null, booleans, integers,
  strings, ordered arrays of key/value entries, and objects.
  - An object carries a class name, a handle and a trace of the events
    applied to it: method calls and property assignments. The trace is how
    call-before-property ordering is stated.
  - A closure is an object of class `Closure`.
- **Array reads.**
  - Zephir's `fetch x, a[k]` is key presence (`Php.Fetch`): a present null
    or falsy value is found, and a non-array holds nothing.
  - `isset` is presence of a non-null value.
  - Reading a missing key gives null.
  - Assignment overwrites in place or appends (`Php.Put`).
- **Oracles.** The container's `get`, `class_exists`, object construction
  and closure invocation are parameters of the model (`DiRuntime.Container`,
  `DiRuntime.Classes`). Each may fail, which stands for an exception.
- **Request input.** The request's `$_SERVER`, `$_REQUEST` and `$_FILES`
  are inputs of `HttpRequest.Environment`.
- **Database input.** The database's answers — whether the table exists,
  and its column description — are inputs of `MetadataIntrospection.GetMetaData`.
- **Exceptions.** An exception is a `Failure` carrying an error constructor.
  The source's message text is given by each module's `Message` function.
- **Mutable objects.** A mutable object is a datatype. A setter returns the
  updated value.

## Behaviour worth knowing

- `setDefinition` does not clear a cached shared instance, so a shared
  service keeps returning the old instance after its definition changes
  (`DiService.CacheSurvivesSetDefinition`).
- Override `parameters` given to `build` replace the constructor
  arguments, but the definition's calls and properties still run
  (`DiBuilder.OverrideIgnoresDefinitionArguments`).
- An empty override array on a class-name definition means construction
  with no arguments. `resolve` then behaves as without overrides
  (`DiService.EmptyOverrideOnClassName`).
- A resolved null instance is not cached: `resolve` checks
  `sharedInstance !== null` (`DiService.NullInstanceNotCached`).
- `getParameter` returns null both for an absent position and for a
  present null value.
- `_resolved` starts as null, not false, and only ever becomes true.
- An empty `calls` (or `properties`) array still requires the constructor
  to have returned an object.

## Model

| member | source | states |
|---|---|---|
| DiBuilder.BuildParameter | library/di/service/builder.php:26-89 | an argument spec without a type, or with an unknown type, fails with its position; `parameter` yields `value` verbatim (null and falsy included) or fails when it is absent; `service` needs `name` and a container and asks it for the name; `instance` needs `className` and a container and passes `arguments` on when present |
| DiBuilder.BuildEach | library/di/service/builder.php:94-101 | the built list has one value per argument, in order, each that argument's own resolution; it fails exactly when some argument fails, with the first failing argument's error |
| DiBuilder.CallEvent | library/di/service/builder.php:168-213 | a call entry that is not an array, lacks `method`, or has non-array `arguments` is rejected with its position; otherwise it records a call of the named method: with no arguments when `arguments` is absent or an empty array; else it succeeds exactly when every argument builds, carrying the built values, and fails with the first failing argument's error |
| DiBuilder.PropertyEvent | library/di/service/builder.php:234-262 | a property entry that is not an array, lacks `name` or lacks `value` is rejected with its position; otherwise it succeeds exactly when its `value` spec builds, assigning the named property that value, and fails with the spec's error |
| DiBuilder.Events | library/di/service/builder.php:168-213 | a section yields one event per entry in declared order, or the first failing entry's error |
| DiBuilder.InjectCalls | library/di/service/builder.php:153-164 | without `calls` the instance is returned as it is; with `calls`, a non-object instance fails with the setter-injection error, and a non-array `calls` with "Setter injection parameters must be an array" |
| DiBuilder.InjectProperties | library/di/service/builder.php:219-230 | without `properties` the instance is returned as it is; with `properties`, a non-object instance fails with the property-injection error, and a non-array `properties` with "Setter injection parameters must be an array", the same text as for `calls` |
| DiBuilder.Build | library/di/service/builder.php:111-151 | a definition without `className` fails with "Invalid service definition. Missing 'className' parameter"; a constructor failure is the build's failure |
| DiBuilder.ApplyCallsAppendsEvents | library/di/service/builder.php:168-213 | running the calls appends exactly the calls' events to the instance's trace, each call once, in declared order |
| DiBuilder.ApplyPropertiesAppendsEvents | library/di/service/builder.php:234-262 | assigning the properties appends exactly the assignments' events, in declared order |
| DiBuilder.InjectCallsAppendsEvents | library/di/service/builder.php:153-214 | a definition with `calls` requires an object instance and an array of calls; a successful injection appends the calls' events |
| DiBuilder.InjectPropertiesAppendsEvents | library/di/service/builder.php:219-262 | a definition with `properties` requires an object instance and an array; a successful injection appends the assignments' events |
| DiBuilder.BuildRunsCallsThenProperties | library/di/service/builder.php:111-265 | a successful build with injection yields the constructed object with all call events followed by all property events |
| DiBuilder.BuildWithoutInjection | library/di/service/builder.php:111-151 | without calls or properties, build returns the constructed instance, whatever it is |
| DiBuilder.BuildStopsAtFirstFailingCall | library/di/service/builder.php:168-214 | when a call fails, build fails with that call's error and no property is assigned |
| DiBuilder.OverrideIgnoresDefinitionArguments | library/di/service/builder.php:122-131 | with array `parameters`, the definition's `arguments` play no part in the result |
| DiBuilder.ConstructorReceivesBuiltArguments | library/di/service/builder.php:133-147 | without array `parameters`, the constructor receives the built `arguments`, one per spec, in order |
| DiBuilder.BuildReadsOnlyItsFields | library/di/service/builder.php:111-265 | build depends only on the `className`, `arguments`, `calls` and `properties` entries of the definition |
| DiDefinition.EncodeFields | library/di/service/builder.php:118-219 | the array form of a typed definition exposes its class name, arguments, calls and properties under the keys the builder reads |
| DiDefinition.BuildParameterOfEncodeArg | library/di/service/builder.php:26-89 | every typed argument spec resolves, in array form, to its reference meaning |
| DiDefinition.BuildEachOfEncodeArgs | library/di/service/builder.php:94-101 | a typed argument list builds to its reference meaning, stopping at the first failure |
| DiDefinition.CallEventOfEncodeCall | library/di/service/builder.php:168-213 | a typed method call records the call its reference meaning gives |
| DiDefinition.EventsOfEncodeCalls | library/di/service/builder.php:168-213 | a typed call list records the reference events, in order |
| DiDefinition.PropertyEventOfEncodeProperty | library/di/service/builder.php:234-262 | a typed property assignment records the assignment its reference meaning gives |
| DiDefinition.EventsOfEncodeProperties | library/di/service/builder.php:234-262 | a typed property list records the reference events, in order |
| DiDefinition.ConstructOfEncode | library/di/service/builder.php:122-147 | construction of a typed definition uses the override values, or else the reference meaning of its arguments |
| DiDefinition.InjectCallsOfEncode | library/di/service/builder.php:153-214 | setter injection of a typed definition is its reference call events, or the non-object error |
| DiDefinition.InjectPropertiesOfEncode | library/di/service/builder.php:219-262 | property injection of a typed definition is its reference assignment events, or the non-object error |
| DiDefinition.BuildOfEncode | library/di/service/builder.php:111-265 | building the array form of any typed definition equals the independent reference semantics `Instantiate` |
| DiDefinition.FalsyParameterKept | library/di/service/builder.php:52-56 | a `parameter` spec whose value is falsy (0, "", false, null, an empty array) still yields that value |
| DiService.NewService | library/di/service.php:46-50 | a new service carries the given name, definition and shared flag, and has no cached instance and no resolution yet |
| DiService.SettersReadBack | library/di/service.php:55-98 | each setter is read back by its getter and changes no other property |
| DiService.OverrideArgs | library/di/service.php:132-163 | override parameters become positional arguments only when they are an array |
| DiService.Produce | library/di/service.php:122-185 | an existing class name is constructed with the override arguments; a closure is invoked with the container and the override arguments; another object is returned unchanged; an array is built; an unknown class or a scalar fails with "Service '<name>' cannot be resolved" |
| DiService.Resolve | library/di/service.php:107-197 | a shared service with a non-null cached instance returns it unchanged; otherwise the definition is produced; on failure the service is unchanged; on success it is marked resolved, and a shared service caches the result |
| DiService.SharedIdentity | library/di/service.php:113-120 | after a shared service resolves to a non-null instance, every later resolve, with any arguments or container, returns that same instance |
| DiService.NullInstanceNotCached | library/di/service.php:115-120 | a shared service that resolved to null has no cache hit next time |
| DiService.UnsharedNeverCaches | library/di/service.php:190-194 | resolving a service that is not shared never changes its cached instance |
| DiService.CacheSurvivesSetDefinition | library/di/service.php:87-89 | replacing the definition of a shared service with a cached instance does not change what resolve returns |
| DiService.EmptyOverrideOnClassName | library/di/service.php:132-140 | for a class-name definition, an empty override array resolves exactly as no override |
| DiService.ResolveOfEncode | library/di/service.php:171-176 | resolving an uncached service whose definition is the array form of a typed definition gives its reference semantics |
| DiService.SetParameter | library/di/service.php:202-229 | a non-array definition is rejected; otherwise `arguments[position]` holds the new parameter, other positions and other definition keys are unchanged, and missing `arguments` are created |
| DiService.GetParameter | library/di/service.php:237-254 | a non-array definition is rejected; otherwise the value at the position in `arguments` is returned when present (a null included), and null when `arguments` or the position is missing |
| DiService.GetParameterAfterSetParameter | library/di/service.php:202-254 | reading a position after setting it gives the value set, and other positions read as before |
| DiService.PutEncodedArgument | library/di/service.php:212-225 | replacing a position of an encoded argument list is the encoding of the list with that spec replaced |
| DiService.PutArgumentOfEncode | library/di/service.php:212-225 | replacing an argument in an encoded definition leaves the array form of the definition with that argument replaced |
| DiService.PositionalMutation | library/di/service.php:202-229 | after `setParameter(i, spec)` on an unshared service with a typed definition, resolving gives the reference semantics of the definition with argument i replaced |
| DiService.SetState | library/di/service.php:266-281 | missing `_name`, `_definition` or `_shared` is rejected, in that order; otherwise the service carries exactly those three values and nothing resolved or cached |
| DiService.SetStateOfExport | library/di/service.php:266-281 | restoring an exported service gives a new service with its name, definition and shared flag |
| HttpRequest.HeaderKey | library/http/request.php:227-231 | the server key of a header name has the same length, holds no '-' and is upper case |
| HttpRequest.HasHeader | library/http/request.php:227-241 | a header is present iff its key or its `HTTP_` key is in the server array |
| HttpRequest.GetHeader | library/http/request.php:246-259 | the header's key is read first, then its `HTTP_` key, and "" when neither is present |
| HttpRequest.HeaderKeyIdempotent | library/http/request.php:227-231 | normalising a header key twice gives the same key |
| HttpRequest.HeaderLookupBySpelling | library/http/request.php:227-259 | two header names that normalise alike are present together and read the same value |
| HttpRequest.GetScheme | library/http/request.php:264-277 | the scheme is "https" iff HTTPS is set, truthy and not "off"; otherwise "http" |
| HttpRequest.IsSecure | library/http/request.php:312-314 | a request is secure iff its scheme is "https" |
| HttpRequest.GetPort | library/http/request.php:474-493 | without a non-empty HTTP_HOST the port is SERVER_PORT as an integer; with one, it is the port that host names |
| HttpRequest.HostPort | library/http/request.php:478-490 | a host with ':' gives the integer after its last ':'; a host without one gives 443 when the request is secure and 80 otherwise |
| HttpRequest.GetPortOfHostWithPort | library/http/request.php:480-486 | a host of the form name:port gives that port |
| HttpRequest.IsValidHttpMethod | library/http/request.php:589-605 | a method is valid iff its upper-case spelling is one of GET, POST, PUT, DELETE, HEAD, OPTIONS, PATCH, PURGE, TRACE, CONNECT |
| HttpRequest.ValidMethodIgnoresCase | library/http/request.php:589-605 | validity does not depend on letter case |
| HttpRequest.ValidMethodsAreUpper | library/http/request.php:589-605 | each listed method is upper case and valid |
| HttpRequest.GetMethod | library/http/request.php:548-573 | without REQUEST_METHOD the method is GET; otherwise the result is the upper-cased method, or GET when that is invalid; it is always a valid upper-case method |
| HttpRequest.NoOverrideUnlessPost | library/http/request.php:557 | a request whose method is not POST is never overridden |
| HttpRequest.OverrideHeaderWins | library/http/request.php:557-560 | on POST, a non-empty X-HTTP-Method-Override header decides the method, falling back to GET when it is invalid |
| HttpRequest.SpoofIgnoredWithoutFlag | library/http/request.php:561-566 | with parameter override off, the `_method` request field never affects the method |
| HttpRequest.IsMethodIsMembership | library/http/request.php:611-637 | in non-strict mode, `isMethod` is true iff the current method is one of the strings in the argument, nested arrays included; anything else gives false |
| HttpRequest.AnyMethodIsMembership | library/http/request.php:622-629 | an array of methods matches iff one of its strings, at any depth, is the current method |
| HttpRequest.StrictIsScan | library/http/request.php:611-637 | strict `isMethod` equals the reference scan of the argument's leaves at any depth: the first invalid leaf throws its error, the first leaf naming the method answers true, otherwise false |
| HttpRequest.StrictIsMethod | library/http/request.php:611-637 | strict `isMethod` on any value, arrays included, throws at the first leaf that is not a valid method name unless a leaf naming the current method comes earlier; it answers true at that leaf, and false when no leaf is either |
| HttpRequest.StrictAgreesWhenAllValid | library/http/request.php:611-637 | when every leaf is a valid method name, strict `isMethod` answers as the non-strict membership does |
| HttpRequest.StrictRejectsInvalid | library/http/request.php:611-637 | in strict mode a string that is not a valid method is rejected with "Invalid HTTP method: " and the string, and a value that is neither a string nor an array with "Invalid HTTP method: non-string"; a valid string compares as in non-strict mode, which answers false for a value that is neither |
| HttpRequest.HasFileHelperCountsLeaves | library/http/request.php:742-762 | for an array, `hasFileHelper` counts its scalar leaves at every depth: all of them, or only those with a falsy (successful) error code |
| HttpRequest.CountFromCountsLeaves | library/http/request.php:749-760 | the count from any position of an array is the count of the scalar leaves from there on |
| HttpRequest.CountedAll | library/http/request.php:751-753 | when not only successful uploads are asked for, every leaf counts |
| HttpRequest.HasFilesCountsErrorLeaves | library/http/request.php:712-737 | `hasFiles` counts the error leaves of all uploads, all of them or only the successful ones |
| HttpRequest.SmoothFilesPerLeaf | library/http/request.php:812-848 | flattening emits one entry per string leaf of the names, in order, carrying the type, temporary name, size and error found at the same path and the key `prefix.idx…` along that path |
| HttpRequest.SmoothFromPerLeaf | library/http/request.php:816-846 | flattening from any position emits the entries of the string leaves from there on |
| HttpRequest.FilesAtUnder | library/http/request.php:831-844 | the entries under a nested array are those of its leaves, read below the same key and keyed with the extended prefix |
| MetadataIntrospection.GetMetaData | library/mvc/model/metadata/strategy/introspection.php:25-162 | a missing table or an empty column description fails, naming `schema'.'table` (or the table alone when the schema is empty) and the model's class; otherwise each metadata array is its column-wise definition, and the automatic-default and empty-string maps are empty |
| MetadataIntrospection.NamesWhereSelects | library/mvc/model/metadata/strategy/introspection.php:89-101 | the attributes are every column's name in order, and each name list holds exactly the names of the columns with its flag |
| MetadataIntrospection.KeysPartitionAttributes | library/mvc/model/metadata/strategy/introspection.php:95-101 | primary and non-primary keys together are exactly the attributes, counted with multiplicity |
| MetadataIntrospection.TypesAreLastWins | library/mvc/model/metadata/strategy/introspection.php:127-132 | the field types and bind types have a key for each column name, holding the last column of that name's type and bind type |
| MetadataIntrospection.NumericMarksNumericColumns | library/mvc/model/metadata/strategy/introspection.php:106-108 | the numeric map holds true for exactly the numeric columns' names |
| MetadataIntrospection.DefaultsAreLastWins | library/mvc/model/metadata/strategy/introspection.php:137-142 | a field has a default value iff some column of that name has a non-null default or is nullable, and is not auto-increment; the value is the last such column's default |
| MetadataIntrospection.IdentityIsLastAutoIncrement | library/mvc/model/metadata/strategy/introspection.php:85-122 | the identity field is false iff no column is auto-increment, and otherwise the name of the last auto-increment column |
| MetadataIntrospection.GetColumnMaps | library/mvc/model/metadata/strategy/introspection.php:167-192 | without `columnMap()` both maps are null; a non-array column map fails; otherwise the ordered map is the user's map and the reversed map is its inversion `Reverse` |
| MetadataIntrospection.ColumnMapsSendBack | library/mvc/model/metadata/strategy/introspection.php:176-191 | the reversed map `getColumnMaps` returns holds a key iff some column is mapped to that user name, and sends it back to the last such column |
| MetadataIntrospection.ReverseSendsBack | library/mvc/model/metadata/strategy/introspection.php:182-185 | the reversed map holds a key iff it is some user name, and sends it to the column of the last entry with that user name |
| StringLengthValidator.Validate | library/mvc/model/validator/stringlength.php:54-129 | a non-string `field` fails with "Field name must be a string"; neither `min` nor `max` set fails with "A minimum or maximum must be set"; with `allowEmpty` set, an empty value passes; an array or object value fails as not measurable; a measured value reaches a verdict exactly when the maximum, and the minimum when the maximum is not exceeded, are integers, else it fails as a non-integer bound; a rejection names the field |
| StringLengthValidator.CheckBound | library/mvc/model/validator/stringlength.php:89-126 | a bound reports a message exactly when the length exceeds the maximum, or falls short of the minimum, with kind "TooLong" or "TooShort" and the field |
| StringLengthValidator.FailsIffOutOfBounds | library/mvc/model/validator/stringlength.php:73-128 | a validation that reaches a verdict rejects the value iff it is not excused by `allowEmpty` and its length exceeds a set maximum or falls below a set minimum; when both fail, the maximum is reported |
| StringLengthValidator.RejectionText | library/mvc/model/validator/stringlength.php:97-123 | a rejection's text is the custom or default template with `:field` and the violated bound substituted |
| StringLengthValidator.DefaultMaximumMessage | library/mvc/model/validator/stringlength.php:97-102 | the default maximum message reads "Value of field '<field>' exceeds the maximum <max> characters" |
| StringLengthValidator.DefaultMinimumMessage | library/mvc/model/validator/stringlength.php:118-123 | the default minimum message reads "Value of field '<field>' is less than the minimum <min> characters" |
| StringLengthValidator.DefaultMessages | library/mvc/model/validator/stringlength.php:89-126 | without a custom message, a rejection's text is the default one for its kind, naming the field and the bound |
| StringLengthValidator.CustomMessageKept | library/mvc/model/validator/stringlength.php:97-123 | a custom message without placeholders is appended as written |
| MicroCollection.NewCollection | library/mvc/micro/collection.php:30-36 | a new collection has no prefix, handler, lazy flag or handlers |
| MicroCollection.AddMap | library/mvc/micro/collection.php:46-48 | the route `[method, pattern, handler, name]` is appended after the existing ones, and nothing else changes |
| MicroCollection.SetPrefix | library/mvc/micro/collection.php:53-63 | the prefix read back is the one set, and nothing else changes |
| MicroCollection.SetHandler | library/mvc/micro/collection.php:81-84 | the handler and the lazy flag (false by default) read back as set; prefix and routes are kept |
| MicroCollection.SetLazy | library/mvc/micro/collection.php:89-99 | only the lazy flag changes |
| MicroCollection.Map | library/mvc/micro/collection.php:118-121 | `map` appends one route with a null method |
| MicroCollection.MapVia | library/mvc/micro/collection.php:132-136 | `mapVia` appends one route with the given method |
| MicroCollection.MapVerb | library/mvc/micro/collection.php:146-226 | each verb helper appends one route with its upper-case method name |
| MicroCollection.VerbMethodInjective | library/mvc/micro/collection.php:146-226 | distinct helpers register distinct method names |
| MicroCollection.ShortcutIsMapVia | library/mvc/micro/collection.php:132-226 | each verb helper is `mapVia` with its method name |
| MicroCollection.RoutesInRegistrationOrder | library/mvc/micro/collection.php:47 | after any sequence of registrations the routes are the earlier ones followed by one per registration, in call order; prefix and handler are untouched |
| MicroCollection.GetHandlers | library/mvc/micro/collection.php:70-72 | the handlers are null before any registration and an array after |
| MicroCollection.HandlersListRoutes | library/mvc/micro/collection.php:47-72 | the handlers array lists each route at its registration index as `[method, pattern, handler, name]` |
| LoggerFormatter.GetTypeString | library/logger/formatter.php:20-55 | the result is always one of the ten level names |
| LoggerFormatter.TypeStringNamesLevel | library/logger/formatter.php:21-52 | each of the ten level constants is named by its own name |
| LoggerFormatter.OtherIntegersAreCustom | library/logger/formatter.php:54 | any other integer is "CUSTOM" |
| LoggerFormatter.Interpolate | library/logger/formatter.php:64-74 | a context that is not an array, or is empty, leaves the message unchanged |
| LoggerFormatter.ReplacementsOfEntries | library/logger/formatter.php:67-70 | each context entry's `{key}` maps to its value as a string |
| LoggerFormatter.PlaceholderReplaced | library/logger/formatter.php:66-71 | a `{key}` placeholder of the context in the message is replaced by its value; the text before it, when it holds no `{`, is kept, and the rest is interpolated in turn |
| LoggerFormatter.NoPlaceholderUnchanged | library/logger/formatter.php:66-73 | a message holding no `{key}` of the context is returned unchanged |
| AnnotationsMemory.Read | library/annotations/adapter/memory.php:27-34 | reading returns what is stored under the lower-cased key, or false when nothing is |
| AnnotationsMemory.Write | library/annotations/adapter/memory.php:39-43 | writing stores the data under the lower-cased key and keeps every other key |
| AnnotationsMemory.ReadAfterWrite | library/annotations/adapter/memory.php:27-43 | reading any key that lower-cases like the written one gives the written data |
| AnnotationsMemory.WriteKeepsOtherKeys | library/annotations/adapter/memory.php:39-43 | a write leaves every other lower-cased key's entry as it was |
| AnnotationsMemory.ReadFresh | library/annotations/adapter/memory.php:33 | nothing can be read before any write |
| AnnotationsMemory.WriteStoresLowercased | library/annotations/adapter/memory.php:41-42 | the written data is found under the lower-cased key, and no other new key appears |
| DbIndex.NewIndex | library/db/index.php:66-70 | the index keeps name and columns and stores the type as a string, null becoming "" |
| DbIndex.SetState | library/db/index.php:75-93 | missing `_name`, then missing `_columns`, is rejected; a missing `_type` is ""; the index carries the given name and columns |
| DbIndex.SetStateOfExport | library/db/index.php:75-93 | restoring an exported index gives the same index |
| CacheFrontendNone.GetLifetime | library/cache/frontend/none.php:59-61 | the lifetime is always one second |
| CacheFrontendNone.IsBuffering | library/cache/frontend/none.php:66-68 | the frontend never buffers |
| CacheFrontendNone.StoreRoundTrip | library/cache/frontend/none.php:73-105 | data comes back from the store exactly as it went in, and starting or stopping never buffers |

## Left out

- I/O: the request body (`php://input`), `parse_str`, `json_decode`, `gethostbyname`, and the database connection. Their results are inputs, or the operations are not modelled.
- Request accessors outside the method, header, scheme, port and file logic are not modelled:
  - `get*`/`has*` through the filter service;
  - `getHeaders`, `getHttpHost` and the strict host check;
  - `getClientAddress`, which reads an undefined variable;
  - `getUploadedFiles` and the `File` objects;
  - the quality-header parsing, which is floating point;
  - `getBasicAuth` and `getDigestAuth`.
- The container itself is not modelled: registry lookup, recursion between services, and cycles. `get`, `class_exists`, `create_instance*` and closure invocation with `Closure::bind` are oracles. A fresh instance's identity is whatever the oracle returns.
- `DiBuilder.CallEvent`: the setter calls (`call_user_func_array`, `call_user_func`) and the property writes are recorded as events in the object's trace and never throw. The source stops `build` and `resolve` with whatever a missing or throwing method, or a failing property write, raises; the model does not.
- `DiBuilder.BuildParameters`: a present `arguments` value that is not an array builds no arguments. Iterating it raises a warning in the source, and that warning is not modelled.
- Binding a closure to the container is modelled as passing the container to the invocation oracle.
- PHP's normalisation of numeric-string array keys ("1" becoming 1) is not modelled, so an `IntKey(1)` and a `StrKey("1")` are distinct keys here.
- Floats and resources are not PHP values in the model.
- A string conversion of an object would call `__toString`; the model uses a fixed word.
- `HttpRequest.GetPort`: the `(int)` cast is modelled for a run of decimal digits after optional spaces and a sign; exponents, overflow to a float and hexadecimal are not modelled.
- `HttpRequest.GetHeader`: `$_SERVER` is a map of strings, so a header whose value is not a string is not modelled.
- `HttpRequest.GetMethod`: `$_REQUEST` is a map of strings too, so a `_method` field sent as an array is not modelled.
- `DiService.SetParameter`: when `arguments` is present but not an array, PHP would fail or convert on assignment; the model replaces it with a one-entry array.
- `StringLengthValidator.Validate`: the length of an array or object value, and a `min`/`max` option that is not an integer, are modelled as failures. PHP's `mb_strlen` warning and its loose comparisons are not modelled. The length is the number of characters of the string; there are no multibyte encodings.
- The record's `readAttribute(field)` is modelled as a read of the record's attribute array, with a missing attribute reading as null.
- Phalcon's base model validator (`getOption`, `isSetOption`, `appendMessage`) is not part of this model. `getOption` is taken to read the option or null, and `isSetOption` to be `isset` on the options.
- `LoggerFormatter.GetTypeString`: the `switch` compares loosely. The model covers integers, booleans and null exactly; a string matches only the canonical decimal spelling of a constant. Floats, and strings such as " 7" or "7.0", are not modelled.
- The logger's level constants come from the logger class, which is not part of this model. The values used are EMERGENCY 0, CRITICAL 1, ALERT 2, ERROR 3, WARNING 4, NOTICE 5, INFO 6, DEBUG 7, CUSTOM 8 and SPECIAL 9.
- `LoggerFormatter.PlaceholderReplaced` assumes no two context keys spell the same placeholder, that no longer placeholder extends the one replaced, and that the text before the placeholder holds no `{`. Text before it that does hold a `{` could start another placeholder, so it is covered only by `NoPlaceholderUnchanged` when it holds none.
- `MetadataIntrospection.GetMetaData`:
  - the keyed metadata arrays are maps, so PHP's insertion order of their keys is not kept;
  - the column getters return booleans, integers and a default value;
  - `Message` gives the two table exception messages as far as the table name and no further; the rest of their text is not modelled.
- `MetadataIntrospection.ReverseSendsBack`: a user name that is an array or object is skipped. PHP would warn about an illegal offset.
- `AnnotationsMemory.Write`: `_data` is only ever null or an array in this class; any other value is treated as empty.
- Output buffering of the cache frontend (`start`, `stop`, `getContent`) is a no-op in the source and a no-op here.
