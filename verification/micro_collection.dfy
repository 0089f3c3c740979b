/** A micro-application route group: a prefix, a main handler (possibly
    lazy) and the routes mapped so far, each a method, a pattern, a handler
    and a name. Every mutator returns the collection itself; here it returns
    the updated value. */
module MicroCollection {
  import opened Wrappers
  import opened Php

  /** One registered route, as `_addMap` stores it. */
  datatype Route = Route(verb: Value, pattern: Value, handler: Value, name: Value)

  /** The collection's properties. `handlers` is `None` while the property
      is still null, before any route is mapped. */
  datatype Collection = Collection(prefix: Value, lazy: Value, handler: Value, handlers: Option<seq<Route>>)

  /** A new collection: every property null. */
  function NewCollection(): (c: Collection)
    ensures GetPrefix(c) == Null && GetHandler(c) == Null && IsLazy(c) == Null && GetHandlers(c) == Null
  {
    Collection(Null, Null, Null, None)
  }

  /** The verbs with a shortcut method; `Any` is `map`, whose method is
      null. */
  datatype Verb = Any | Get | Post | Put | Patch | Head | Delete | Options

  function VerbMethod(v: Verb): (r: Value)
    ensures r == Null <==> v == Any
    ensures v != Any ==> r.Str? && |r.s| > 0
  {
    match v
    case Any => Null
    case Get => Str("GET")
    case Post => Str("POST")
    case Put => Str("PUT")
    case Patch => Str("PATCH")
    case Head => Str("HEAD")
    case Delete => Str("DELETE")
    case Options => Str("OPTIONS")
  }

  /** Distinct shortcuts register distinct methods. */
  lemma VerbMethodInjective(a: Verb, b: Verb)
    ensures VerbMethod(a) == VerbMethod(b) ==> a == b
  {
  }

  /** `_addMap`: the route is appended; nothing else changes. */
  function AddMap(c: Collection, verb: Value, pattern: Value, handler: Value, name: Value): (r: Collection)
    ensures r.handlers.Some?
    ensures Routes(r) == Routes(c) + [Route(verb, pattern, handler, name)]
    ensures r.prefix == c.prefix && r.lazy == c.lazy && r.handler == c.handler
  {
    c.(handlers := Some(c.handlers.GetOr([]) + [Route(verb, pattern, handler, name)]))
  }

  /** The routes mapped so far, none while `handlers` is null. */
  function Routes(c: Collection): seq<Route> {
    c.handlers.GetOr([])
  }

  function SetPrefix(c: Collection, prefix: Value): (r: Collection)
    ensures GetPrefix(r) == prefix
    ensures r.lazy == c.lazy && r.handler == c.handler && r.handlers == c.handlers
  {
    c.(prefix := prefix)
  }

  function GetPrefix(c: Collection): Value {
    c.prefix
  }

  /** `setHandler(handler, lazy)`; the source's default for `lazy` is
      false. */
  function SetHandler(c: Collection, handler: Value, lazy: Value := Bool(false)): (r: Collection)
    ensures GetHandler(r) == handler && IsLazy(r) == lazy
    ensures r.prefix == c.prefix && r.handlers == c.handlers
  {
    c.(handler := handler, lazy := lazy)
  }

  function SetLazy(c: Collection, lazy: Value): (r: Collection)
    ensures IsLazy(r) == lazy
    ensures r.prefix == c.prefix && r.handler == c.handler && r.handlers == c.handlers
  {
    c.(lazy := lazy)
  }

  function IsLazy(c: Collection): Value {
    c.lazy
  }

  function GetHandler(c: Collection): Value {
    c.handler
  }

  /** `map(routePattern, handler, name)`: a route for any method. */
  function Map(c: Collection, pattern: Value, handler: Value, name: Value := Null): (r: Collection)
    ensures Routes(r) == Routes(c) + [Route(Null, pattern, handler, name)]
    ensures r.prefix == c.prefix && r.lazy == c.lazy && r.handler == c.handler
  {
    AddMap(c, Null, pattern, handler, name)
  }

  /** `mapVia(routePattern, handler, method, name)`. */
  function MapVia(c: Collection, pattern: Value, handler: Value, verb: Value, name: Value := Null): (r: Collection)
    ensures Routes(r) == Routes(c) + [Route(verb, pattern, handler, name)]
    ensures r.prefix == c.prefix && r.lazy == c.lazy && r.handler == c.handler
  {
    AddMap(c, verb, pattern, handler, name)
  }

  /** `get`, `post`, `put`, `patch`, `head`, `delete` and `options`: each
      maps a route under its upper-case method name. */
  function MapVerb(c: Collection, v: Verb, pattern: Value, handler: Value, name: Value := Null): (r: Collection)
    ensures Routes(r) == Routes(c) + [Route(VerbMethod(v), pattern, handler, name)]
    ensures r.prefix == c.prefix && r.lazy == c.lazy && r.handler == c.handler
  {
    match v
    case Any => Map(c, pattern, handler, name)
    case _ => AddMap(c, VerbMethod(v), pattern, handler, name)
  }

  /** A shortcut is `mapVia` with its method name. */
  lemma ShortcutIsMapVia(c: Collection, v: Verb, pattern: Value, handler: Value, name: Value)
    ensures MapVerb(c, v, pattern, handler, name) == MapVia(c, pattern, handler, VerbMethod(v), name)
  {
  }

  /** One shortcut call, for replaying a sequence of them. */
  datatype Mapping = Mapping(verb: Verb, pattern: Value, handler: Value, name: Value)

  function MapAll(c: Collection, ms: seq<Mapping>): Collection
    decreases |ms|
  {
    if |ms| == 0 then c
    else
      var m := ms[|ms| - 1];
      MapVerb(MapAll(c, ms[..|ms| - 1]), m.verb, m.pattern, m.handler, m.name)
  }

  function RouteOf(m: Mapping): Route {
    Route(VerbMethod(m.verb), m.pattern, m.handler, m.name)
  }

  /** Routes keep their registration order: after any sequence of mappings
      the handlers are the earlier ones followed by one route per mapping,
      in call order, and the prefix and main handler are untouched. */
  lemma {:induction false} RoutesInRegistrationOrder(c: Collection, ms: seq<Mapping>)
    ensures Routes(MapAll(c, ms)) == Routes(c) + seq(|ms|, i requires 0 <= i < |ms| => RouteOf(ms[i]))
    ensures MapAll(c, ms).prefix == c.prefix && MapAll(c, ms).handler == c.handler && MapAll(c, ms).lazy == c.lazy
    decreases |ms|
  {
    if |ms| > 0 {
      var prefix := ms[..|ms| - 1];
      RoutesInRegistrationOrder(c, prefix);
      var before := seq(|prefix|, i requires 0 <= i < |prefix| => RouteOf(prefix[i]));
      var after := seq(|ms|, i requires 0 <= i < |ms| => RouteOf(ms[i]));
      assert after == before + [RouteOf(ms[|ms| - 1])];
    }
  }

  /** `getHandlers`: null before any mapping, else a list of four-element
      lists `[method, pattern, handler, name]`. */
  function RouteValue(r: Route): Value {
    List([r.verb, r.pattern, r.handler, r.name])
  }

  function GetHandlers(c: Collection): (r: Value)
    ensures c.handlers.None? <==> r == Null
  {
    match c.handlers
    case None => Null
    case Some(routes) => List(seq(|routes|, i requires 0 <= i < |routes| => RouteValue(routes[i])))
  }

  /** Reading a route back from its four-element list. */
  function RouteFrom(v: Value): Route {
    Route(Index(v, IntKey(0)), Index(v, IntKey(1)), Index(v, IntKey(2)), Index(v, IntKey(3)))
  }

  lemma RouteRoundTrip(r: Route)
    ensures RouteFrom(RouteValue(r)) == r
  {
    var vs := [r.verb, r.pattern, r.handler, r.name];
    FindInList(vs, 0);
    FindInList(vs, 1);
    FindInList(vs, 2);
    FindInList(vs, 3);
  }

  /** The array `getHandlers` returns lists every mapped route at its
      registration index, and reads back to it. */
  lemma HandlersListRoutes(c: Collection, i: nat)
    requires i < |Routes(c)|
    ensures GetHandlers(c).Arr? && |GetHandlers(c).entries| == |Routes(c)|
    ensures GetHandlers(c).entries[i].key == IntKey(i)
    ensures RouteFrom(GetHandlers(c).entries[i].val) == Routes(c)[i]
  {
    RouteRoundTrip(Routes(c)[i]);
  }
}
