/** HTTP routes: the method set a route serves, the table from HTTP method to
    handler that `HTTPRoute.create_handler_map` fills in place, and the
    method check at the start of `HTTPRoute.handle`. */
module Routes {
  import opened Results
  import opened PathParams

  /** The kind of ASGI connection a route serves. */
  datatype ScopeType = Http | WebSocket

  /** A route handler as far as routing sees it: an identity, the name of its
      function (what `get_name(handler.fn)` returns) and the HTTP methods it
      declares, in declaration order. */
  datatype RouteHandler = RouteHandler(id: nat, name: string, httpMethods: seq<string>)

  /** The kwargs model built for a handler; its content is not modelled. */
  datatype KwargsModel = KwargsModel(id: nat)

  /** A value of `route_handler_map`: the handler and its kwargs model. */
  datatype HandlerEntry = HandlerEntry(handler: RouteHandler, kwargsModel: KwargsModel)

  // ---------------------------------------------------------------------
  // The method set.
  // ---------------------------------------------------------------------

  /** `list(chain.from_iterable(h.http_methods for h in handlers))`. */
  function DeclaredMethods(handlers: seq<RouteHandler>): seq<string>
  {
    if handlers == [] then [] else handlers[0].httpMethods + DeclaredMethods(handlers[1..])
  }

  /** A method is in the chained list exactly when some handler declares it. */
  lemma {:induction false} DeclaredMethodsMembership(handlers: seq<RouteHandler>, m: string)
    ensures m in DeclaredMethods(handlers) <==> exists i :: 0 <= i < |handlers| && m in handlers[i].httpMethods
  {
    if handlers != [] {
      DeclaredMethodsMembership(handlers[1..], m);
      if m in DeclaredMethods(handlers[1..]) {
        var i :| 0 <= i < |handlers[1..]| && m in handlers[1..][i].httpMethods;
        assert m in handlers[i + 1].httpMethods;
      }
      if exists i :: 0 <= i < |handlers| && m in handlers[i].httpMethods {
        var i :| 0 <= i < |handlers| && m in handlers[i].httpMethods;
        if i > 0 {
          assert handlers[1..][i - 1] == handlers[i];
        }
      }
    }
  }

  /** `set(methods or [])`, with `HEAD` added when `GET` is in it. */
  function RouteMethods(declared: seq<string>): set<string>
  {
    var methods := set m | m in declared;
    if "GET" in methods then methods + {"HEAD"} else methods
  }

  /** The route serves exactly the methods its handlers declare, and `HEAD`
      too when one of them declares `GET`; nothing else. */
  lemma MethodSet(handlers: seq<RouteHandler>, m: string)
    ensures m in RouteMethods(DeclaredMethods(handlers)) <==>
      || (exists i :: 0 <= i < |handlers| && m in handlers[i].httpMethods)
      || (m == "HEAD" && exists i :: 0 <= i < |handlers| && "GET" in handlers[i].httpMethods)
  {
    DeclaredMethodsMembership(handlers, m);
    DeclaredMethodsMembership(handlers, "GET");
  }

  // ---------------------------------------------------------------------
  // create_handler_map, as a function of the state it starts from.
  // ---------------------------------------------------------------------

  /** The inner loop for one handler from map `m` over its remaining methods
      `ms`: the outcome and the map it leaves behind, raised or not. */
  function RegisterMethods(path: string, m: map<string, HandlerEntry>, entry: HandlerEntry, ms: seq<string>)
    : (Outcome<RouteError>, map<string, HandlerEntry>)
    decreases |ms|
  {
    if ms == [] then (Pass, m)
    else if ms[0] in m then (Fail(HandlerAlreadyRegistered(path, ms[0])), m)
    else RegisterMethods(path, m[ms[0] := entry], entry, ms[1..])
  }

  /** Go on with the remaining handlers unless the last step raised. */
  function Continue(path: string, step: (Outcome<RouteError>, map<string, HandlerEntry>),
                    handlers: seq<RouteHandler>, kwargsModelOf: RouteHandler -> KwargsModel)
    : (Outcome<RouteError>, map<string, HandlerEntry>)
    decreases |handlers|, 1
  {
    if step.0.Fail? then step else Register(path, step.1, handlers, kwargsModelOf)
  }

  /** The outer loop from map `m` over the remaining `handlers`. */
  function Register(path: string, m: map<string, HandlerEntry>, handlers: seq<RouteHandler>,
                    kwargsModelOf: RouteHandler -> KwargsModel)
    : (Outcome<RouteError>, map<string, HandlerEntry>)
    decreases |handlers|, 0
  {
    if handlers == [] then (Pass, m)
    else
      var h := handlers[0];
      Continue(path, RegisterMethods(path, m, HandlerEntry(h, kwargsModelOf(h)), h.httpMethods),
               handlers[1..], kwargsModelOf)
  }

  /** No element occurs twice. */
  predicate Distinct(s: seq<string>)
  {
    forall i, j :: 0 <= i < j < |s| ==> s[i] != s[j]
  }

  /** A concatenation has no repeats exactly when neither part has any and
      the parts share nothing. */
  lemma DistinctAppend(a: seq<string>, b: seq<string>)
    ensures Distinct(a + b) <==> Distinct(a) && Distinct(b) && forall x :: x in a ==> x !in b
  {
    var s := a + b;
    if Distinct(a) && Distinct(b) && forall x :: x in a ==> x !in b {
      forall i, j | 0 <= i < j < |s|
        ensures s[i] != s[j]
      {
        if j < |a| {
          assert s[i] == a[i] && s[j] == a[j];
        } else if i >= |a| {
          assert s[i] == b[i - |a|] && s[j] == b[j - |a|];
        } else {
          assert s[i] == a[i] && s[j] == b[j - |a|];
          assert a[i] in a;
        }
      }
    }
    if Distinct(s) {
      forall i, j | 0 <= i < j < |b|
        ensures b[i] != b[j]
      {
        assert b[i] == s[i + |a|] && b[j] == s[j + |a|];
      }
      forall i, j | 0 <= i < |a| && 0 <= j < |b|
        ensures a[i] != b[j]
      {
        assert s[i] == a[i] && s[|a| + j] == b[j];
      }
      assert forall i, j :: 0 <= i < j < |a| ==> a[i] == s[i] && a[j] == s[j];
    }
  }

  /** One handler's methods register without error exactly when none repeats
      and none is already in the map; then each maps to the handler's entry
      and the earlier entries stay. */
  lemma {:induction false} RegisterMethodsPass(path: string, m: map<string, HandlerEntry>, entry: HandlerEntry, ms: seq<string>)
    ensures var (r, m') := RegisterMethods(path, m, entry, ms);
      && (r.Pass? <==> Distinct(ms) && forall x :: x in ms ==> x !in m)
      && (r.Pass? ==>
            && m'.Keys == m.Keys + (set x | x in ms)
            && (forall x :: x in m ==> m'[x] == m[x])
            && (forall x :: x in ms ==> m'[x] == entry))
    decreases |ms|
  {
    if ms != [] {
      var x := ms[0];
      RegisterMethodsPass(path, m[x := entry], entry, ms[1..]);
      DistinctAppend([x], ms[1..]);
      assert ms == [x] + ms[1..];
      if x in m {
        assert !(forall y :: y in ms ==> y !in m);
      }
    }
  }

  /** A raised error names the route's path and a method of the handler. */
  lemma {:induction false} RegisterMethodsFail(path: string, m: map<string, HandlerEntry>, entry: HandlerEntry, ms: seq<string>)
    ensures var r := RegisterMethods(path, m, entry, ms).0;
      r.Fail? ==> r.error.HandlerAlreadyRegistered? && r.error.path == path && r.error.httpMethod in ms
    decreases |ms|
  {
    if ms != [] && ms[0] !in m {
      RegisterMethodsFail(path, m[ms[0] := entry], entry, ms[1..]);
    }
  }

  /** create_handler_map from map `m` succeeds exactly when no method is
      declared twice across the handlers and none is already in `m`. */
  lemma {:induction false} RegisterPass(path: string, m: map<string, HandlerEntry>, handlers: seq<RouteHandler>,
                                        kwargsModelOf: RouteHandler -> KwargsModel)
    ensures Register(path, m, handlers, kwargsModelOf).0.Pass? <==>
      Distinct(DeclaredMethods(handlers)) && forall x :: x in DeclaredMethods(handlers) ==> x !in m
    decreases |handlers|
  {
    if handlers != [] {
      var h := handlers[0];
      var entry := HandlerEntry(h, kwargsModelOf(h));
      var step := RegisterMethods(path, m, entry, h.httpMethods);
      RegisterMethodsPass(path, m, entry, h.httpMethods);
      DistinctAppend(h.httpMethods, DeclaredMethods(handlers[1..]));
      if step.0.Pass? {
        RegisterPass(path, step.1, handlers[1..], kwargsModelOf);
      }
    }
  }

  /** After a successful create_handler_map from map `m`, the keys are those
      of `m` and the declared methods, the entries of `m` stay, and each
      declared method maps to the handler that declares it with its kwargs
      model. */
  lemma {:induction false} RegisterContents(path: string, m: map<string, HandlerEntry>, handlers: seq<RouteHandler>,
                                            kwargsModelOf: RouteHandler -> KwargsModel)
    requires Register(path, m, handlers, kwargsModelOf).0.Pass?
    ensures var m' := Register(path, m, handlers, kwargsModelOf).1;
      && m'.Keys == m.Keys + (set x | x in DeclaredMethods(handlers))
      && (forall x :: x in m ==> m'[x] == m[x])
      && (forall i, x :: 0 <= i < |handlers| && x in handlers[i].httpMethods ==>
            x in m' && m'[x] == HandlerEntry(handlers[i], kwargsModelOf(handlers[i])))
    decreases |handlers|
  {
    if handlers != [] {
      var h := handlers[0];
      var entry := HandlerEntry(h, kwargsModelOf(h));
      var step := RegisterMethods(path, m, entry, h.httpMethods);
      RegisterMethodsPass(path, m, entry, h.httpMethods);
      RegisterContents(path, step.1, handlers[1..], kwargsModelOf);
      var m' := Register(path, m, handlers, kwargsModelOf).1;
      assert DeclaredMethods(handlers) == h.httpMethods + DeclaredMethods(handlers[1..]);
      forall i, x | 0 <= i < |handlers| && x in handlers[i].httpMethods
        ensures x in m' && m'[x] == HandlerEntry(handlers[i], kwargsModelOf(handlers[i]))
      {
        if i > 0 {
          assert handlers[1..][i - 1] == handlers[i];
        }
      }
    }
  }

  /** A method repeats in the chained list exactly when one handler declares
      it twice or two handlers both declare it. */
  lemma {:induction false} DistinctDeclared(handlers: seq<RouteHandler>)
    ensures Distinct(DeclaredMethods(handlers)) <==>
      && (forall i :: 0 <= i < |handlers| ==> Distinct(handlers[i].httpMethods))
      && (forall i, j, x :: 0 <= i < j < |handlers| && x in handlers[i].httpMethods ==> x !in handlers[j].httpMethods)
  {
    if handlers != [] {
      var h, rest := handlers[0], handlers[1..];
      DistinctDeclared(rest);
      DistinctAppend(h.httpMethods, DeclaredMethods(rest));
      assert forall i :: 0 < i < |handlers| ==> handlers[i] == rest[i - 1];
      forall x
        ensures x in DeclaredMethods(rest) <==> exists k :: 0 <= k < |rest| && x in rest[k].httpMethods
      {
        DeclaredMethodsMembership(rest, x);
      }
    }
  }

  // ---------------------------------------------------------------------
  // The method check of `handle`.
  // ---------------------------------------------------------------------

  /** What `handle` does before building the response: a method outside the
      route's set raises MethodNotAllowedException, and one inside it is
      looked up in the handler map, which raises KeyError when it is
      missing. */
  function Dispatch(methods: set<string>, handlerMap: map<string, HandlerEntry>, requestMethod: string)
    : (r: Result<HandlerEntry, RouteError>)
    ensures r == Err(MethodNotAllowed) <==> requestMethod !in methods
    ensures r.Ok? <==> requestMethod in methods && requestMethod in handlerMap
    ensures r.Ok? ==> r.value == handlerMap[requestMethod]
    ensures requestMethod in methods && requestMethod !in handlerMap ==> r == Err(NoHandlerForMethod(requestMethod))
  {
    if requestMethod !in methods then Err(MethodNotAllowed)
    else if requestMethod !in handlerMap then Err(NoHandlerForMethod(requestMethod))
    else Ok(handlerMap[requestMethod])
  }

  // ---------------------------------------------------------------------
  // The route object.
  // ---------------------------------------------------------------------

  /** An `HTTPRoute`: its parsed path, its handlers, the method set its
      constructor builds and the handler map create_handler_map fills. */
  class HttpRoute {
    var path: string
    var pathFormat: string
    var pathParameters: seq<PathParameter>
    var handlerNames: seq<string>
    var scopeType: ScopeType
    var methods: set<string>
    var routeHandlers: seq<RouteHandler>
    var routeHandlerMap: map<string, HandlerEntry>

    /** The methods the route serves follow from its handlers. */
    predicate MethodsOfHandlers()
      reads this
    {
      methods == RouteMethods(DeclaredMethods(routeHandlers))
    }

    /** `HTTPRoute.__init__` after parse_path has returned: the fields of the
        parsed path, the handlers' names, the HTTP scope, an empty handler
        map, and the declared methods, with `HEAD` added when `GET` is
        among them. */
    constructor (parsed: ParsedPath, handlers: seq<RouteHandler>)
      ensures path == parsed.path && pathFormat == parsed.pathFormat
      ensures pathParameters == parsed.pathParameters
      ensures |handlerNames| == |handlers| && forall i :: 0 <= i < |handlers| ==> handlerNames[i] == handlers[i].name
      ensures scopeType == Http && routeHandlers == handlers && routeHandlerMap == map[]
      ensures MethodsOfHandlers()
    {
      routeHandlers := handlers;
      routeHandlerMap := map[];
      path := parsed.path;
      pathFormat := parsed.pathFormat;
      pathParameters := parsed.pathParameters;
      handlerNames := seq(|handlers|, i requires 0 <= i < |handlers| => handlers[i].name);
      scopeType := Http;
      methods := set m | m in DeclaredMethods(handlers);
      new;
      if "GET" in methods {
        methods := methods + {"HEAD"};
      }
    }

    /** `create_handler_map`: for each handler, build its kwargs model, then
        enter each of its methods in the map, raising when the method is
        already there. `kwargsModelOf` stands for this route's
        `create_handler_kwargs_model`. On a raise the entries made so far
        stay in the map. */
    method CreateHandlerMap(kwargsModelOf: RouteHandler -> KwargsModel) returns (r: Outcome<RouteError>)
      modifies this`routeHandlerMap
      ensures (r, routeHandlerMap) == Register(path, old(routeHandlerMap), routeHandlers, kwargsModelOf)
    {
      var i := 0;
      while i < |routeHandlers|
        invariant 0 <= i <= |routeHandlers|
        invariant Register(path, routeHandlerMap, routeHandlers[i..], kwargsModelOf)
          == Register(path, old(routeHandlerMap), routeHandlers, kwargsModelOf)
      {
        var handler := routeHandlers[i];
        var entry := HandlerEntry(handler, kwargsModelOf(handler));
        assert routeHandlers[i..][0] == handler && routeHandlers[i..][1..] == routeHandlers[i + 1..];
        var j := 0;
        while j < |handler.httpMethods|
          invariant 0 <= j <= |handler.httpMethods|
          invariant Continue(path, RegisterMethods(path, routeHandlerMap, entry, handler.httpMethods[j..]),
                             routeHandlers[i + 1..], kwargsModelOf)
            == Register(path, old(routeHandlerMap), routeHandlers, kwargsModelOf)
        {
          var httpMethod := handler.httpMethods[j];
          assert handler.httpMethods[j..][0] == httpMethod;
          assert handler.httpMethods[j..][1..] == handler.httpMethods[j + 1..];
          if httpMethod in routeHandlerMap {
            return Fail(HandlerAlreadyRegistered(path, httpMethod));
          }
          routeHandlerMap := routeHandlerMap[httpMethod := entry];
          j := j + 1;
        }
        i := i + 1;
      }
      return Pass;
    }

    /** The start of `handle`: reject a method outside the route's set, then
        select the handler registered for it. */
    method Handle(requestMethod: string) returns (r: Result<HandlerEntry, RouteError>)
      ensures r == Dispatch(methods, routeHandlerMap, requestMethod)
    {
      if requestMethod !in methods {
        return Err(MethodNotAllowed);
      }
      if requestMethod !in routeHandlerMap {
        return Err(NoHandlerForMethod(requestMethod));
      }
      return Ok(routeHandlerMap[requestMethod]);
    }
  }

  /** `HTTPRoute(path=..., route_handlers=...)`: parse the path, raising what
      parse_path raises, then build the route. */
  method NewHttpRoute(rawPath: string, handlers: seq<RouteHandler>, normalize: string -> string)
    returns (r: Result<HttpRoute, RouteError>)
    ensures r.Err? <==> Parsed(normalize(rawPath)).Err?
    ensures r.Err? ==> r.error == Parsed(normalize(rawPath)).error
    ensures r.Ok? ==> fresh(r.value) && r.value.MethodsOfHandlers() && r.value.routeHandlerMap == map[]
    ensures r.Ok? ==> (r.value.routeHandlers == handlers
      && ParsedPath(r.value.path, r.value.pathFormat, r.value.pathParameters) == Parsed(normalize(rawPath)).value)
    ensures r.Ok? ==> (|r.value.handlerNames| == |handlers|
      && (forall i :: 0 <= i < |handlers| ==> r.value.handlerNames[i] == handlers[i].name)
      && r.value.scopeType == Http)
  {
    var parsed := ParsePath(rawPath, normalize);
    if parsed.Err? {
      return Err(parsed.error);
    }
    var route := new HttpRoute(parsed.value, handlers);
    return Ok(route);
  }

  // ---------------------------------------------------------------------
  // Properties of a built route.
  // ---------------------------------------------------------------------

  /** After the handler map is built from empty without error, every method
      a handler declares dispatches to that handler and its kwargs model. */
  lemma DispatchDeclared(handlers: seq<RouteHandler>, path: string, kwargsModelOf: RouteHandler -> KwargsModel,
                         i: nat, x: string)
    requires Register(path, map[], handlers, kwargsModelOf).0.Pass?
    requires i < |handlers| && x in handlers[i].httpMethods
    ensures Dispatch(RouteMethods(DeclaredMethods(handlers)), Register(path, map[], handlers, kwargsModelOf).1, x)
      == Ok(HandlerEntry(handlers[i], kwargsModelOf(handlers[i])))
  {
    RegisterContents(path, map[], handlers, kwargsModelOf);
    MethodSet(handlers, x);
  }

  /** The map's keys are the declared methods, all of them in the route's
      method set; `HEAD` is a key only when a handler declares it. */
  lemma HandlerMapKeys(handlers: seq<RouteHandler>, path: string, kwargsModelOf: RouteHandler -> KwargsModel)
    requires Register(path, map[], handlers, kwargsModelOf).0.Pass?
    ensures var keys := Register(path, map[], handlers, kwargsModelOf).1.Keys;
      && keys <= RouteMethods(DeclaredMethods(handlers))
      && ("HEAD" in keys <==> exists i :: 0 <= i < |handlers| && "HEAD" in handlers[i].httpMethods)
  {
    RegisterContents(path, map[], handlers, kwargsModelOf);
    DeclaredMethodsMembership(handlers, "HEAD");
  }

  /** A route whose handlers declare `GET` but not `HEAD` serves `HEAD`, yet a
      `HEAD` request passes the method check and finds no handler: the
      lookup raises KeyError. */
  lemma HeadWithoutHandler(handlers: seq<RouteHandler>, path: string, kwargsModelOf: RouteHandler -> KwargsModel)
    requires Register(path, map[], handlers, kwargsModelOf).0.Pass?
    requires exists i :: 0 <= i < |handlers| && "GET" in handlers[i].httpMethods
    requires forall i :: 0 <= i < |handlers| ==> "HEAD" !in handlers[i].httpMethods
    ensures "HEAD" in RouteMethods(DeclaredMethods(handlers))
    ensures Dispatch(RouteMethods(DeclaredMethods(handlers)), Register(path, map[], handlers, kwargsModelOf).1, "HEAD")
      == Err(NoHandlerForMethod("HEAD"))
  {
    MethodSet(handlers, "HEAD");
    HandlerMapKeys(handlers, path, kwargsModelOf);
  }
}
