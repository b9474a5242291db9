/**
 * The `SimpleRoutes\Route` builder (Route/Route.php) and the external router
 * it registers its closures with. The closures themselves are the methods
 * `RunChain` and `RunRedirect`: like a PHP closure bound to `$this`, they read
 * the route's fields when the router invokes them, not when they are registered.
 */
module Routing {
  import opened Wrappers
  import opened Descriptors
  import opened Dispatching

  /** Which closure a registration maps its pattern to. */
  datatype HandlerKind =
    | ControllerChain  // the closure of `call`: middleware, then the controller
    | RedirectHandler  // the closure of `redirect`
    | CustomCallback   // an arbitrary callback given to `closure`

  /** One `\Routes::map($url, $handler)` call. The pattern is the route's url
      property at that moment, which may be unset. */
  datatype Registration = Registration(pattern: Option<string>, kind: HandlerKind)

  /** The external router: the registrations made with it, in order. Matching
      patterns against requests is its business and is not modelled. */
  class Registry {
    var entries: seq<Registration>

    constructor ()
      ensures entries == []
    {
      entries := [];
    }

    /** `\Routes::map`. */
    method Map(pattern: Option<string>, kind: HandlerKind)
      modifies this
      ensures entries == old(entries) + [Registration(pattern, kind)]
    {
      entries := entries + [Registration(pattern, kind)];
    }
  }

  /** How `call` returns: normally, or by throwing an exception with a message. */
  datatype Completion = Normal | Thrown(message: string)

  /** The message `call` throws with when the route has no url:
      `get_class($this) . ' must have a $url'`. */
  const MissingUrlMessage: string := "SimpleRoutes\\Route must have a $url"

  class Route {
    var url: Option<string>
    var methods: Option<seq<string>>
    var controller: Option<string>
    var middleware: seq<string>
    var redirectTarget: Option<string>

    /** `new Route()`: only the middleware list has an initial value, `[]`. */
    constructor ()
      ensures url == None && methods == None && controller == None
      ensures middleware == [] && redirectTarget == None
    {
      url, methods, controller := None, None, None;
      middleware, redirectTarget := [], None;
    }

    /** The controller as the string functions see it: PHP reads an unset
        property as null, and `strpos(null, …)` as a search of "". */
    function ControllerText(): string
      reads this
    {
      controller.GetOr("")
    }

    /** `url($url)`: overwrite the url and return the route. */
    method Url(u: string) returns (self: Route)
      modifies this
      ensures self == this
      ensures url == Some(u)
      ensures methods == old(methods) && controller == old(controller)
      ensures middleware == old(middleware) && redirectTarget == old(redirectTarget)
    {
      url := Some(u);
      self := this;
    }

    /** `methods($methods)`: overwrite the accepted methods and return the route. */
    method Methods(ms: seq<string>) returns (self: Route)
      modifies this
      ensures self == this
      ensures methods == Some(ms)
      ensures url == old(url) && controller == old(controller)
      ensures middleware == old(middleware) && redirectTarget == old(redirectTarget)
    {
      methods := Some(ms);
      self := this;
    }

    /** `middleware($middleware)`: append one step to the chain and return the route. */
    method Middleware(m: string) returns (self: Route)
      modifies this
      ensures self == this
      ensures middleware == old(middleware) + [m]
      ensures url == old(url) && methods == old(methods)
      ensures controller == old(controller) && redirectTarget == old(redirectTarget)
    {
      middleware := middleware + [m];
      self := this;
    }

    /** `controller($controller)`: overwrite the controller and return the route. */
    method Controller(c: string) returns (self: Route)
      modifies this
      ensures self == this
      ensures controller == Some(c)
      ensures url == old(url) && methods == old(methods)
      ensures middleware == old(middleware) && redirectTarget == old(redirectTarget)
    {
      controller := Some(c);
      self := this;
    }

    /** `closure($callback)`: map the url, set or not, to a foreign callback. */
    method Closure(registry: Registry)
      modifies registry
      ensures registry.entries == old(registry.entries) + [Registration(url, CustomCallback)]
    {
      registry.Map(url, CustomCallback);
    }

    /** `redirect($redirect)`: store the target and map the url, set or not,
        to the redirect closure. Nothing is checked first. */
    method Redirect(registry: Registry, target: string)
      modifies this, registry
      ensures redirectTarget == Some(target)
      ensures url == old(url) && methods == old(methods)
      ensures controller == old(controller) && middleware == old(middleware)
      ensures registry.entries == old(registry.entries) + [Registration(url, RedirectHandler)]
    {
      redirectTarget := Some(target);
      registry.Map(url, RedirectHandler);
    }

    /** `call()`: without a url, throw before anything else; with one, register
        the controller closure only if the method gate of the current request
        passes. The route itself is left as it is. */
    method Call(registry: Registry, request: Option<string>) returns (c: Completion)
      modifies registry
      ensures url.None? ==> c == Thrown(MissingUrlMessage) && registry.entries == old(registry.entries)
      ensures url.Some? ==> c == Normal
      ensures url.Some? && CheckMethods(request, methods) ==>
        registry.entries == old(registry.entries) + [Registration(url, ControllerChain)]
      ensures url.Some? && !CheckMethods(request, methods) ==> registry.entries == old(registry.entries)
    {
      if url.None? {
        return Thrown(MissingUrlMessage);
      }
      if !CheckMethods(request, methods) {
        return Normal;
      }
      registry.Map(url, ControllerChain);
      return Normal;
    }

    /** The closure of `redirect`: decline when the method gate fails, else
        send the client to the stored target. No middleware and no controller
        is consulted, so no application code is called. */
    method RunRedirect(request: Option<string>) returns (o: Outcome)
      ensures o == Declined || o.Redirected?
      ensures o.Redirected? <==> CheckMethods(request, methods)
      ensures o.Redirected? ==> o.location == redirectTarget.GetOr("")
    {
      if !CheckMethods(request, methods) {
        return Declined;
      }
      // `header('Location: ' . $this->redirect); exit;`, where a null target reads as ""
      return Redirected(redirectTarget.GetOr(""));
    }

    /** `callController($params)`, statement by statement as the PHP code runs
        it: the controller's calls, then the request ends. Its contract ties it
        to the reading `Classify` and the calls `ControllerInvocations`. */
    method CallController(params: Params) returns (o: Outcome, calls: seq<Invocation>)
      ensures o == ControllerInvoked(Classify(ControllerText()), ControllerArgs(Classify(ControllerText()), params))
      ensures calls == ControllerInvocations(o.target, o.forwarded)
    {
      var ctrl := ControllerText();
      if Contains(ctrl, InstanceSep) {
        var p := Split2(ctrl, InstanceSep);
        calls := [Instantiate(p.0, Some(params)), InstanceMethod(p.0, p.1)];
        o := ControllerInvoked(Instance(p.0, p.1), Some(params));
        return;
      }
      if Contains(ctrl, StaticSep) {
        var p := Split2(ctrl, StaticSep);
        calls := [StaticMethod(p.0, p.1)];
        o := ControllerInvoked(Static(p.0, p.1), None);
        return;
      }
      calls := [Instantiate(ctrl, Some(params))];
      o := ControllerInvoked(Construct(ctrl), Some(params));
    }

    /** `callMiddleware($m)` after the calls `history`, statement by statement
        as the PHP code runs it, the discarded first call included: the calls it
        adds and whether its result is truthy. Its contract ties it to the
        reading `MiddlewareTarget` and the calls `MiddlewareInvocations`. */
    method CallMiddleware(m: string, history: seq<Invocation>, oracle: Oracle) returns (truthy: bool, trace: seq<Invocation>)
      ensures trace == history + MiddlewareInvocations(m, ControllerText())
      ensures truthy == Verdict(m, ControllerText(), trace, oracle)
    {
      if Contains(m, InstanceSep) {
        var p := Split2(m, InstanceSep);
        trace := history + [Instantiate(p.0, None)];
        // the first call's result is discarded
        trace := trace + [InstanceMethod(p.0, p.1)];
        trace := trace + [InstanceMethod(p.0, p.1)];
        truthy := oracle(trace);
        return;
      }
      var ctrl := ControllerText();
      if Contains(ctrl, StaticSep) {
        var p := Split2(ctrl, StaticSep);
        trace := history + [StaticMethod(p.0, p.1)];
        truthy := oracle(trace);
        return;
      }
      trace := history + [Instantiate(m, None)];
      // the value returned is the new object, which is truthy
      truthy := true;
    }

    /** The closure of `call`, invoked by the router with the routing variables:
        the middleware in list order, returning at the first falsy result, and
        otherwise the controller. */
    method RunChain(params: Params, oracle: Oracle) returns (d: Dispatched)
      ensures d == Dispatch(middleware, ControllerText(), params, oracle)
    {
      var ctrl := ControllerText();
      var trace: seq<Invocation> := [];
      if |middleware| > 0 {
        var i := 0;
        while i < |middleware|
          invariant 0 <= i <= |middleware|
          invariant trace == ChainInvocations(middleware[..i], ctrl)
          invariant FirstVeto(middleware, ctrl, oracle, i) == FirstVeto(middleware, ctrl, oracle, 0)
        {
          var m := middleware[i];
          var ok;
          ok, trace := CallMiddleware(m, trace, oracle);
          ChainStep(middleware, ctrl, i);
          FirstVetoStep(middleware, ctrl, oracle, i);
          if !ok {
            DeclinedAt(middleware, ctrl, params, oracle, i);
            return Dispatched(Declined, trace);
          }
          i := i + 1;
        }
      }
      assert middleware[..|middleware|] == middleware;
      NoVetoReachesController(middleware, ctrl, params, oracle);
      var o, calls := CallController(params);
      d := Dispatched(o, trace + calls);
    }
  }
}
