/**
 * Two routes built the way application code builds them, run against the
 * model: a greeting page limited to GET, and an admin page behind a chain of
 * middleware that turns an unauthenticated visitor away.
 */
module Scenarios {
  import opened Wrappers
  import opened Descriptors
  import opened Dispatching
  import opened Routing

  /** Route '/hello', methods ['GET'], controller 'Greeter@show'. A GET request
      registers it, and the router's call constructs a Greeter with the routing
      variables and calls show(); a POST request registers nothing. */
  method HelloRoute(params: Params, oracle: Oracle) returns (onGet: Dispatched, postRegistrations: seq<Registration>)
    ensures onGet.outcome == ControllerInvoked(Instance("Greeter", "show"), Some(params))
    ensures onGet.trace == [Instantiate("Greeter", Some(params)), InstanceMethod("Greeter", "show")]
    ensures postRegistrations == []
  {
    var route := new Route();
    var r := route.Url("/hello");
    r := route.Methods(["GET"]);
    r := route.Controller("Greeter" + InstanceSep + "show");
    OnlyGetAccepted();

    var registry := new Registry();
    var c := route.Call(registry, Some("GET"));
    assert registry.entries == [Registration(Some("/hello"), ControllerChain)];
    onGet := route.RunChain(params, oracle);
    GreeterRun(params, oracle);

    var other := new Registry();
    c := route.Call(other, Some("POST"));
    postRegistrations := other.entries;
  }

  /** The method gate of a GET-only route lets GET through and turns POST away. */
  lemma OnlyGetAccepted()
    ensures CheckMethods(Some("GET"), Some(["GET"]))
    ensures !CheckMethods(Some("POST"), Some(["GET"]))
  {
    assert "POST"[0] != "GET"[0];
  }

  /** With no middleware, the routed call of controller 'Greeter@show'
      constructs a Greeter with the routing variables and calls show(). */
  lemma GreeterRun(params: Params, oracle: Oracle)
    ensures Dispatch([], "Greeter" + InstanceSep + "show", params, oracle) ==
      Dispatched(ControllerInvoked(Instance("Greeter", "show"), Some(params)),
                 [Instantiate("Greeter", Some(params)), InstanceMethod("Greeter", "show")])
  {
    ClassifyRender(Instance("Greeter", "show"));
    NoVetoReachesController([], "Greeter" + InstanceSep + "show", params, oracle);
  }

  /** A route '/admin' with middleware [log, 'auth@verify', audit] and a plain
      controller, where verify() answers falsy for an unauthenticated visitor
      (for 'Log', 'AuthCheck', 'verify', 'Audit' and 'Dashboard', say). log
      runs (it is only constructed), auth is constructed and verify() called
      twice, and neither audit nor the controller runs. */
  method AdminRoute(log: string, auth: string, verify: string, audit: string, dashboard: string,
                    params: Params, unauthenticated: Oracle) returns (d: Dispatched)
    requires IsName(log) && IsName(auth) && IsName(verify) && IsName(audit) && IsName(dashboard)
    requires !unauthenticated([Instantiate(log, None), Instantiate(auth, None),
                               InstanceMethod(auth, verify), InstanceMethod(auth, verify)])
    ensures d.outcome == Declined
    ensures d.trace == [Instantiate(log, None), Instantiate(auth, None),
                        InstanceMethod(auth, verify), InstanceMethod(auth, verify)]
  {
    var route := new Route();
    var r := route.Url("/admin");
    r := route.Middleware(log);
    r := route.Middleware(auth + InstanceSep + verify);
    r := route.Middleware(audit);
    r := route.Controller(dashboard);
    assert route.middleware == [log, auth + InstanceSep + verify, audit];
    assert route.ControllerText() == dashboard;

    d := route.RunChain(params, unauthenticated);
    VetoAfterConstructed(log, auth, verify, audit, dashboard, params, unauthenticated);
  }

  /** A chain [a, 'c@me', z] over a plain controller, where me() answers falsy:
      a is constructed, c is constructed and me() called twice, and the run is
      declined before z and the controller. */
  lemma VetoAfterConstructed(a: string, c: string, me: string, z: string, ctrl: string, params: Params, oracle: Oracle)
    requires IsName(a) && IsName(c) && IsName(me) && IsName(z) && IsName(ctrl)
    requires !oracle([Instantiate(a, None), Instantiate(c, None), InstanceMethod(c, me), InstanceMethod(c, me)])
    ensures Dispatch([a, c + InstanceSep + me, z], ctrl, params, oracle) ==
      Dispatched(Declined, [Instantiate(a, None), Instantiate(c, None), InstanceMethod(c, me), InstanceMethod(c, me)])
  {
    var b := c + InstanceSep + me;
    var ms := [a, b, z];
    var first := [Instantiate(a, None)];
    var second := [Instantiate(c, None), InstanceMethod(c, me), InstanceMethod(c, me)];
    StepCalls(a, c, me, ctrl);
    assert ms[..1] == [a] && ms[..2] == [a, b];
    ChainOfTwo(a, b, ctrl);
    assert ChainInvocations(ms[..2], ctrl) == first + second;
    assert first + second ==
      [Instantiate(a, None), Instantiate(c, None), InstanceMethod(c, me), InstanceMethod(c, me)];
    assert ms[0] == a && ms[1] == b;
    assert Approves(ms, ctrl, oracle, 0);
    assert !Approves(ms, ctrl, oracle, 1);
    DeclinedSkipsRest(ms, ctrl, params, oracle, 1);
  }

  /** A bare name beside a plain controller is only constructed, and 'c@me' is
      constructed and then me() called twice. */
  lemma StepCalls(a: string, c: string, me: string, ctrl: string)
    requires IsName(a) && IsName(c) && IsName(me) && IsName(ctrl)
    ensures MiddlewareTarget(a, ctrl) == Construct(a)
    ensures MiddlewareTarget(c + InstanceSep + me, ctrl) == Instance(c, me)
    ensures MiddlewareInvocations(a, ctrl) == [Instantiate(a, None)]
    ensures MiddlewareInvocations(c + InstanceSep + me, ctrl) ==
      [Instantiate(c, None), InstanceMethod(c, me), InstanceMethod(c, me)]
  {
    NameHasNoSeparator(a);
    NameHasNoSeparator(ctrl);
    ClassifyRender(Instance(c, me));
    MiddlewareTargetVersusClassify(c + InstanceSep + me, ctrl);
  }

  /** The calls of a chain of two steps are those of the first then the second. */
  lemma ChainOfTwo(x: string, y: string, ctrl: string)
    ensures ChainInvocations([x], ctrl) == MiddlewareInvocations(x, ctrl)
    ensures ChainInvocations([x, y], ctrl) == MiddlewareInvocations(x, ctrl) + MiddlewareInvocations(y, ctrl)
  {
    ChainInvocationsSnoc([], x, ctrl);
    assert [] + [x] == [x];
    ChainInvocationsSnoc([x], y, ctrl);
    assert [x] + [y] == [x, y];
  }
}
