/**
 * The per-request decisions of a route: the HTTP-method gate, the resolution
 * of middleware and controller descriptors into calls of application code,
 * and the dispatch of a middleware chain followed by the controller.
 *
 * Application classes are foreign code. Every call into them is recorded as
 * an `Invocation`, in order, and the truthiness of what a call returns is
 * given by an `Oracle` that sees the whole history of calls up to and
 * including that one.
 */
module Dispatching {
  import opened Wrappers
  import opened Descriptors

  /** The routing variables the external router extracts from the path. */
  type Params = map<string, string>

  /** One call into application code. `args` is None for `new $class()` and
      Some(params) for `new $class($params)`. */
  datatype Invocation =
    | Instantiate(cls: string, args: Option<Params>)
    | InstanceMethod(cls: string, meth: string)
    | StaticMethod(cls: string, meth: string)

  /** Truthiness of the value returned by the last invocation of a history. */
  type Oracle = seq<Invocation> -> bool

  /** How one run of a registered closure ends. `Declined` is a plain return to
      the router; the other two end the request (`exit`). */
  datatype Outcome =
    | Declined
    | ControllerInvoked(target: Target, forwarded: Option<Params>)
    | Redirected(location: string)

  /** The outcome of a run with the calls it made into application code. */
  datatype Dispatched = Dispatched(outcome: Outcome, trace: seq<Invocation>)

  /** `checkMethods` (Route/Route.php:144-156): `request` is the request's
      method when it is known, `methods` the route's accepted methods when set. */
  function CheckMethods(request: Option<string>, methods: Option<seq<string>>): (ok: bool)
    ensures request.None? ==> !ok
    ensures request.Some? && methods.None? ==> ok
    ensures request.Some? && methods.Some? ==> (ok <==> request.value in methods.value)
  {
    match request
    case Some(m) =>
      if methods.Some? && m !in methods.value then false else true
    case None => false
  }

  /** Listing more methods never turns an accepted request away. */
  lemma CheckMethodsMonotone(request: Option<string>, a: seq<string>, b: seq<string>)
    requires forall x :: x in a ==> x in b
    ensures CheckMethods(request, Some(a)) ==> CheckMethods(request, Some(b))
  {
  }

  // ---------------------------------------------------------------------------
  // The controller call (`callController`, Route/Route.php:165-184)

  /** The constructor arguments a controller target receives: the routing
      variables, except that a static call forwards nothing. */
  function ControllerArgs(t: Target, params: Params): (args: Option<Params>)
    ensures args.None? <==> t.Static?
    ensures args.Some? ==> args.value == params
  {
    if t.Static? then None else Some(params)
  }

  /** The calls `callController` makes for a target. */
  function ControllerInvocations(t: Target, args: Option<Params>): (calls: seq<Invocation>)
    ensures |calls| >= 1
    ensures forall i :: 0 <= i < |calls| ==> calls[i].cls == t.cls
    ensures calls[0].Instantiate? <==> !t.Static?
    ensures |calls| == (if t.Instance? then 2 else 1)
    ensures calls[0].Instantiate? ==> calls[0].args == args
    ensures !t.Construct? ==>
      !calls[|calls| - 1].Instantiate? && calls[|calls| - 1].meth == t.meth &&
      (calls[|calls| - 1].InstanceMethod? <==> t.Instance?)
  {
    match t
    case Instance(c, m) => [Instantiate(c, args), InstanceMethod(c, m)]
    case Static(c, m) => [StaticMethod(c, m)]
    case Construct(c) => [Instantiate(c, args)]
  }

  // ---------------------------------------------------------------------------
  // A middleware step (`callMiddleware`, Route/Route.php:193-211)

  /** The calls `callMiddleware` makes: an instance method is called twice on the
      one object it constructs without arguments. */
  function MiddlewareInvocations(m: string, controller: string): (calls: seq<Invocation>)
    ensures |calls| >= 1 && calls[0].cls == MiddlewareTarget(m, controller).cls
    ensures MiddlewareTarget(m, controller).Instance? ==> |calls| == 3 && calls[1] == calls[2]
    ensures MiddlewareTarget(m, controller).Instance? ==>
      calls[0] == Instantiate(MiddlewareTarget(m, controller).cls, None) &&
      calls[1] == InstanceMethod(MiddlewareTarget(m, controller).cls, MiddlewareTarget(m, controller).meth)
    ensures !MiddlewareTarget(m, controller).Instance? ==> |calls| == 1
    ensures calls[0].Instantiate? <==> !MiddlewareTarget(m, controller).Static?
    ensures calls[0].Instantiate? ==> calls[0].args == None
    ensures MiddlewareTarget(m, controller).Static? ==>
      calls[0].StaticMethod? && calls[0].meth == MiddlewareTarget(m, controller).meth
  {
    match MiddlewareTarget(m, controller)
    case Instance(c, me) => [Instantiate(c, None), InstanceMethod(c, me), InstanceMethod(c, me)]
    case Static(c, me) => [StaticMethod(c, me)]
    case Construct(c) => [Instantiate(c, None)]
  }

  /** A middleware step makes the calls that resolving its target as a
      controller with no constructor arguments would make; an `@` step then
      repeats its method call once more. */
  lemma MiddlewareAsController(m: string, controller: string)
    ensures var t := MiddlewareTarget(m, controller);
      var calls := MiddlewareInvocations(m, controller);
      if t.Instance? then calls == ControllerInvocations(t, None) + [InstanceMethod(t.cls, t.meth)]
      else calls == ControllerInvocations(t, None)
  {
  }

  /** Whether a middleware step lets the request through, given the history
      that ends with its own calls: a method's answer is that of its last call;
      a constructed object is always truthy. */
  function Verdict(m: string, controller: string, history: seq<Invocation>, oracle: Oracle): (pass: bool)
    ensures !pass ==> !MiddlewareTarget(m, controller).Construct?
    ensures !MiddlewareTarget(m, controller).Construct? ==> (pass <==> oracle(history))
  {
    if MiddlewareTarget(m, controller).Construct? then true else oracle(history)
  }

  // ---------------------------------------------------------------------------
  // The chain (Route/Route.php:120-134)

  /** The calls made by running the steps `ms` one after the other. */
  function ChainInvocations(ms: seq<string>, controller: string): (calls: seq<Invocation>)
  {
    if ms == [] then []
    else ChainInvocations(ms[..|ms| - 1], controller) + MiddlewareInvocations(ms[|ms| - 1], controller)
  }

  /** Step `k` of chain `ms` lets the request through when steps 0..k have run. */
  predicate Approves(ms: seq<string>, controller: string, oracle: Oracle, k: nat)
    requires k < |ms|
  {
    Verdict(ms[k], controller, ChainInvocations(ms[..k + 1], controller), oracle)
  }

  /** The verdicts of the steps of `ms`, each taken after steps 0..k have run. */
  function Verdicts(ms: seq<string>, controller: string, oracle: Oracle): (bs: seq<bool>)
    ensures |bs| == |ms|
    ensures forall k :: 0 <= k < |ms| ==> bs[k] == Approves(ms, controller, oracle, k)
  {
    seq(|ms|, k requires 0 <= k < |ms| => Approves(ms, controller, oracle, k))
  }

  /** The first false entry of `bs` at or after `from`. */
  function FirstFalse(bs: seq<bool>, from: nat): (r: Option<nat>)
    ensures r.Some? ==> from <= r.value < |bs| && !bs[r.value]
    ensures r.Some? ==> forall j :: from <= j < r.value ==> bs[j]
    ensures r.None? ==> forall j :: from <= j < |bs| ==> bs[j]
    decreases |bs| - from
  {
    if from >= |bs| then None
    else if !bs[from] then Some(from)
    else FirstFalse(bs, from + 1)
  }

  /** The first step at or after `from` that turns the request away. */
  function FirstVeto(ms: seq<string>, controller: string, oracle: Oracle, from: nat): (r: Option<nat>)
    ensures r.Some? ==> from <= r.value < |ms| && !Approves(ms, controller, oracle, r.value)
    ensures r.Some? ==> forall j :: from <= j < r.value ==> Approves(ms, controller, oracle, j)
    ensures r.None? ==> forall j :: from <= j < |ms| ==> Approves(ms, controller, oracle, j)
  {
    FirstFalse(Verdicts(ms, controller, oracle), from)
  }

  /** Looking for the first veto from step `i`: step `i` if it vetoes, and
      otherwise the first veto from step `i + 1`. */
  lemma FirstVetoStep(ms: seq<string>, controller: string, oracle: Oracle, i: nat)
    requires i < |ms|
    ensures !Approves(ms, controller, oracle, i) ==> FirstVeto(ms, controller, oracle, i) == Some(i)
    ensures Approves(ms, controller, oracle, i) ==>
      FirstVeto(ms, controller, oracle, i) == FirstVeto(ms, controller, oracle, i + 1)
  {
  }

  /** A run of the controller closure: the middleware up to and including the
      first veto; or, when none vetoes, all of them and then the controller. */
  function Dispatch(ms: seq<string>, controller: string, params: Params, oracle: Oracle): (d: Dispatched)
    ensures d.outcome.Declined? || d.outcome.ControllerInvoked?
    ensures d.outcome.ControllerInvoked? ==> d.outcome.target == Classify(controller)
    ensures d.trace <= FullRun(ms, controller, params)
    ensures d.outcome.Declined? ==> |d.trace| < |FullRun(ms, controller, params)|
  {
    match FirstVeto(ms, controller, oracle, 0)
    case Some(k) =>
      SplitRun(ms, controller, params, k);
      PrefixOfSum(ChainInvocations(ms[..k + 1], controller),
                  ChainInvocations(ms[k + 1..], controller)
                  + ControllerInvocations(Classify(controller), ControllerArgs(Classify(controller), params)));
      Dispatched(Declined, ChainInvocations(ms[..k + 1], controller))
    case None =>
      var t := Classify(controller);
      var args := ControllerArgs(t, params);
      Dispatched(ControllerInvoked(t, args), ChainInvocations(ms, controller) + ControllerInvocations(t, args))
  }

  /** `a` begins `a + b`, and is shorter when `b` is not empty. */
  lemma PrefixOfSum(a: seq<Invocation>, b: seq<Invocation>)
    ensures a <= a + b
  {
    assert (a + b)[..|a|] == a;
  }

  /** The calls of a run in which every step lets the request through. */
  function FullRun(ms: seq<string>, controller: string, params: Params): seq<Invocation>
  {
    var t := Classify(controller);
    ChainInvocations(ms, controller) + ControllerInvocations(t, ControllerArgs(t, params))
  }

  /** Appending a step appends its calls. */
  lemma ChainInvocationsSnoc(ms: seq<string>, m: string, controller: string)
    ensures ChainInvocations(ms + [m], controller) == ChainInvocations(ms, controller) + MiddlewareInvocations(m, controller)
  {
    assert (ms + [m])[..|ms + [m]| - 1] == ms;
  }

  /** Running two chains one after the other makes their calls one after the other. */
  lemma {:induction false} ChainInvocationsAppend(a: seq<string>, b: seq<string>, controller: string)
    ensures ChainInvocations(a + b, controller) == ChainInvocations(a, controller) + ChainInvocations(b, controller)
    decreases |b|
  {
    if b == [] {
      assert a + b == a;
    } else {
      var b', x := b[..|b| - 1], b[|b| - 1];
      assert b == b' + [x];
      assert a + b == (a + b') + [x];
      ChainInvocationsAppend(a, b', controller);
      ChainInvocationsSnoc(a + b', x, controller);
      ChainInvocationsSnoc(b', x, controller);
    }
  }

  /** The calls of the first k+1 steps are those of the first k, then those of step k. */
  lemma ChainStep(ms: seq<string>, controller: string, k: nat)
    requires k < |ms|
    ensures ChainInvocations(ms[..k + 1], controller) ==
      ChainInvocations(ms[..k], controller) + MiddlewareInvocations(ms[k], controller)
  {
    assert ms[..k + 1] == ms[..k] + [ms[k]];
    ChainInvocationsSnoc(ms[..k], ms[k], controller);
  }

  /** Without a veto the run reaches the controller after every step. */
  lemma NoVetoReachesController(ms: seq<string>, controller: string, params: Params, oracle: Oracle)
    requires FirstVeto(ms, controller, oracle, 0) == None
    ensures Dispatch(ms, controller, params, oracle) ==
      Dispatched(ControllerInvoked(Classify(controller), ControllerArgs(Classify(controller), params)),
                 FullRun(ms, controller, params))
  {
  }

  /** When every step approves, the run reaches the controller after all of them. */
  lemma AllApproveReachesController(ms: seq<string>, controller: string, params: Params, oracle: Oracle)
    requires forall j :: 0 <= j < |ms| ==> Approves(ms, controller, oracle, j)
    ensures Dispatch(ms, controller, params, oracle) ==
      Dispatched(ControllerInvoked(Classify(controller), ControllerArgs(Classify(controller), params)),
                 FullRun(ms, controller, params))
  {
  }

  /** The run is declined exactly when some step vetoes, and otherwise reaches
      the controller described by the route. */
  lemma DispatchDeclinedIff(ms: seq<string>, controller: string, params: Params, oracle: Oracle)
    ensures Dispatch(ms, controller, params, oracle).outcome == Declined <==>
      exists k :: 0 <= k < |ms| && !Approves(ms, controller, oracle, k)
    ensures Dispatch(ms, controller, params, oracle).outcome != Declined ==>
      Dispatch(ms, controller, params, oracle) ==
        Dispatched(ControllerInvoked(Classify(controller), ControllerArgs(Classify(controller), params)),
                   FullRun(ms, controller, params))
  {
  }

  /** A veto at step `k` leaves out exactly the later steps and the controller:
      the calls made, followed by those of steps k+1.. and of the controller,
      are the calls of the run in which everything passes. */
  lemma DeclinedSkipsRest(ms: seq<string>, controller: string, params: Params, oracle: Oracle, k: nat)
    requires k < |ms| && !Approves(ms, controller, oracle, k)
    requires forall j :: 0 <= j < k ==> Approves(ms, controller, oracle, j)
    ensures Dispatch(ms, controller, params, oracle).outcome == Declined
    ensures Dispatch(ms, controller, params, oracle).trace == ChainInvocations(ms[..k + 1], controller)
    ensures Dispatch(ms, controller, params, oracle).trace + ChainInvocations(ms[k + 1..], controller)
              + ControllerInvocations(Classify(controller), ControllerArgs(Classify(controller), params))
            == FullRun(ms, controller, params)
  {
    FirstVetoIs(ms, controller, oracle, k);
    DeclinedAt(ms, controller, params, oracle, k);
    SplitRun(ms, controller, params, k);
  }

  /** The run declined at the first veto `k` made the calls of steps 0..k. */
  lemma DeclinedAt(ms: seq<string>, controller: string, params: Params, oracle: Oracle, k: nat)
    requires FirstVeto(ms, controller, oracle, 0) == Some(k)
    ensures Dispatch(ms, controller, params, oracle) == Dispatched(Declined, ChainInvocations(ms[..k + 1], controller))
  {
  }

  /** The full run cut after step `k`. */
  lemma SplitRun(ms: seq<string>, controller: string, params: Params, k: nat)
    requires k < |ms|
    ensures ChainInvocations(ms[..k + 1], controller) + ChainInvocations(ms[k + 1..], controller)
              + ControllerInvocations(Classify(controller), ControllerArgs(Classify(controller), params))
            == FullRun(ms, controller, params)
  {
    var t := Classify(controller);
    var tail := ControllerInvocations(t, ControllerArgs(t, params));
    assert ms[..k + 1] + ms[k + 1..] == ms;
    ChainThen(ms[..k + 1], ms[k + 1..], controller, tail);
  }

  /** `ChainInvocationsAppend` with the calls that follow the chain kept apart. */
  lemma ChainThen(a: seq<string>, b: seq<string>, controller: string, tail: seq<Invocation>)
    ensures ChainInvocations(a, controller) + ChainInvocations(b, controller) + tail
            == ChainInvocations(a + b, controller) + tail
  {
    ChainInvocationsAppend(a, b, controller);
  }

  /** The first veto is the step that vetoes after all earlier steps approved. */
  lemma FirstVetoIs(ms: seq<string>, controller: string, oracle: Oracle, k: nat)
    requires k < |ms| && !Approves(ms, controller, oracle, k)
    requires forall j :: 0 <= j < k ==> Approves(ms, controller, oracle, j)
    ensures FirstVeto(ms, controller, oracle, 0) == Some(k)
  {
  }

  /** Steps that only construct an object never veto: such a chain, the empty
      one included, always reaches the controller, whatever the oracle says. */
  lemma ConstructOnlyChainReachesController(ms: seq<string>, controller: string, params: Params, oracle: Oracle)
    requires forall k :: 0 <= k < |ms| ==> MiddlewareTarget(ms[k], controller).Construct?
    ensures Dispatch(ms, controller, params, oracle).outcome ==
      ControllerInvoked(Classify(controller), ControllerArgs(Classify(controller), params))
  {
  }

  /** What the controller receives: a static target gets no routing variables;
      an instance or constructed target gets them in its constructor. */
  lemma ControllerForwarding(ms: seq<string>, controller: string, params: Params, oracle: Oracle)
    ensures Dispatch(ms, controller, params, oracle).outcome.ControllerInvoked? ==>
      var o := Dispatch(ms, controller, params, oracle).outcome;
      (o.forwarded == None <==> Contains(controller, StaticSep) && !Contains(controller, InstanceSep)) &&
      (o.forwarded != None ==> o.forwarded == Some(params))
  {
  }
}
