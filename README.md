# SimpleRoutes route builder and dispatcher, modelled in Dafny

SimpleRoutes lets a WordPress site declare a route with chained setters — its
url, the HTTP methods it accepts, an ordered chain of middleware and a
controller — and then either `call()` it, registering a closure with the
external router that runs the middleware and then the controller, or
`redirect()` it, registering a closure that sends the client elsewhere.
Controllers and middleware are named by descriptor strings: `Class@method`
(construct, then call an instance method), `Class::method` (call a static
method) or `Class` (just construct).

The model has four parts:

- `Descriptors` (descriptors.dfy): PHP's `strpos`, `explode` and
  `list($a, $b) = …` on strings, the `Target` datatype a descriptor denotes,
  and the two readings of a descriptor: `Classify` for controllers and
  `MiddlewareTarget` for middleware.
- `Dispatching` (dispatching.dfy): the method gate `CheckMethods`, the calls
  into application code that resolving a target makes (an `Invocation`
  trace), and the specification `Dispatch` of one run of the controller
  closure, with the lemmas about middleware order and short-circuiting.
- `Routing` (routing.dfy): the `Route` class with its fields and setters,
  `call`, `redirect` and `closure`, the two registered closures as methods
  (`RunChain`, `RunRedirect`), and the `Registry` that stands for the
  external router.
- `Scenarios` (scenarios.dfy): two routes built and run as application code
  would: a GET-only greeting page and an admin page whose authentication
  middleware declines.

External collaborators are explicit inputs. The request's method
(`$_SERVER['REQUEST_METHOD']`) is an `Option<string>` parameter. `\Routes::map`
appends a `Registration(pattern, kind)` to a `Registry`. Application classes
are foreign code. Each `new`, instance call and static call is recorded in
order as an `Invocation`. The truthiness of a call's result comes from an
`Oracle`, a function of the whole call history up to and including that call,
so the two calls that an `@` middleware makes may answer differently. The
`header('Location: …'); exit;` and `exit` endings are `Outcome` values:
`Declined`, `ControllerInvoked(target, forwarded)` and `Redirected(location)`.

Two quirks of the code are modelled as written. In `callMiddleware`, the `::`
branch tests and splits the route's controller descriptor, not the
middleware's (Route/Route.php:202-205). So a middleware without `@` calls the
controller's static method when the controller has `::`, and otherwise is
only constructed, even when it reads `Auth::check`. An `@` middleware calls
its method twice and uses the second result (Route/Route.php:196-199).

The model follows the code in four places where one might expect otherwise:

- The method check is not part of the dispatch closure. `call()` runs it
  once, when the closure is registered. The controller
  closure itself never looks at the method. `RunChain` has no request
  parameter, and `Call` registers nothing when the gate fails.
- A `Class::method` middleware does not call that static method. The code
  calls the controller's static target instead (see above).
- Only `call()` fails when the url is missing. `redirect()` and `closure()` register whatever the url property
  holds, unset included, so a registration's pattern is an `Option<string>`.
- Accepted methods are a list searched with `in_array`, not a set.
  `CheckMethods` takes a sequence.

## Model

| member | source | states |
|---|---|---|
| `Descriptors.FindFrom` | Route/Route.php:166 | the result is the first position at or after the offset where the separator occurs, and None exactly when it occurs nowhere from there on |
| `Descriptors.IndexOf` | Route/Route.php:166 | `strpos` returns the first position where the separator occurs, and false (None) exactly when it occurs nowhere |
| `Descriptors.Contains` | Route/Route.php:166 | `strpos(...) !== false` holds exactly when the separator occurs somewhere in the string |
| `Descriptors.PieceEnd` | Route/Route.php:167 | a piece starting at a position ends at the next occurrence of the separator, or at the end of the string when there is none |
| `Descriptors.ExplodeFrom` | Route/Route.php:167 | explode yields at least one piece, and two or more exactly when the separator occurs |
| `Descriptors.Explode` | Route/Route.php:175 | explode of a whole string has two or more pieces exactly when `strpos` finds the separator |
| `Descriptors.ExplodeImplode` | Route/Route.php:167 | joining the exploded pieces with the separator gives back the original string (round trip) |
| `Descriptors.ExplodePiecesFree` | Route/Route.php:175 | no piece of an explode contains the separator |
| `Descriptors.ExplodeHead` | Route/Route.php:167 | explode's first piece runs from the offset to the next separator or the end; the remaining pieces are the explode that starts just after that separator, and there are none when no separator follows |
| `Descriptors.Split2` | Route/Route.php:167 | `list($class, $method) = explode(...)` keeps the text before the first separator and the text from just after it up to the next separator or the end |
| `Descriptors.SplitShape` | Route/Route.php:167 | the two pieces `list` keeps are exactly the text before the first separator and the text from just after it up to the next separator or the end; joined by the separator they are a prefix of the descriptor, and neither contains the separator |
| `Descriptors.ExplodeJoin` | Route/Route.php:175 | `a + sep + b` whose parts lack the separator's first character finds the separator at `|a|` and explodes to exactly `[a, b]` |
| `Descriptors.NameHasNoSeparator` | Route/Route.php:181 | a name without `@` and `:` contains neither separator, so it is read as a bare class |
| `Descriptors.Classify` | Route/Route.php:165-184 | a controller descriptor is an instance call exactly when it contains `@`, a static call exactly when it has no `@` but has `::`, and otherwise a class to construct named by the whole descriptor |
| `Descriptors.ClassifyShape` | Route/Route.php:165-184 | for a descriptor with `@`, the class is the text before the first `@` and the method the text after it up to the next `@` or the end; the same with `::` for a descriptor with `::` and no `@`; the target's rendering is a prefix of the descriptor and its class and method are free of the separator |
| `Descriptors.ClassifyRender` | Route/Route.php:165-184 | reading back the descriptor of a well-formed target gives the target (`Class@method`, `Class::method`, `Class`) |
| `Descriptors.MiddlewareTarget` | Route/Route.php:193-211 | a middleware step is an instance call exactly when the middleware contains `@`, a static call exactly when it has no `@` and the controller has `::`, and otherwise constructs the class named by the whole middleware string |
| `Descriptors.MiddlewareTargetVersusClassify` | Route/Route.php:193-211 | a middleware `@` descriptor is read as a controller's would be; without `@`, a `::` in the controller makes the step the static call named by the controller's text before its first `::` and after it up to the next `::` or the end, whatever the middleware says; with neither, the step constructs the middleware class |
| `Descriptors.StaticMiddlewareIsConstructed` | Route/Route.php:202-210 | a middleware `C::m` beside a controller without `::` is constructed as a class named `C::m`, while the controller reading of `C::m` is the static call |
| `Dispatching.CheckMethods` | Route/Route.php:144-156 | false when the request method is unknown; true when it is known and no methods are set; when methods are set, true exactly when the request method is listed |
| `Dispatching.CheckMethodsMonotone` | Route/Route.php:146-147 | accepting more methods never rejects a request that was accepted |
| `Dispatching.ControllerArgs` | Route/Route.php:168-181 | the routing variables reach the controller's constructor for instance and bare-class targets and are not forwarded for a static call |
| `Dispatching.ControllerInvocations` | Route/Route.php:165-184 | resolving a controller calls only the target's class: an instance target makes two calls, constructing with the given arguments and then calling the method on the object; a static target makes one static call of the method; a bare class is one construction with the given arguments |
| `Dispatching.MiddlewareInvocations` | Route/Route.php:193-211 | a middleware step calls only its target's class: an `@` step constructs it with no arguments and then calls the same instance method twice; a `::` reading makes one static call of the method; a bare step is one construction with no arguments |
| `Dispatching.MiddlewareAsController` | Route/Route.php:193-211 | a middleware step makes the calls that resolving its target as a controller with no constructor arguments would make, and an `@` step then repeats its method call |
| `Dispatching.Verdict` | Route/Route.php:193-210 | a step can turn the request away only when it calls a method, and then it does so exactly when the answer to its last call is falsy; a constructed object always lets it through |
| `Dispatching.FirstVeto` | Route/Route.php:122-130 | the result is the first step from the offset whose result is falsy, with every earlier step truthy; None exactly when every step is truthy |
| `Dispatching.ChainInvocationsAppend` | Route/Route.php:123-129 | the calls of a chain are those of its steps in list order: running `a + b` makes the calls of `a` then those of `b` |
| `Dispatching.Dispatch` | Route/Route.php:120-134 | a run either is declined or invokes the target `Classify` reads from the controller; its calls are a prefix of the full run, every step then the controller, and a strict prefix when declined |
| `Dispatching.DispatchDeclinedIff` | Route/Route.php:120-134 | a run is declined exactly when some middleware step is falsy; otherwise the controller of the route is invoked after every middleware has run |
| `Dispatching.DeclinedSkipsRest` | Route/Route.php:123-133 | when step k is the first falsy one the run is declined, its calls are those of steps 0..k, and exactly the later steps and the controller are left out |
| `Dispatching.ChainStep` | Route/Route.php:123-124 | the calls of steps 0..k are those of steps 0..k-1 followed by those of step k |
| `Dispatching.DeclinedAt` | Route/Route.php:126-128 | a run whose first veto is step k is declined with the calls of steps 0..k |
| `Dispatching.NoVetoReachesController` | Route/Route.php:132 | a run without a veto invokes the route's controller after the calls of every step |
| `Dispatching.AllApproveReachesController` | Route/Route.php:122-133 | when every step's result is truthy the controller is invoked, with the calls of all steps followed by the controller's |
| `Dispatching.FirstVetoIs` | Route/Route.php:123-128 | a falsy step preceded only by truthy ones is the first veto |
| `Dispatching.ConstructOnlyChainReachesController` | Route/Route.php:208-210 | a chain whose steps only construct objects, the empty chain included, always reaches the controller whatever the application answers |
| `Dispatching.ControllerForwarding` | Route/Route.php:168-181 | an invoked controller receives no routing variables exactly when its descriptor has `::` and no `@`, and otherwise receives the routing variables |
| `Routing.Registry.constructor` | Route/Route.php:20 | the external router starts with no registrations |
| `Routing.Registry.Map` | Route/Route.php:20 | mapping a pattern appends exactly one registration and keeps the earlier ones |
| `Routing.Route.constructor` | Route/Route.php:6-10 | a new route has no url, methods, controller or redirect target, and an empty middleware list |
| `Routing.Route.Url` | Route/Route.php:32-36 | overwrites the url only and returns the same route |
| `Routing.Route.Methods` | Route/Route.php:46-50 | overwrites the accepted methods only and returns the same route |
| `Routing.Route.Middleware` | Route/Route.php:61-65 | the chain becomes the old chain with the step appended, in order; nothing else changes; returns the same route |
| `Routing.Route.Controller` | Route/Route.php:76-80 | overwrites the controller only and returns the same route |
| `Routing.Route.Closure` | Route/Route.php:19-23 | appends one registration of the current url, set or not, with a custom callback, and checks nothing |
| `Routing.Route.Redirect` | Route/Route.php:89-91 | stores the target, changes no other field, and appends one redirect registration of the current url without checking it |
| `Routing.Route.Call` | Route/Route.php:109-137 | with no url it throws "SimpleRoutes\Route must have a $url" and registers nothing; with a url it returns normally and registers exactly one controller closure for the url when the method gate passes, and nothing otherwise |
| `Routing.Route.RunRedirect` | Route/Route.php:91-100 | the redirect closure redirects to the stored target exactly when the method gate passes and otherwise declines; it never invokes the controller |
| `Routing.Route.CallController` | Route/Route.php:165-184 | the controller call is the one `Classify` describes, with the arguments `ControllerArgs` gives and the calls `ControllerInvocations` lists |
| `Routing.Route.CallMiddleware` | Route/Route.php:193-211 | a middleware step adds the calls `MiddlewareInvocations` lists to the history and its truthiness is that of its last call, or true for a constructed object |
| `Routing.Route.RunChain` | Route/Route.php:120-134 | the controller closure's loop over the middleware, with its early return, produces exactly the run `Dispatch` specifies |
| `Scenarios.HelloRoute` | Route/Route.php:109-137 | a GET request to a GET-only route `Greeter@show` constructs Greeter with the routing variables and calls show(); a POST registers nothing |
| `Scenarios.AdminRoute` | Route/Route.php:122-133 | a route built with middleware `log`, `auth@verify`, `audit` and a plain controller, run with a falsy verify(), constructs log, constructs auth and calls verify() twice, and never runs audit or the controller |
| `Scenarios.VetoAfterConstructed` | Route/Route.php:193-210 | for any names, a chain of a constructed step, a falsy instance-method step and a third step is declined with exactly the first two steps' calls |

## Left out

- SimpleRoutes.php is the plugin header, the `ABSPATH` guard and an `include_once`. It has no logic and is not part of this model.
- `\Routes::map` matches URL patterns against requests. That is foreign code. Here it only records registrations, and the router calling a registered closure is a call of `RunChain` or `RunRedirect`.
- `$_SERVER['REQUEST_METHOD']` is not read. The request method is a parameter.
- `header('Location: …')` and `exit` are HTTP output and process termination. They appear as the `Redirected` and `ControllerInvoked` outcomes.
- Application classes (`new $class`, `$cont->$method()`, `$class::$method()`) are not executed. Their calls are recorded and their results come from the oracle. Their side effects are not modelled. Neither is the error PHP raises for a class or method that does not exist, which propagates out of the closure. That error also covers an unset controller (read as ""), a middleware named `Auth::check` that gets constructed, and a descriptor whose method piece is empty.
- The body of a callback given to `closure()` is arbitrary foreign code. The model only records its registration.
- Dispatching.CheckMethods: compares methods by exact string equality, whereas `in_array` compares loosely, so numeric strings compare as numbers.
- The setters take strings and lists of strings. Passing `null` would unset the field as far as `isset` is concerned, and passing a non-string descriptor would make the string functions behave differently. Neither is modelled.
- The redirect closure's `$params` argument is unused by the source and is not a parameter of `RunRedirect`. The `return false` and `return` endings are both `Declined`.
