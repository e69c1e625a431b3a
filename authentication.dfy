/**
 * Authentication: scheme-tagged handlers, their composition into a binary tree
 * (`AuthenticationHandlerWithScheme` and the `(H1, H2)` pair), the service that
 * owns such a tree plus a default scheme, and the builder that assembles it.
 */
module Authentication {
  import opened Results
  import opened Http
  import opened Principal

  /** The `anyhow::Error` carried by a failed verification, kept as its message. */
  datatype Cause = Cause(message: string)

  datatype AuthenticationError = NoResult | Fail(cause: Cause)

  type AuthenticationResult = Result<AuthenticatedPrincipal, AuthenticationError>

  /** The typed per-request extension slot: at most one value per stored type. */
  datatype Extensions = Extensions(principal: Option<AuthenticatedPrincipal>, error: Option<AuthenticationError>)

  /** What a handler can see of a request. */
  datatype RequestView = RequestView(headers: HeaderMap, extensions: Extensions)

  /** A request travelling through the pipeline; the service writes its extension slot. */
  class Request {
    var headers: HeaderMap
    var extensions: Extensions

    constructor (headers: HeaderMap)
      ensures this.headers == headers && extensions == Extensions(None, None)
    {
      this.headers := headers;
      extensions := Extensions(None, None);
    }

    function View(): RequestView
      reads this
    {
      RequestView(headers, extensions)
    }
  }

  /** One scheme's `AuthenticationHandler`: how it authenticates, and its two fixed responses. */
  datatype Handler = Handler(authenticate: RequestView -> AuthenticationResult, challenge: AuthResponse, forbid: AuthResponse)

  /** The two by-name operations of a compound handler. */
  datatype Operation = ChallengeOp | ForbidOp

  function Respond(h: Handler, op: Operation): AuthResponse {
    match op
    case ChallengeOp => h.challenge
    case ForbidOp => h.forbid
  }

  datatype HandlerWithScheme = HandlerWithScheme(scheme: string, handler: Handler)

  /** A compound handler: one scheme-tagged handler, or a pair tried left first. */
  datatype CompoundHandler = Single(entry: HandlerWithScheme) | Pair(first: CompoundHandler, second: CompoundHandler)

  /** The scheme-tagged handlers of the tree, left to right. */
  function Entries(c: CompoundHandler): (es: seq<HandlerWithScheme>)
    ensures |es| >= 1
  {
    match c
    case Single(e) => [e]
    case Pair(a, b) => Entries(a) + Entries(b)
  }

  function Schemes(c: CompoundHandler): seq<string> {
    var es := Entries(c);
    seq(|es|, i requires 0 <= i < |es| => es[i].scheme)
  }

  /** Some handler among `es` accepts the request. */
  ghost predicate SomeAccepts(es: seq<HandlerWithScheme>, request: RequestView) {
    exists k :: 0 <= k < |es| && es[k].handler.authenticate(request).Ok?
  }

  lemma SomeAcceptsConcat(xs: seq<HandlerWithScheme>, ys: seq<HandlerWithScheme>, request: RequestView)
    ensures SomeAccepts(xs + ys, request) <==> SomeAccepts(xs, request) || SomeAccepts(ys, request)
  {
    if SomeAccepts(xs + ys, request) {
      var k :| 0 <= k < |xs + ys| && (xs + ys)[k].handler.authenticate(request).Ok?;
      if k < |xs| {
        assert (xs + ys)[k] == xs[k];
      } else {
        assert (xs + ys)[k] == ys[k - |xs|];
      }
    }
    if SomeAccepts(xs, request) {
      var k :| 0 <= k < |xs| && xs[k].handler.authenticate(request).Ok?;
      assert (xs + ys)[k] == xs[k];
    }
    if SomeAccepts(ys, request) {
      var k :| 0 <= k < |ys| && ys[k].handler.authenticate(request).Ok?;
      assert (xs + ys)[|xs| + k] == ys[k];
    }
  }

  /** `CompoundAuthenticationHandler::authenticate`: first Ok wins, any error falls through. */
  function Authenticate(c: CompoundHandler, request: RequestView): (r: AuthenticationResult)
    ensures r.Ok? <==> SomeAccepts(Entries(c), request)
  {
    match c
    case Single(e) =>
      assert Entries(c)[0] == e;
      e.handler.authenticate(request)
    case Pair(a, b) =>
      SomeAcceptsConcat(Entries(a), Entries(b), request);
      var result := Authenticate(a, request);
      if result.Ok? then result else Authenticate(b, request)
  }

  /** The scheme-tagged handlers whose `authenticate` runs during `Authenticate(c, request)`, in call order. */
  ghost function Invoked(c: CompoundHandler, request: RequestView): seq<HandlerWithScheme> {
    match c
    case Single(e) => [e]
    case Pair(a, b) =>
      if Authenticate(a, request).Ok? then Invoked(a, request) else Invoked(a, request) + Invoked(b, request)
  }

  /** `challenge(scheme)` / `forbid(scheme)`: first Some wins, a leaf answers only to its own scheme. */
  function Lookup(c: CompoundHandler, scheme: string, op: Operation): (r: Option<AuthResponse>)
    ensures r.None? <==> scheme !in Schemes(c)
  {
    match c
    case Single(e) =>
      assert Schemes(c) == [e.scheme];
      if scheme == e.scheme then Some(Respond(e.handler, op)) else None
    case Pair(a, b) =>
      assert Schemes(c) == Schemes(a) + Schemes(b);
      var response := Lookup(a, scheme, op);
      if response.Some? then response else Lookup(b, scheme, op)
  }

  /** `CompoundAuthenticationHandler::challenge`: the challenge of the earliest registration of `scheme`. */
  function Challenge(c: CompoundHandler, scheme: string): (r: Option<AuthResponse>)
    ensures r.None? <==> scheme !in Schemes(c)
    ensures r.Some? ==> exists k :: IsFirstMatch(Entries(c), scheme, k) && r.value == Entries(c)[k].handler.challenge
  {
    LookupIsFirstMatch(c, scheme, ChallengeOp);
    Lookup(c, scheme, ChallengeOp)
  }

  /** `CompoundAuthenticationHandler::forbid`: the forbid response of the earliest registration of `scheme`. */
  function Forbid(c: CompoundHandler, scheme: string): (r: Option<AuthResponse>)
    ensures r.None? <==> scheme !in Schemes(c)
    ensures r.Some? ==> exists k :: IsFirstMatch(Entries(c), scheme, k) && r.value == Entries(c)[k].handler.forbid
  {
    LookupIsFirstMatch(c, scheme, ForbidOp);
    Lookup(c, scheme, ForbidOp)
  }

  /** `k` is the position of the earliest registration of `scheme`. */
  ghost predicate IsFirstMatch(es: seq<HandlerWithScheme>, scheme: string, k: int) {
    0 <= k < |es| && es[k].scheme == scheme && forall j :: 0 <= j < k ==> es[j].scheme != scheme
  }

  /** A single tagged handler forwards `authenticate` unchanged. */
  lemma SingleAuthenticateForwards(e: HandlerWithScheme, request: RequestView)
    ensures Authenticate(Single(e), request) == e.handler.authenticate(request)
  {
  }

  /** A single tagged handler answers challenge/forbid exactly for its own scheme. */
  lemma SingleLookupMatchesScheme(e: HandlerWithScheme, scheme: string)
    ensures Challenge(Single(e), scheme).Some? <==> scheme == e.scheme
    ensures Forbid(Single(e), scheme).Some? <==> scheme == e.scheme
    ensures scheme == e.scheme ==> Challenge(Single(e), scheme) == Some(e.handler.challenge)
    ensures scheme == e.scheme ==> Forbid(Single(e), scheme) == Some(e.handler.forbid)
  {
  }

  /** A pair returns its first branch's success without invoking the second branch. */
  lemma PairFirstSuccessWins(a: CompoundHandler, b: CompoundHandler, request: RequestView)
    requires Authenticate(a, request).Ok?
    ensures Authenticate(Pair(a, b), request) == Authenticate(a, request)
    ensures Invoked(Pair(a, b), request) == Invoked(a, request)
  {
  }

  /** On either error kind the pair's result is the second branch's result, error kind included. */
  lemma PairFallsThroughOnError(a: CompoundHandler, b: CompoundHandler, request: RequestView)
    requires Authenticate(a, request).Err?
    ensures Authenticate(Pair(a, b), request) == Authenticate(b, request)
    ensures Invoked(Pair(a, b), request) == Invoked(a, request) + Invoked(b, request)
  {
  }

  /**
   * The shape of a first-success walk over registrations `es`: the handlers invoked
   * are a non-empty prefix, every one but the last failed, the result is the last
   * one's, and the walk stops before the end only on success.
   */
  ghost predicate FirstSuccessWalk(es: seq<HandlerWithScheme>, request: RequestView,
                                   invoked: seq<HandlerWithScheme>, result: AuthenticationResult) {
    && 1 <= |invoked| <= |es|
    && invoked == es[..|invoked|]
    && result == es[|invoked| - 1].handler.authenticate(request)
    && (forall j :: 0 <= j < |invoked| - 1 ==> es[j].handler.authenticate(request).Err?)
    && (result.Err? ==> |invoked| == |es|)
  }

  lemma WalkStopsInFirst(ea: seq<HandlerWithScheme>, eb: seq<HandlerWithScheme>, request: RequestView,
                         ia: seq<HandlerWithScheme>, ra: AuthenticationResult)
    requires FirstSuccessWalk(ea, request, ia, ra) && ra.Ok?
    ensures FirstSuccessWalk(ea + eb, request, ia, ra)
  {
    assert (ea + eb)[..|ia|] == ea[..|ia|];
    assert forall j :: 0 <= j < |ia| ==> (ea + eb)[j] == ea[j];
  }

  lemma WalkContinuesInSecond(ea: seq<HandlerWithScheme>, eb: seq<HandlerWithScheme>, request: RequestView,
                              ia: seq<HandlerWithScheme>, ra: AuthenticationResult,
                              ib: seq<HandlerWithScheme>, rb: AuthenticationResult)
    requires FirstSuccessWalk(ea, request, ia, ra) && ra.Err?
    requires FirstSuccessWalk(eb, request, ib, rb)
    ensures FirstSuccessWalk(ea + eb, request, ia + ib, rb)
  {
    var es := ea + eb;
    assert ia == ea;
    assert es[..|ia| + |ib|] == ea + eb[..|ib|];
    assert es[|ia| + |ib| - 1] == eb[|ib| - 1];
    forall j | 0 <= j < |ia| + |ib| - 1
      ensures es[j].handler.authenticate(request).Err?
    {
      if j < |ea| {
        assert es[j] == ea[j];
      } else {
        assert es[j] == eb[j - |ea|];
      }
    }
  }

  /** Registrations determine the walk: two first-success walks over the same registrations agree. */
  lemma FirstSuccessWalkIsUnique(es: seq<HandlerWithScheme>, request: RequestView,
                                 i1: seq<HandlerWithScheme>, r1: AuthenticationResult,
                                 i2: seq<HandlerWithScheme>, r2: AuthenticationResult)
    requires FirstSuccessWalk(es, request, i1, r1) && FirstSuccessWalk(es, request, i2, r2)
    ensures i1 == i2 && r1 == r2
  {
  }

  /**
   * Whatever the tree's shape, authentication is a first-success walk over the
   * registrations in order: later handlers run only after every earlier one failed,
   * and an error result is the last handler's own error.
   */
  lemma {:induction false} AuthenticateIsFirstSuccess(c: CompoundHandler, request: RequestView)
    ensures FirstSuccessWalk(Entries(c), request, Invoked(c, request), Authenticate(c, request))
  {
    match c
    case Single(e) =>
    case Pair(a, b) =>
      AuthenticateIsFirstSuccess(a, request);
      if Authenticate(a, request).Ok? {
        WalkStopsInFirst(Entries(a), Entries(b), request, Invoked(a, request), Authenticate(a, request));
      } else {
        AuthenticateIsFirstSuccess(b, request);
        WalkContinuesInSecond(Entries(a), Entries(b), request, Invoked(a, request), Authenticate(a, request),
                              Invoked(b, request), Authenticate(b, request));
      }
  }

  /**
   * Named lookup: None exactly when no handler at any depth has the scheme;
   * otherwise the response of the earliest registration of that scheme.
   */
  lemma {:induction false} LookupIsFirstMatch(c: CompoundHandler, scheme: string, op: Operation)
    ensures Lookup(c, scheme, op).None? <==> scheme !in Schemes(c)
    ensures Lookup(c, scheme, op).Some? ==>
      exists k :: IsFirstMatch(Entries(c), scheme, k) && Lookup(c, scheme, op) == Some(Respond(Entries(c)[k].handler, op))
  {
    match c
    case Single(e) =>
      assert Schemes(c) == [e.scheme];
      if scheme == e.scheme {
        assert IsFirstMatch(Entries(c), scheme, 0);
      }
    case Pair(a, b) =>
      LookupIsFirstMatch(a, scheme, op);
      LookupIsFirstMatch(b, scheme, op);
      var ea, eb := Entries(a), Entries(b);
      assert Schemes(c) == Schemes(a) + Schemes(b);
      if Lookup(a, scheme, op).Some? {
        var k :| IsFirstMatch(ea, scheme, k) && Lookup(a, scheme, op) == Some(Respond(ea[k].handler, op));
        assert IsFirstMatch(Entries(c), scheme, k);
      } else if Lookup(b, scheme, op).Some? {
        var k :| IsFirstMatch(eb, scheme, k) && Lookup(b, scheme, op) == Some(Respond(eb[k].handler, op));
        forall j | 0 <= j < |ea| ensures ea[j].scheme != scheme {
          assert ea[j].scheme == Schemes(a)[j];
        }
        assert Entries(c)[|ea| + k] == eb[k];
        assert IsFirstMatch(Entries(c), scheme, |ea| + k);
      }
  }

  /** The first match is unique, so when one exists the lookup is fully determined by the registrations. */
  lemma FirstMatchIsUnique(es: seq<HandlerWithScheme>, scheme: string, k1: int, k2: int)
    requires IsFirstMatch(es, scheme, k1) && IsFirstMatch(es, scheme, k2)
    ensures k1 == k2
  {
  }

  /** Nesting does not matter: two trees with the same registrations behave alike. */
  lemma {:induction false} SameRegistrationsSameBehaviour(c1: CompoundHandler, c2: CompoundHandler, request: RequestView, scheme: string, op: Operation)
    requires Entries(c1) == Entries(c2)
    ensures Authenticate(c1, request) == Authenticate(c2, request)
    ensures Invoked(c1, request) == Invoked(c2, request)
    ensures Lookup(c1, scheme, op) == Lookup(c2, scheme, op)
  {
    AuthenticateIsFirstSuccess(c1, request);
    AuthenticateIsFirstSuccess(c2, request);
    FirstSuccessWalkIsUnique(Entries(c1), request, Invoked(c1, request), Authenticate(c1, request),
                             Invoked(c2, request), Authenticate(c2, request));
    LookupIsFirstMatch(c1, scheme, op);
    LookupIsFirstMatch(c2, scheme, op);
    assert Schemes(c1) == Schemes(c2);
  }

  // ---------------------------------------------------------------------------
  // The service

  datatype AuthenticationService = AuthenticationService(handler: CompoundHandler, defaultScheme: string)

  /** The outcome of a call that may panic: the value it returned, or the panic message. */
  datatype Panicking<T> = Returned(value: T) | Panic(message: string)

  /** `scheme.unwrap_or(&self.default_scheme)`. */
  function ResolveScheme(service: AuthenticationService, scheme: Option<string>): string {
    scheme.UnwrapOr(service.defaultScheme)
  }

  /**
   * `AuthenticationService::challenge` / `forbid`: the response of the earliest
   * registration of the resolved scheme, or a panic when none is registered.
   */
  function ServiceRespond(service: AuthenticationService, scheme: Option<string>, op: Operation): (r: Panicking<AuthResponse>)
    ensures var name := ResolveScheme(service, scheme);
      && (scheme.None? ==> name == service.defaultScheme)
      && (scheme.Some? ==> name == scheme.value)
      && (r.Panic? <==> name !in Schemes(service.handler))
      && (r.Panic? ==> r.message == "Scheme " + name + " is not configured")
      && (r.Returned? ==> exists k :: IsFirstMatch(Entries(service.handler), name, k) &&
                                     r.value == Respond(Entries(service.handler)[k].handler, op))
  {
    var name := ResolveScheme(service, scheme);
    LookupIsFirstMatch(service.handler, name, op);
    match Lookup(service.handler, name, op)
    case Some(response) => Returned(response)
    case None => Panic("Scheme " + name + " is not configured")
  }

  /** `AuthenticationService::challenge`: the named (or default) scheme's challenge, or a panic. */
  function ServiceChallenge(service: AuthenticationService, scheme: Option<string>): (r: Panicking<AuthResponse>)
    ensures var name := if scheme.Some? then scheme.value else service.defaultScheme;
      && (r.Panic? <==> name !in Schemes(service.handler))
      && (r.Panic? ==> r.message == "Scheme " + name + " is not configured")
      && (r.Returned? ==> exists k :: IsFirstMatch(Entries(service.handler), name, k) &&
                                     r.value == Entries(service.handler)[k].handler.challenge)
  {
    ServiceRespond(service, scheme, ChallengeOp)
  }

  /** `AuthenticationService::forbid`: the named (or default) scheme's forbid response, or a panic. */
  function ServiceForbid(service: AuthenticationService, scheme: Option<string>): (r: Panicking<AuthResponse>)
    ensures var name := if scheme.Some? then scheme.value else service.defaultScheme;
      && (r.Panic? <==> name !in Schemes(service.handler))
      && (r.Panic? ==> r.message == "Scheme " + name + " is not configured")
      && (r.Returned? ==> exists k :: IsFirstMatch(Entries(service.handler), name, k) &&
                                     r.value == Entries(service.handler)[k].handler.forbid)
  {
    ServiceRespond(service, scheme, ForbidOp)
  }

  /**
   * `set_extension` of the authentication result: the principal on success, the error on
   * failure. Each kind has its own slot, so a failure never removes a principal stored earlier.
   */
  function StoreResult(extensions: Extensions, result: AuthenticationResult): (e: Extensions)
    ensures e.principal.Some? <==> result.Ok? || extensions.principal.Some?
    ensures e.error.Some? <==> result.Err? || extensions.error.Some?
    ensures result.Ok? ==> e.principal == Some(result.value) && e.error == extensions.error
    ensures result.Err? ==> e.error == Some(result.error) && e.principal == extensions.principal
  {
    match result
    case Ok(principal) => extensions.(principal := Some(principal))
    case Err(error) => extensions.(error := Some(error))
  }

  /** `AuthenticationService::authenticate`: runs the tree and records its result on the request. */
  method ServiceAuthenticate(service: AuthenticationService, request: Request)
    modifies request
    ensures request.headers == old(request.headers)
    ensures request.extensions == StoreResult(old(request.extensions), Authenticate(service.handler, old(request.View())))
    ensures Authenticate(service.handler, old(request.View())).Ok? ==>
      request.extensions.principal == Some(Authenticate(service.handler, old(request.View())).value) &&
      request.extensions.error == old(request.extensions.error)
    ensures Authenticate(service.handler, old(request.View())).Err? ==>
      request.extensions.error == Some(Authenticate(service.handler, old(request.View())).error) &&
      request.extensions.principal == old(request.extensions.principal)
  {
    var result := Authenticate(service.handler, request.View());
    match result {
      case Ok(user) =>
        request.extensions := request.extensions.(principal := Some(user));
      case Err(err) =>
        request.extensions := request.extensions.(error := Some(err));
    }
  }

  // ---------------------------------------------------------------------------
  // The builder

  /** `AuthenticationServiceBuilder<()>`: no handler yet, and no default scheme can be set on it. */
  datatype EmptyServiceBuilder = EmptyServiceBuilder(defaultScheme: Option<string>)

  /** `AuthenticationServiceBuilder<Handler>` once at least one handler is registered. */
  datatype ServiceBuilder = ServiceBuilder(handler: CompoundHandler, defaultScheme: Option<string>)

  /** `AuthenticationServiceBuilder::new`: no default scheme, and none can be set before a handler is added. */
  function NewServiceBuilder(): (b: EmptyServiceBuilder)
    ensures b.defaultScheme.None?
  {
    EmptyServiceBuilder(None)
  }

  /** The first `add_authentication_handler`: the handler alone, carrying the builder's default over. */
  function AddFirstHandler(b: EmptyServiceBuilder, scheme: string, handler: Handler): (r: ServiceBuilder)
    ensures Entries(r.handler) == [HandlerWithScheme(scheme, handler)]
    ensures r.defaultScheme == b.defaultScheme
  {
    ServiceBuilder(Single(HandlerWithScheme(scheme, handler)), b.defaultScheme)
  }

  /** Every later `add_authentication_handler`: the new handler is tried after all earlier ones. */
  function AddHandler(b: ServiceBuilder, scheme: string, handler: Handler): (r: ServiceBuilder)
    ensures Entries(r.handler) == Entries(b.handler) + [HandlerWithScheme(scheme, handler)]
    ensures r.defaultScheme == b.defaultScheme
  {
    ServiceBuilder(Pair(b.handler, Single(HandlerWithScheme(scheme, handler))), b.defaultScheme)
  }

  /** `set_default_scheme`: replaces any earlier default; the builder then always builds. */
  function SetDefaultScheme(b: ServiceBuilder, scheme: string): (r: ServiceBuilder)
    ensures r.handler == b.handler && r.defaultScheme == Some(scheme)
    ensures Build(r) == Some(AuthenticationService(b.handler, scheme))
  {
    b.(defaultScheme := Some(scheme))
  }

  /** `build`: refuses without a default scheme, otherwise keeps the tree and the scheme. */
  function Build(b: ServiceBuilder): (r: Option<AuthenticationService>)
    ensures r.None? <==> b.defaultScheme.None?
    ensures r.Some? ==> r.value.handler == b.handler && Some(r.value.defaultScheme) == b.defaultScheme
  {
    match b.defaultScheme
    case None => None
    case Some(scheme) => Some(AuthenticationService(b.handler, scheme))
  }

  /** One call on a non-empty builder. */
  datatype BuilderStep = AddStep(scheme: string, handler: Handler) | DefaultStep(defaultScheme: string)

  function Apply(b: ServiceBuilder, step: BuilderStep): ServiceBuilder {
    match step
    case AddStep(scheme, handler) => AddHandler(b, scheme, handler)
    case DefaultStep(scheme) => SetDefaultScheme(b, scheme)
  }

  /** A chain of builder calls, applied left to right. */
  function ApplySteps(b: ServiceBuilder, steps: seq<BuilderStep>): ServiceBuilder
    decreases |steps|
  {
    if steps == [] then b else ApplySteps(Apply(b, steps[0]), steps[1..])
  }

  /** The registrations a chain of calls adds, in call order. */
  function AddedEntries(steps: seq<BuilderStep>): seq<HandlerWithScheme> {
    if steps == [] then []
    else if steps[0].AddStep? then [HandlerWithScheme(steps[0].scheme, steps[0].handler)] + AddedEntries(steps[1..])
    else AddedEntries(steps[1..])
  }

  /** The scheme of the last `set_default_scheme` call in the chain, if any. */
  function LastDefault(steps: seq<BuilderStep>): Option<string> {
    if steps == [] then None
    else if LastDefault(steps[1..]).Some? then LastDefault(steps[1..])
    else if steps[0].DefaultStep? then Some(steps[0].defaultScheme)
    else None
  }

  /** Registration order is preserved: the chain's handlers come after the builder's, in call order. */
  lemma {:induction false} ApplyStepsEntries(b: ServiceBuilder, steps: seq<BuilderStep>)
    ensures Entries(ApplySteps(b, steps).handler) == Entries(b.handler) + AddedEntries(steps)
    decreases |steps|
  {
    if steps != [] {
      var next := Apply(b, steps[0]);
      ApplyStepsEntries(next, steps[1..]);
      if steps[0].AddStep? {
        var e := HandlerWithScheme(steps[0].scheme, steps[0].handler);
        assert Entries(next.handler) == Entries(b.handler) + [e];
        assert AddedEntries(steps) == [e] + AddedEntries(steps[1..]);
        assert Entries(b.handler) + AddedEntries(steps) == (Entries(b.handler) + [e]) + AddedEntries(steps[1..]);
      } else {
        assert Entries(next.handler) == Entries(b.handler);
        assert AddedEntries(steps) == AddedEntries(steps[1..]);
      }
    }
  }

  /** The last default scheme set in the chain wins; a chain that sets none keeps the builder's. */
  lemma {:induction false} ApplyStepsDefault(b: ServiceBuilder, steps: seq<BuilderStep>)
    ensures ApplySteps(b, steps).defaultScheme == if LastDefault(steps).Some? then LastDefault(steps) else b.defaultScheme
    decreases |steps|
  {
    if steps != [] {
      var next := Apply(b, steps[0]);
      ApplyStepsDefault(next, steps[1..]);
      assert next.defaultScheme == if steps[0].DefaultStep? then Some(steps[0].defaultScheme) else b.defaultScheme;
    }
  }

  /**
   * A builder chain `new().add_authentication_handler(..)` followed by further calls
   * builds exactly when some call set a default scheme, and the service then tries
   * the handlers in registration order under the last default scheme set.
   */
  lemma {:induction false} BuildFromNew(scheme: string, handler: Handler, steps: seq<BuilderStep>)
    ensures var built := Build(ApplySteps(AddFirstHandler(NewServiceBuilder(), scheme, handler), steps));
      && (built.None? <==> LastDefault(steps).None?)
      && (built.Some? ==>
            && Entries(built.value.handler) == [HandlerWithScheme(scheme, handler)] + AddedEntries(steps)
            && built.value.defaultScheme == LastDefault(steps).value)
  {
    ApplyStepsEntries(AddFirstHandler(NewServiceBuilder(), scheme, handler), steps);
    ApplyStepsDefault(AddFirstHandler(NewServiceBuilder(), scheme, handler), steps);
  }
}
