/**
 * The pipeline end to end: a service built with JWT bearer handlers, the service's
 * authenticate step recording its result on the request, and a role policy
 * deciding on the recorded principal.
 */
module Pipeline {
  import opened Results
  import opened Http
  import opened Principal
  import opened Authentication
  import opened Authorization
  import opened Jwt

  /** `new().add_authentication_handler(scheme, jwt).set_default_scheme(scheme).build().unwrap()`. */
  function JwtService(h: JwtBearerHandler, serialize: Serializer, scheme: string): (service: AuthenticationService)
    ensures Entries(service.handler) == [HandlerWithScheme(scheme, AsHandler(h, serialize))]
    ensures service.defaultScheme == scheme
  {
    Build(SetDefaultScheme(AddFirstHandler(NewServiceBuilder(), scheme, AsHandler(h, serialize)), scheme)).value
  }

  /** A policy built from `new()` with one `require_role` per listed role. */
  function RolePolicy(service: AuthenticationService, roles: seq<string>): AuthorizationPolicy {
    BuildPolicy(RequireRoles(NewPolicyBuilder(), roles), service)
  }

  /** The request as the policy sees it after the service's authenticate step. */
  function AfterAuthentication(service: AuthenticationService, request: RequestView): RequestView {
    request.(extensions := StoreResult(request.extensions, Authentication.Authenticate(service.handler, request)))
  }

  /** No Authorization header: NoResult is recorded, no principal, and the policy answers with the 401 challenge. */
  lemma {:induction false} NoHeaderIsChallenged(h: JwtBearerHandler, serialize: Serializer, scheme: string,
                                                roles: seq<string>, headers: HeaderMap)
    requires AUTHORIZATION !in headers
    ensures var service := JwtService(h, serialize, scheme);
      var after := AfterAuthentication(service, RequestView(headers, Extensions(None, None)));
      && after.extensions == Extensions(None, Some(NoResult))
      && Authorize(RolePolicy(service, roles), after) == Returned(Err(JwtChallenge()))
  {
    var service := JwtService(h, serialize, scheme);
    assert Schemes(service.handler) == [scheme];
    assert Lookup(service.handler, scheme, ChallengeOp) == Some(JwtChallenge());
  }

  /** A valid token whose only role is another one: a principal is recorded and the policy answers 403. */
  lemma {:induction false} WrongRoleIsForbidden(h: JwtBearerHandler, serialize: Serializer, scheme: string,
                                                headers: HeaderMap, token: string, role: string, granted: string)
    requires BearerToken(headers) == Some(token)
    requires h.decode(token) == Ok([(ROLE, String(granted))])
    requires granted != role
    ensures var service := JwtService(h, serialize, scheme);
      var after := AfterAuthentication(service, RequestView(headers, Extensions(None, None)));
      && after.extensions.principal == Some(AuthenticatedPrincipal([Claim(ROLE, granted)]))
      && Authorize(RolePolicy(service, [role]), after) == Returned(Err(JwtForbid()))
  {
    var service := JwtService(h, serialize, scheme);
    var principal := AuthenticatedPrincipal([Claim(ROLE, granted)]);
    assert ToClaims([(ROLE, String(granted))], serialize) == principal.claims;
    RequireRolesMeaning([role], principal);
    assert !IsInRole(principal, role);
    assert Lookup(service.handler, scheme, ForbidOp) == Some(JwtForbid());
  }

  /** A valid token carrying the required role: the principal is recorded and the policy lets the request through. */
  lemma {:induction false} RightRoleIsAuthorized(h: JwtBearerHandler, serialize: Serializer, scheme: string,
                                                 headers: HeaderMap, token: string, role: string)
    requires BearerToken(headers) == Some(token)
    requires h.decode(token) == Ok([(ROLE, String(role))])
    ensures var service := JwtService(h, serialize, scheme);
      var after := AfterAuthentication(service, RequestView(headers, Extensions(None, None)));
      && after.extensions.principal == Some(AuthenticatedPrincipal([Claim(ROLE, role)]))
      && Authorize(RolePolicy(service, [role]), after) == Returned(Ok(()))
  {
    var principal := AuthenticatedPrincipal([Claim(ROLE, role)]);
    assert ToClaims([(ROLE, String(role))], serialize) == principal.claims;
    RequireRolesMeaning([role], principal);
    assert IsRoleClaim(principal.claims[0], role);
  }

  /**
   * Two bearer handlers with different keys: a token the first one rejects (Fail)
   * is still accepted by the second, and challenge/forbid by name reach the right handler.
   */
  lemma {:induction false} SecondKeyStillTried(h1: JwtBearerHandler, h2: JwtBearerHandler, serialize: Serializer,
                                               scheme1: string, scheme2: string,
                                               request: RequestView, token: string, entries: seq<(string, Json)>)
    requires scheme1 != scheme2
    requires BearerToken(request.headers) == Some(token)
    requires h1.decode(token).Err? && h2.decode(token) == Ok(entries)
    ensures var b := AddHandler(AddFirstHandler(NewServiceBuilder(), scheme1, AsHandler(h1, serialize)), scheme2, AsHandler(h2, serialize));
      && Authentication.Authenticate(b.handler, request) == Ok(AuthenticatedPrincipal(ToClaims(entries, serialize)))
      && Invoked(b.handler, request) == Entries(b.handler)
      && Challenge(b.handler, scheme2) == Some(JwtChallenge())
      && Forbid(b.handler, scheme1) == Some(JwtForbid())
  {
    var e1, e2 := HandlerWithScheme(scheme1, AsHandler(h1, serialize)), HandlerWithScheme(scheme2, AsHandler(h2, serialize));
    var b := AddHandler(AddFirstHandler(NewServiceBuilder(), scheme1, AsHandler(h1, serialize)), scheme2, AsHandler(h2, serialize));
    assert b.handler == Pair(Single(e1), Single(e2));
    assert Lookup(Single(e1), scheme2, ChallengeOp) == None;
    assert Lookup(Single(e2), scheme2, ChallengeOp) == Some(Respond(e2.handler, ChallengeOp));
    assert Lookup(Single(e1), scheme1, ForbidOp) == Some(Respond(e1.handler, ForbidOp));
  }
}
