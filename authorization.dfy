/**
 * Authorization: the requirement algebra (`()`, the pair `(R1, R2)`,
 * `IsInRoleRequirement` and any other implementation of the requirement trait),
 * the two-checkpoint policy decision, and the policy builder.
 */
module Authorization {
  import opened Results
  import opened Http
  import opened Principal
  import opened Authentication

  /**
   * A requirement tree: `()`, a pair checked left first, a role check, or a
   * requirement defined outside the library, seen through its verdict.
   */
  datatype Requirement =
    | Always
    | Both(first: Requirement, second: Requirement)
    | IsInRoleRequirement(role: string)
    | Custom(check: AuthenticatedPrincipal -> bool)

  /** `AuthorizationRequirement::authorize`; `&&` skips the second branch when the first is false. */
  function Evaluate(r: Requirement, p: AuthenticatedPrincipal): (ok: bool)
    ensures ok ==> InAllRoles(p, Roles(r))
  {
    match r
    case Always => true
    case Both(a, b) =>
      InAllRolesConcat(p, Roles(a), Roles(b));
      Evaluate(a, p) && Evaluate(b, p)
    case IsInRoleRequirement(role) =>
      assert Roles(r)[0] == role;
      IsInRole(p, role)
    case Custom(check) => check(p)
  }

  /** The role checks of a requirement tree, left to right. */
  function Roles(r: Requirement): seq<string> {
    match r
    case Always => []
    case Both(a, b) => Roles(a) + Roles(b)
    case IsInRoleRequirement(role) => [role]
    case Custom(_) => []
  }

  /** The tree is built from `()`, pairs and role checks only. */
  predicate RoleOnly(r: Requirement) {
    match r
    case Always => true
    case Both(a, b) => RoleOnly(a) && RoleOnly(b)
    case IsInRoleRequirement(_) => true
    case Custom(_) => false
  }

  /** The role checks that `Evaluate(r, p)` actually performs, in order. */
  ghost function Checked(r: Requirement, p: AuthenticatedPrincipal): seq<string> {
    match r
    case Always => []
    case Both(a, b) => if Evaluate(a, p) then Checked(a, p) + Checked(b, p) else Checked(a, p)
    case IsInRoleRequirement(role) => [role]
    case Custom(_) => []
  }

  /** `p` is in every role of `roles`. */
  predicate InAllRoles(p: AuthenticatedPrincipal, roles: seq<string>) {
    forall i :: 0 <= i < |roles| ==> IsInRole(p, roles[i])
  }

  lemma InAllRolesConcat(p: AuthenticatedPrincipal, xs: seq<string>, ys: seq<string>)
    ensures InAllRoles(p, xs + ys) <==> InAllRoles(p, xs) && InAllRoles(p, ys)
  {
    if InAllRoles(p, xs) && InAllRoles(p, ys) {
      forall i | 0 <= i < |xs + ys| ensures IsInRole(p, (xs + ys)[i]) {
        if i < |xs| {
          assert (xs + ys)[i] == xs[i];
        } else {
          assert (xs + ys)[i] == ys[i - |xs|];
        }
      }
    }
    if InAllRoles(p, xs + ys) {
      forall i | 0 <= i < |xs| ensures IsInRole(p, xs[i]) {
        assert (xs + ys)[i] == xs[i];
      }
      forall i | 0 <= i < |ys| ensures IsInRole(p, ys[i]) {
        assert (xs + ys)[|xs| + i] == ys[i];
      }
    }
  }

  /**
   * A tree of `()`, pairs and role checks holds exactly when the principal is in every
   * role it names (the other direction holds for every tree: see `Evaluate`).
   */
  lemma {:induction false} EvaluateMeansAllRoles(r: Requirement, p: AuthenticatedPrincipal)
    ensures RoleOnly(r) ==> (Evaluate(r, p) <==> InAllRoles(p, Roles(r)))
  {
    match r
    case Always =>
    case Custom(_) =>
    case IsInRoleRequirement(role) =>
      assert Roles(r)[0] == role;
    case Both(a, b) =>
      EvaluateMeansAllRoles(a, p);
      EvaluateMeansAllRoles(b, p);
      InAllRolesConcat(p, Roles(a), Roles(b));
  }

  /** Checks `cs` with outcome `ok`: all but the last passed, and the last passed exactly when `ok`. */
  ghost predicate PassPattern(p: AuthenticatedPrincipal, cs: seq<string>, ok: bool) {
    && (|cs| >= 1 ==> InAllRoles(p, cs[..|cs| - 1]))
    && (ok ==> InAllRoles(p, cs))
    && (!ok ==> |cs| >= 1 && !IsInRole(p, cs[|cs| - 1]))
  }

  /** The checks made for `r` are a prefix of its role checks and stop at the first failing one. */
  ghost predicate StopsAtFirstFailure(r: Requirement, p: AuthenticatedPrincipal) {
    && |Checked(r, p)| <= |Roles(r)|
    && Checked(r, p) == Roles(r)[..|Checked(r, p)|]
    && (Evaluate(r, p) ==> |Checked(r, p)| == |Roles(r)|)
    && PassPattern(p, Checked(r, p), Evaluate(r, p))
  }

  lemma PairStopsWhenFirstFails(a: Requirement, b: Requirement, p: AuthenticatedPrincipal)
    requires StopsAtFirstFailure(a, p) && !Evaluate(a, p)
    ensures StopsAtFirstFailure(Both(a, b), p)
  {
    var ca := Checked(a, p);
    assert Roles(Both(a, b))[..|ca|] == Roles(a)[..|ca|];
  }

  lemma PairStopsWhenFirstHolds(a: Requirement, b: Requirement, p: AuthenticatedPrincipal)
    requires StopsAtFirstFailure(a, p) && StopsAtFirstFailure(b, p) && Evaluate(a, p)
    ensures StopsAtFirstFailure(Both(a, b), p)
  {
    var ca, cb := Checked(a, p), Checked(b, p);
    assert Checked(Both(a, b), p) == ca + cb;
    assert ca == Roles(a);
    PrefixOfConcat(Roles(a), Roles(b), |cb|);
    PassPatternAfterPasses(p, ca, cb, Evaluate(b, p));
  }

  lemma PrefixOfConcat(xs: seq<string>, ys: seq<string>, n: nat)
    requires n <= |ys|
    ensures (xs + ys)[..|xs| + n] == xs + ys[..n]
  {
  }

  /** Checks that all passed, followed by checks `cb`, have the pass/fail pattern of `cb`. */
  lemma PassPatternAfterPasses(p: AuthenticatedPrincipal, ca: seq<string>, cb: seq<string>, ok: bool)
    requires InAllRoles(p, ca) && PassPattern(p, cb, ok)
    ensures PassPattern(p, ca + cb, ok)
  {
    var cs := ca + cb;
    InAllRolesConcat(p, ca, cb);
    if cb == [] {
      assert cs == ca;
      if |ca| >= 1 {
        assert ca == ca[..|ca| - 1] + [ca[|ca| - 1]];
        InAllRolesConcat(p, ca[..|ca| - 1], [ca[|ca| - 1]]);
      }
    } else {
      assert cs[..|cs| - 1] == ca + cb[..|cb| - 1];
      InAllRolesConcat(p, ca, cb[..|cb| - 1]);
      assert cs[|cs| - 1] == cb[|cb| - 1];
    }
  }

  /**
   * Short-circuit evaluation: the checks performed are a prefix of the tree's role
   * checks; all but the last succeeded; the walk stops before the end only at a
   * failing check, and the requirement holds exactly when every check was made and passed.
   */
  lemma {:induction false} EvaluationStopsAtFirstFailure(r: Requirement, p: AuthenticatedPrincipal)
    ensures RoleOnly(r) ==> var cs, n := Checked(r, p), |Checked(r, p)|;
      && n <= |Roles(r)|
      && cs == Roles(r)[..n]
      && (n >= 1 ==> InAllRoles(p, cs[..n - 1]))
      && (Evaluate(r, p) ==> n == |Roles(r)| && InAllRoles(p, cs))
      && (!Evaluate(r, p) ==> n >= 1 && !IsInRole(p, cs[n - 1]))
  {
    StopsAtFirstFailureByInduction(r, p);
  }

  lemma {:induction false} StopsAtFirstFailureByInduction(r: Requirement, p: AuthenticatedPrincipal)
    ensures RoleOnly(r) ==> StopsAtFirstFailure(r, p)
  {
    match r
    case Always =>
    case Custom(_) =>
    case IsInRoleRequirement(role) =>
      assert Checked(r, p)[..0] == [];
    case Both(a, b) =>
      if RoleOnly(r) {
        StopsAtFirstFailureByInduction(a, p);
        if Evaluate(a, p) {
          StopsAtFirstFailureByInduction(b, p);
          PairStopsWhenFirstHolds(a, b, p);
        } else {
          PairStopsWhenFirstFails(a, b, p);
        }
      }
  }

  /** The right branch of a pair is not evaluated when the left branch is false. */
  lemma BothShortCircuits(a: Requirement, b: Requirement, p: AuthenticatedPrincipal)
    requires !Evaluate(a, p)
    ensures !Evaluate(Both(a, b), p)
    ensures Checked(Both(a, b), p) == Checked(a, p)
  {
  }

  /** Pairing is associative, in the result and in the checks performed. */
  lemma BothIsAssociative(a: Requirement, b: Requirement, c: Requirement, p: AuthenticatedPrincipal)
    ensures Evaluate(Both(Both(a, b), c), p) == Evaluate(Both(a, Both(b, c)), p)
    ensures Checked(Both(Both(a, b), c), p) == Checked(Both(a, Both(b, c)), p)
  {
  }

  /** `()` is a left and right identity of pairing and always holds. */
  lemma AlwaysIsIdentity(r: Requirement, p: AuthenticatedPrincipal)
    ensures Evaluate(Always, p)
    ensures Evaluate(Both(Always, r), p) == Evaluate(r, p) == Evaluate(Both(r, Always), p)
    ensures Checked(Both(Always, r), p) == Checked(r, p) == Checked(Both(r, Always), p)
  {
  }

  // ---------------------------------------------------------------------------
  // The policy

  datatype AuthorizationPolicy = AuthorizationPolicy(authService: AuthenticationService, requirement: Requirement)

  /** `Err(response)` for a response the service returned; a service panic propagates. */
  function Rejected(response: Panicking<AuthResponse>): Panicking<Result<(), AuthResponse>> {
    match response
    case Returned(r) => Returned(Err(r))
    case Panic(message) => Panic(message)
  }

  /**
   * `AuthorizationPolicy::authorize`: no principal on the request gives the default
   * scheme's challenge; a principal that fails the requirement gives its forbid.
   */
  function Authorize(policy: AuthorizationPolicy, request: RequestView): (r: Panicking<Result<(), AuthResponse>>)
    ensures r == Returned(Ok(())) <==>
      request.extensions.principal.Some? && Evaluate(policy.requirement, request.extensions.principal.value)
    ensures request.extensions.principal.None? ==>
      r == Rejected(ServiceChallenge(policy.authService, None))
    ensures request.extensions.principal.Some? && !Evaluate(policy.requirement, request.extensions.principal.value) ==>
      r == Rejected(ServiceForbid(policy.authService, None))
  {
    match request.extensions.principal
    case None => Rejected(ServiceChallenge(policy.authService, None))
    case Some(principal) =>
      if !Evaluate(policy.requirement, principal) then Rejected(ServiceForbid(policy.authService, None))
      else Returned(Ok(()))
  }

  /**
   * Without a principal the requirement is never consulted: any other requirement
   * gives the same answer, the default scheme's challenge or the service's panic.
   */
  lemma {:induction false} NoPrincipalIsChallenged(policy: AuthorizationPolicy, request: RequestView, other: Requirement)
    requires request.extensions.principal.None?
    ensures Authorize(policy, request) == Authorize(policy.(requirement := other), request)
    ensures Authorize(policy, request).Panic? <==> policy.authService.defaultScheme !in Schemes(policy.authService.handler)
    ensures Authorize(policy, request).Returned? ==>
      exists k :: IsFirstMatch(Entries(policy.authService.handler), policy.authService.defaultScheme, k) &&
                  Authorize(policy, request) == Returned(Err(Entries(policy.authService.handler)[k].handler.challenge))
  {
    var response := ServiceChallenge(policy.authService, None);
    if response.Returned? {
      var es := Entries(policy.authService.handler);
      var k :| IsFirstMatch(es, policy.authService.defaultScheme, k) && response.value == Respond(es[k].handler, ChallengeOp);
      assert Authorize(policy, request) == Returned(Err(es[k].handler.challenge));
    }
  }

  /** A principal that fails the requirement gets the default scheme's forbid response. */
  lemma {:induction false} FailedRequirementIsForbidden(policy: AuthorizationPolicy, request: RequestView)
    requires request.extensions.principal.Some?
    requires !Evaluate(policy.requirement, request.extensions.principal.value)
    ensures Authorize(policy, request).Panic? <==> policy.authService.defaultScheme !in Schemes(policy.authService.handler)
    ensures Authorize(policy, request).Returned? ==>
      exists k :: IsFirstMatch(Entries(policy.authService.handler), policy.authService.defaultScheme, k) &&
                  Authorize(policy, request) == Returned(Err(Entries(policy.authService.handler)[k].handler.forbid))
  {
    var response := ServiceForbid(policy.authService, None);
    if response.Returned? {
      var es := Entries(policy.authService.handler);
      var k :| IsFirstMatch(es, policy.authService.defaultScheme, k) && response.value == Respond(es[k].handler, ForbidOp);
      assert Authorize(policy, request) == Returned(Err(es[k].handler.forbid));
    }
  }

  // ---------------------------------------------------------------------------
  // The policy builder

  datatype PolicyBuilder = PolicyBuilder(requirement: Requirement)

  /** `AuthorizationPolicyBuilder::new`: starts from `()`, which admits every principal. */
  function NewPolicyBuilder(): (b: PolicyBuilder)
    ensures Roles(b.requirement) == [] && RoleOnly(b.requirement)
    ensures forall p :: Evaluate(b.requirement, p)
  {
    PolicyBuilder(Always)
  }

  /** `add_requirement`: the new requirement is checked after the earlier ones. */
  function AddRequirement(b: PolicyBuilder, r: Requirement): (result: PolicyBuilder)
    ensures Roles(result.requirement) == Roles(b.requirement) + Roles(r)
    ensures forall p :: Evaluate(result.requirement, p) <==> Evaluate(b.requirement, p) && Evaluate(r, p)
  {
    PolicyBuilder(Both(b.requirement, r))
  }

  /** `require_role`: the policy now also demands `role`, checked after the earlier requirements. */
  function RequireRole(b: PolicyBuilder, role: string): (result: PolicyBuilder)
    ensures Roles(result.requirement) == Roles(b.requirement) + [role]
    ensures RoleOnly(result.requirement) <==> RoleOnly(b.requirement)
    ensures forall p :: Evaluate(result.requirement, p) <==> Evaluate(b.requirement, p) && IsInRole(p, role)
  {
    AddRequirement(b, IsInRoleRequirement(role))
  }

  function BuildPolicy(b: PolicyBuilder, authService: AuthenticationService): (policy: AuthorizationPolicy)
    ensures policy.authService == authService && policy.requirement == b.requirement
  {
    AuthorizationPolicy(authService, b.requirement)
  }

  /** `require_role(roles[0])` … `require_role(roles[n-1])`, in that order. */
  function RequireRoles(b: PolicyBuilder, roles: seq<string>): PolicyBuilder
    decreases |roles|
  {
    if roles == [] then b else RequireRoles(RequireRole(b, roles[0]), roles[1..])
  }

  lemma {:induction false} RequireRolesAppends(b: PolicyBuilder, roles: seq<string>)
    ensures Roles(RequireRoles(b, roles).requirement) == Roles(b.requirement) + roles
    ensures RoleOnly(RequireRoles(b, roles).requirement) <==> RoleOnly(b.requirement)
    decreases |roles|
  {
    if roles != [] {
      RequireRolesAppends(RequireRole(b, roles[0]), roles[1..]);
      assert Roles(b.requirement) + roles == (Roles(b.requirement) + [roles[0]]) + roles[1..];
    }
  }

  /** A policy built from `new()` and a chain of `require_role` calls demands every listed role. */
  lemma {:induction false} RequireRolesMeaning(roles: seq<string>, p: AuthenticatedPrincipal)
    ensures Roles(RequireRoles(NewPolicyBuilder(), roles).requirement) == roles
    ensures Evaluate(RequireRoles(NewPolicyBuilder(), roles).requirement, p) <==>
      forall i :: 0 <= i < |roles| ==> IsInRole(p, roles[i])
  {
    RequireRolesAppends(NewPolicyBuilder(), roles);
    EvaluateMeansAllRoles(RequireRoles(NewPolicyBuilder(), roles).requirement, p);
  }
}
