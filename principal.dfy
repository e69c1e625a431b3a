/** The authenticated identity: a list of string claims, and the role check over it. */
module Principal {

  datatype Claim = Claim(kind: string, value: string)

  datatype AuthenticatedPrincipal = AuthenticatedPrincipal(claims: seq<Claim>)

  const ROLE: string := "role"

  /** The claim that grants `role`: kind exactly "role" and value exactly `role`. */
  predicate IsRoleClaim(c: Claim, role: string) {
    c.kind == ROLE && c.value == role
  }

  /** The `iter().any(..)` search, front to back. */
  function AnyRoleClaim(claims: seq<Claim>, role: string): (r: bool)
    ensures r <==> exists i :: 0 <= i < |claims| && IsRoleClaim(claims[i], role)
  {
    if claims == [] then false
    else if IsRoleClaim(claims[0], role) then true
    else
      var rest := AnyRoleClaim(claims[1..], role);
      assert forall i :: 1 <= i < |claims| ==> claims[i] == claims[1..][i - 1];
      rest
  }

  /** `AuthenticatedPrincipal::is_in_role`. */
  function IsInRole(p: AuthenticatedPrincipal, role: string): (r: bool)
    ensures r <==> exists c :: c in p.claims && IsRoleClaim(c, role)
  {
    AnyRoleClaim(p.claims, role)
  }

  /** The claims of kind "role"; every other claim is dropped. */
  function RoleClaims(claims: seq<Claim>): (r: seq<Claim>)
    ensures forall c :: c in r <==> c in claims && c.kind == ROLE
  {
    if claims == [] then []
    else if claims[0].kind == ROLE then [claims[0]] + RoleClaims(claims[1..])
    else RoleClaims(claims[1..])
  }

  /** A principal with no claims holds no role. */
  lemma NoClaimsNoRole(role: string)
    ensures !IsInRole(AuthenticatedPrincipal([]), role)
  {
  }

  /** Only the claims of kind "role" decide the answer. */
  lemma OnlyRoleClaimsMatter(p: AuthenticatedPrincipal, role: string)
    ensures IsInRole(p, role) == IsInRole(AuthenticatedPrincipal(RoleClaims(p.claims)), role)
  {
  }

  /** Matching is exact: a claim whose kind or value differs from "role"/`role` in any character never grants it. */
  lemma ExactMatchOnly(p: AuthenticatedPrincipal, c: Claim, role: string)
    requires c.kind != ROLE || c.value != role
    ensures IsInRole(AuthenticatedPrincipal(p.claims + [c]), role) == IsInRole(p, role)
    ensures IsInRole(AuthenticatedPrincipal([c] + p.claims), role) == IsInRole(p, role)
  {
  }

  /** The answer depends only on which claims are present, not on their order. */
  lemma {:induction false} OrderIndependent(p: AuthenticatedPrincipal, q: AuthenticatedPrincipal, role: string)
    requires multiset(p.claims) == multiset(q.claims)
    ensures IsInRole(p, role) == IsInRole(q, role)
  {
    forall c ensures c in p.claims <==> c in q.claims {
      assert c in p.claims <==> c in multiset(p.claims);
      assert c in q.claims <==> c in multiset(q.claims);
    }
  }

  /** Adding claims never takes a role away. */
  lemma Monotone(p: AuthenticatedPrincipal, extra: seq<Claim>, role: string)
    requires IsInRole(p, role)
    ensures IsInRole(AuthenticatedPrincipal(p.claims + extra), role)
    ensures IsInRole(AuthenticatedPrincipal(extra + p.claims), role)
  {
  }
}
