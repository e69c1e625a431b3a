/**
 * The JWT bearer handler: it extracts the token from the Authorization header,
 * hands it to the decoder, and turns the decoded claim set into a principal.
 * The decoder (signature and claim validation) and JSON serialisation are
 * parameters: they belong to other libraries.
 */
module Jwt {
  import opened Results
  import opened Http
  import opened Principal
  import opened Authentication

  /** A `serde_json::Value`; numbers are kept as their literal text. */
  datatype Json =
    | Null
    | Bool(b: bool)
    | Number(literal: string)
    | String(s: string)
    | Array(items: seq<Json>)
    | Object(members: seq<(string, Json)>)

  /** `Value::to_string`. */
  type Serializer = Json -> string

  /** `jsonwebtoken::decode` with the handler's key and validation: the claim set, in map iteration order, or the error. */
  type Decoder = string -> Result<seq<(string, Json)>, Cause>

  /** `JwtBearerHandler`; its decoding key and validation options live inside `decode`. */
  datatype JwtBearerHandler = JwtBearerHandler(decode: Decoder)

  const BEARER_PREFIX: string := "Bearer "

  /**
   * The token of a request: the Authorization header must be present, be visible
   * text, and start with "Bearer "; the token is the rest of the value.
   */
  function BearerToken(headers: HeaderMap): (token: Option<string>)
    ensures token.Some? <==>
      && AUTHORIZATION in headers
      && ToStr(headers[AUTHORIZATION]).Some?
      && |headers[AUTHORIZATION]| >= |BEARER_PREFIX|
      && Latin1(headers[AUTHORIZATION])[..|BEARER_PREFIX|] == BEARER_PREFIX
    ensures token.Some? ==> Latin1(headers[AUTHORIZATION]) == BEARER_PREFIX + token.value
  {
    if AUTHORIZATION !in headers then None
    else
      match ToStr(headers[AUTHORIZATION])
      case None => None
      case Some(text) =>
        if |text| >= |BEARER_PREFIX| && text[..|BEARER_PREFIX|] == BEARER_PREFIX then
          assert text == BEARER_PREFIX + text[|BEARER_PREFIX|..];
          Some(text[|BEARER_PREFIX|..])
        else None
  }

  /** Any visible-text token placed after "Bearer " is extracted back unchanged. */
  lemma {:induction false} BearerTokenRoundTrip(headers: HeaderMap, token: string)
    requires IsVisibleText(token)
    ensures BearerToken(headers[AUTHORIZATION := FromStatic(BEARER_PREFIX + token)]) == Some(token)
  {
    var text := BEARER_PREFIX + token;
    assert IsVisibleText(text) by {
      forall i | 0 <= i < |text| ensures text[i] == '\t' || ' ' <= text[i] <= '~' {
        if i >= |BEARER_PREFIX| {
          assert text[i] == token[i - |BEARER_PREFIX|];
        }
      }
    }
    var h := headers[AUTHORIZATION := FromStatic(text)];
    assert Latin1(h[AUTHORIZATION]) == text;
    assert text[..|BEARER_PREFIX|] == BEARER_PREFIX;
  }

  /** `json_to_claim_value`: a JSON string is taken as is, anything else as its JSON text. */
  function JsonToClaimValue(value: Json, serialize: Serializer): (r: string)
    ensures value.String? ==> r == value.s
    ensures !value.String? ==> r == serialize(value)
  {
    match value
    case String(s) => s
    case _ => serialize(value)
  }

  /** One claim per decoded entry, in the decoder's order. */
  function ToClaims(entries: seq<(string, Json)>, serialize: Serializer): (claims: seq<Claim>)
    ensures |claims| == |entries|
    ensures forall i :: 0 <= i < |entries| ==>
      claims[i].kind == entries[i].0 && claims[i].value == JsonToClaimValue(entries[i].1, serialize)
  {
    seq(|entries|, i requires 0 <= i < |entries| => Claim(entries[i].0, JsonToClaimValue(entries[i].1, serialize)))
  }

  /** `JwtBearerHandler::authenticate`. */
  function Authenticate(h: JwtBearerHandler, request: RequestView, serialize: Serializer): (r: AuthenticationResult)
    ensures r == Err(NoResult) <==> BearerToken(request.headers).None?
    ensures BearerToken(request.headers).Some? ==>
      var decoded := h.decode(BearerToken(request.headers).value);
      && (decoded.Err? ==> r == Err(Fail(decoded.error)))
      && (decoded.Ok? ==> r == Ok(AuthenticatedPrincipal(ToClaims(decoded.value, serialize))))
  {
    match BearerToken(request.headers)
    case None => Err(NoResult)
    case Some(token) =>
      match h.decode(token)
      case Err(cause) => Err(Fail(cause))
      case Ok(entries) => Ok(AuthenticatedPrincipal(ToClaims(entries, serialize)))
  }

  /** `JwtBearerHandler::challenge`: 401 advertising the Bearer scheme. */
  function JwtChallenge(): (r: AuthResponse)
    ensures r.statusCode == UNAUTHORIZED
    ensures r.headers.Keys == {WWW_AUTHENTICATE} && Latin1(r.headers[WWW_AUTHENTICATE]) == "Bearer"
  {
    AuthResponse(UNAUTHORIZED, map[WWW_AUTHENTICATE := FromStatic("Bearer")])
  }

  /** `JwtBearerHandler::forbid`: 403 with no headers. */
  function JwtForbid(): (r: AuthResponse)
    ensures r.statusCode == FORBIDDEN && r.headers == map[]
  {
    AuthResponse(FORBIDDEN, map[])
  }

  /** The handler as the compound handler sees it. */
  function AsHandler(h: JwtBearerHandler, serialize: Serializer): (handler: Handler)
    ensures forall request :: handler.authenticate(request) == Authenticate(h, request, serialize)
    ensures handler.challenge == JwtChallenge() && handler.forbid == JwtForbid()
  {
    Handler(request => Authenticate(h, request, serialize), JwtChallenge(), JwtForbid())
  }

  /** A missing, non-text or non-Bearer header is NoResult whatever the decoder would say. */
  lemma NoTokenIgnoresDecoder(h1: JwtBearerHandler, h2: JwtBearerHandler, request: RequestView, serialize: Serializer)
    requires BearerToken(request.headers).None?
    ensures Authenticate(h1, request, serialize) == Authenticate(h2, request, serialize) == Err(NoResult)
  {
  }

  /** The principal built from a decoded claim set holds `role` exactly when some "role" entry converts to `role`. */
  lemma {:induction false} DecodedRoles(entries: seq<(string, Json)>, serialize: Serializer, role: string)
    ensures IsInRole(AuthenticatedPrincipal(ToClaims(entries, serialize)), role) <==>
      exists i :: 0 <= i < |entries| && entries[i].0 == ROLE && JsonToClaimValue(entries[i].1, serialize) == role
  {
    var claims := ToClaims(entries, serialize);
    if IsInRole(AuthenticatedPrincipal(claims), role) {
      var c :| c in claims && IsRoleClaim(c, role);
      var i :| 0 <= i < |claims| && claims[i] == c;
      assert entries[i].0 == ROLE && JsonToClaimValue(entries[i].1, serialize) == role;
    }
    if exists i :: 0 <= i < |entries| && entries[i].0 == ROLE && JsonToClaimValue(entries[i].1, serialize) == role {
      var i :| 0 <= i < |entries| && entries[i].0 == ROLE && JsonToClaimValue(entries[i].1, serialize) == role;
      assert claims[i] in claims && IsRoleClaim(claims[i], role);
    }
  }
}
