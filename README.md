# web-auth-rs core, modelled in Dafny

This project models the framework-independent core of web-auth-rs. That library adds
authentication and role-based authorization to HTTP servers. The model covers:

- **Authentication handlers.** A handler authenticates a request, and can answer with a
  challenge (401) or a forbid (403) response. A handler is registered under a scheme name.
  Registered handlers nest into a compound handler, in registration order:
  - authenticate tries each handler in turn and stops at the first success;
  - challenge and forbid are answered by the first handler registered under the requested
    name.
- **The authentication service.** It runs the compound handler and records the outcome on
  the request's typed extension slot: the principal on success, the error otherwise. It
  resolves the default scheme for challenge and forbid, and panics when the name is not
  registered. Its type-state builder cannot set a default scheme before the first handler
  is added, and `build` gives nothing without a default scheme.
- **The principal.** A principal is a list of claims. Role membership is decided by the
  claims of kind `role`.
- **Authorization requirements and policies.** Requirements are the unit requirement
  (always true), a pair whose parts are evaluated left to right with short-circuit `&&`,
  the role requirement, and any requirement defined outside the library. The last kind is
  modelled by its verdict alone (`Authorization.Requirement.Custom`). A policy challenges a request with no principal, forbids one
  whose principal fails the requirement, and lets the rest through. Its builder adds
  requirements and roles one at a time.
- **The sequential select combinators** `SelectSeqOk` and `SelectSeqSome`. Each polls its
  first future. The first future's output is kept if it is `Ok` (or `Some`). Otherwise the
  combinator switches, for good, to polling the second future.
- **The JWT bearer handler.** It extracts the token that follows `Bearer ` in the
  Authorization header, hands it to a decoder, and turns the decoded claim set into a
  principal. JSON strings are taken as they are; any other JSON value is taken as its JSON
  text. Its challenge is 401 with `WWW-Authenticate: Bearer`; its forbid is a bare 403.

Modules:

- `Results`: Option and Result.
- `Http`: bytes, header values, `to_str`, responses.
- `Principal`.
- `Authentication`: handlers, the compound handler, the service and its builder.
- `Authorization`: requirements, the policy and its builder.
- `Futures`: classes over scripted inner futures.
- `Jwt`.
- `Pipeline`: end-to-end lemmas that combine a JWT service, the authenticate step and a
  role policy.

Modelling choices:

- A handler is a value. Its authenticate step is a function from the request's headers and
  extensions to a result. Its challenge and forbid answers are constant responses, as they
  are for every handler in the repository.
- The nested pair types of the compound handler become a binary tree,
  `Single(entry) | Pair(first, second)`.
- `Entries` lists the tree's handlers in registration order.
- `Invoked` is a ghost trace of whose authenticate ran.
- A Rust panic becomes the `Panic(message)` case of `Panicking<T>`, carrying the message
  "Scheme <name> is not configured".
- `Checked` is a ghost trace of the role checks a requirement performs.
- The request whose extensions the service updates is a class (`Authentication.Request`),
  and `ServiceAuthenticate` is a method that modifies it.
- The futures are classes whose `Poll` methods update their state and their inner futures.

Where the code and the written design disagree, the model follows the code:

- The pair requirement short-circuits: `&&` at src/core/authorization.rs:30 skips the second
  requirement once the first fails.
- A failed authentication is recorded too. The error is stored in the extension slot
  (src/core/authentication.rs:116-117), beside the slot for the principal.
- A role claim whose JSON value is an array is turned into its JSON text (src/jwt.rs:73). It
  therefore does not grant the individual roles listed in the array.
- The core has no sign-in or sign-out operation.
- The builder does not reject a scheme name registered twice. The later registration is
  unreachable for challenge and forbid.

## Model

| member | source | states |
|---|---|---|
| Http.ToStr | src/jwt.rs:27 | the header value converts to text exactly when every byte is visible ASCII or tab; the text has the same characters as the bytes |
| Http.FromStatic | src/jwt.rs:58 | a static visible-text value converts back to the same text |
| Principal.AnyRoleClaim | src/core/principal.rs:13-17 | true exactly when some claim in the list has kind "role" and a value equal to the role |
| Principal.IsInRole | src/core/principal.rs:13-17 | `is_in_role` holds exactly when the principal has a claim of kind "role" whose value equals the role |
| Principal.RoleClaims | src/core/principal.rs:16 | keeps exactly the claims of kind "role" |
| Principal.NoClaimsNoRole | src/core/principal.rs:13-17 | a principal without claims is in no role |
| Principal.OnlyRoleClaimsMatter | src/core/principal.rs:16 | dropping all non-role claims does not change role membership |
| Principal.ExactMatchOnly | src/core/principal.rs:16 | adding a claim that has the wrong kind or a different value, at either end, does not change membership |
| Principal.OrderIndependent | src/core/principal.rs:14-16 | principals whose claims are equal as multisets are in the same roles |
| Principal.Monotone | src/core/principal.rs:14-16 | adding claims never removes a role |
| Authentication.SingleAuthenticateForwards | src/core/authentication.rs:43-45 | a tagged handler's authenticate is its inner handler's authenticate |
| Authentication.Authenticate | src/core/authentication.rs:43-77 | the compound handler succeeds exactly when some registered handler accepts the request |
| Authentication.Lookup | src/core/authentication.rs:47-95 | a by-name lookup gives nothing exactly when no handler is registered under the name |
| Authentication.Challenge | src/core/authentication.rs:47-86 | nothing exactly when the scheme is not registered; otherwise the challenge of the earliest handler registered under it |
| Authentication.Forbid | src/core/authentication.rs:55-95 | nothing exactly when the scheme is not registered; otherwise the forbid response of the earliest handler registered under it |
| Authentication.SingleLookupMatchesScheme | src/core/authentication.rs:47-61 | a tagged handler answers challenge/forbid exactly for its own scheme, with its inner handler's response |
| Authentication.PairFirstSuccessWins | src/core/authentication.rs:70-74 | if the first branch succeeds, that result is returned and the second branch is never invoked |
| Authentication.PairFallsThroughOnError | src/core/authentication.rs:70-77 | if the first branch fails, the second branch's result is returned, after both were invoked |
| Authentication.AuthenticateIsFirstSuccess | src/core/authentication.rs:65-77 | over the whole tree, the handlers invoked are a prefix of the registration order; each invoked handler but the last failed; the result is the last invoked handler's result; an error is returned only after every handler was invoked |
| Authentication.LookupIsFirstMatch | src/core/authentication.rs:47-95 | challenge/forbid give nothing exactly when the scheme is not registered; otherwise they give the response of the first handler registered under that name |
| Authentication.FirstMatchIsUnique | src/core/authentication.rs:79-95 | the first handler registered under a name is unique |
| Authentication.SameRegistrationsSameBehaviour | src/core/authentication.rs:65-95 | two compound handlers with the same registrations in the same order behave identically, whatever their nesting |
| Authentication.ServiceRespond | src/core/authentication.rs:122-136 | the scheme defaults to the service's default. The result panics with "Scheme <name> is not configured" exactly when the name is not registered; otherwise it is the first registered handler's response |
| Authentication.ServiceChallenge | src/core/authentication.rs:122-128 | the given scheme, or else the default, names the handler. The call panics with "Scheme <name> is not configured" exactly when that name is unregistered; otherwise it gives the earliest such handler's challenge |
| Authentication.ServiceForbid | src/core/authentication.rs:130-136 | as for the challenge, with the earliest such handler's forbid response |
| Authentication.StoreResult | src/core/authentication.rs:112-119 | a principal is present afterwards exactly when the result succeeded or one was there before. An error is present exactly when the result failed or one was there before. Each outcome fills its own slot and leaves the other one alone |
| Authentication.ServiceAuthenticate | src/core/authentication.rs:110-120 | the headers are untouched. On success the principal is stored in the extensions and on failure the error is stored, each replacing the previous value of its own slot |
| Authentication.NewServiceBuilder | src/core/authentication.rs:145-150 | a new builder has no default scheme (so it builds only once one is set: see `BuildFromNew`) |
| Authentication.AddFirstHandler | src/core/authentication.rs:152-161 | the first registration yields exactly that one entry and carries the builder's default over |
| Authentication.AddHandler | src/core/authentication.rs:174-186 | a later registration appends its entry at the end and keeps the default |
| Authentication.SetDefaultScheme | src/core/authentication.rs:188-193 | keeps the handlers and replaces any earlier default; the builder then always builds a service with that default |
| Authentication.Build | src/core/authentication.rs:195-204 | gives no service exactly when no default scheme was set; otherwise a service with the builder's handler and default |
| Authentication.ApplyStepsEntries | src/core/authentication.rs:174-193 | any sequence of add and set-default steps appends its handlers after the existing ones, in call order |
| Authentication.ApplyStepsDefault | src/core/authentication.rs:174-193 | after any sequence of add and set-default steps the default is the last one set, or the old default if none was set |
| Authentication.BuildFromNew | src/core/authentication.rs:139-205 | a builder started from `new` builds exactly when some step set a default. The service then holds every registration, in order, and the last default set |
| Authorization.Evaluate | src/core/authorization.rs:17-42 | a requirement that holds implies that the principal is in every role it names, whatever custom requirements the tree also holds |
| Authorization.EvaluateMeansAllRoles | src/core/authorization.rs:17-42 | a tree built from `()`, pairs and role requirements holds exactly when the principal is in every role it names |
| Authorization.EvaluationStopsAtFirstFailure | src/core/authorization.rs:24-32 | for a tree of `()`, pairs and role requirements: the role checks performed are a prefix of the tree's roles, and all but the last passed. A holding requirement checks every role; a failing one stops at the first role the principal lacks |
| Authorization.BothShortCircuits | src/core/authorization.rs:30 | when the first requirement fails, the pair fails without checking the second |
| Authorization.BothIsAssociative | src/core/authorization.rs:24-32 | regrouping nested pairs changes neither the verdict nor the checks performed |
| Authorization.AlwaysIsIdentity | src/core/authorization.rs:17-32 | the unit requirement always holds and is a neutral element of the pair for verdict and checks |
| Authorization.Authorize | src/core/authorization.rs:58-68 | a request passes exactly when it carries a principal that meets the requirement. Without a principal the answer is the default challenge; when the requirement fails it is the default forbid |
| Authorization.NoPrincipalIsChallenged | src/core/authorization.rs:58-61 | without a principal the requirement is irrelevant. The call panics exactly when the default scheme is unregistered; otherwise it answers with the first matching handler's challenge |
| Authorization.FailedRequirementIsForbidden | src/core/authorization.rs:63-65 | a failing requirement panics exactly when the default scheme is unregistered; otherwise it answers with the first matching handler's forbid |
| Authorization.AddRequirement | src/core/authorization.rs:101-108 | the new requirement holds exactly when the old one and the added one both hold; its roles are the old roles followed by the added ones |
| Authorization.BuildPolicy | src/core/authorization.rs:117-125 | the policy holds the given service and the builder's requirement |
| Authorization.NewPolicyBuilder | src/core/authorization.rs:91-95 | a new policy builder starts from `()`: it names no role and admits every principal |
| Authorization.RequireRole | src/core/authorization.rs:110-115 | the requirement now holds exactly when the old one holds and the principal is in the role; the role is appended to the checks |
| Authorization.RequireRolesAppends | src/core/authorization.rs:110-115 | successive `require_role` calls append their roles in call order |
| Authorization.RequireRolesMeaning | src/core/authorization.rs:91-115 | a policy built from `new` plus `require_role` calls names exactly those roles, and holds exactly when the principal is in all of them |
| Futures.SelectSeqOk.constructor | src/core/futures.rs:84-94 | the combinator starts in the first phase, and the second future counts as unpolled from then on until the switch |
| Futures.SelectSeqOk.Poll | src/core/futures.rs:30-46 | if the first future is pending, the combinator is pending. An `Ok` from it is returned without touching the second future. An `Err` switches to the second future and returns that future's poll in the same call. After the switch only the second future is polled. Each polled future advances by one poll. Any ready value is the first future's `Ok`, else the second future's output. Every Pending brings completion one poll closer |
| Futures.SelectSeqOk.RunToCompletion | src/core/futures.rs:30-46 | polling a fresh combinator until it is ready gives one Pending per pending poll of the first future, plus, after an `Err`, one per pending poll of the second; then it is ready with the first future's `Ok`, else the second future's output |
| Futures.SelectSeqSome.constructor | src/core/futures.rs:96-106 | the combinator starts in the first phase, and the second future counts as unpolled from then on until the switch |
| Futures.SelectSeqSome.Poll | src/core/futures.rs:65-81 | as for `SelectSeqOk`, with `Some` kept and `None` switching to the second future |
| Futures.SelectSeqSome.RunToCompletion | src/core/futures.rs:65-81 | as for `SelectSeqOk`, with `Some` kept and `None` switching to the second future |
| Jwt.BearerToken | src/jwt.rs:24-34 | a token exists exactly when the header is present, is visible text and starts with "Bearer ". The header is then "Bearer " followed by the token |
| Jwt.BearerTokenRoundTrip | src/jwt.rs:24-34 | a visible-text token written after "Bearer " in the Authorization header is extracted back unchanged |
| Jwt.JsonToClaimValue | src/jwt.rs:70-75 | a JSON string becomes its contents; any other value becomes its JSON text |
| Jwt.ToClaims | src/jwt.rs:44-52 | one claim per decoded entry, in order, with the entry's name as kind and the converted value |
| Jwt.Authenticate | src/jwt.rs:23-53 | NoResult exactly when there is no bearer token; a decoder error becomes Fail with that cause; a decoded claim set becomes the principal with those claims |
| Jwt.JwtChallenge | src/jwt.rs:55-60 | 401 with exactly one header, `www-authenticate: Bearer` |
| Jwt.JwtForbid | src/jwt.rs:62-67 | 403 with no headers |
| Jwt.AsHandler | src/jwt.rs:21-68 | the handler registered with the service behaves as the JWT handler's authenticate, challenge and forbid |
| Jwt.NoTokenIgnoresDecoder | src/jwt.rs:24-34 | without a bearer token the result is NoResult whatever the decoder |
| Jwt.DecodedRoles | src/jwt.rs:44-75 | the decoded principal is in a role exactly when some "role" entry converts to that role's text |
| Pipeline.JwtService | src/core/authentication.rs:152-204 | a service built from one JWT handler and its scheme as default holds that single entry and default |
| Pipeline.NoHeaderIsChallenged | src/core/authorization.rs:58-61 | a request without an Authorization header gets NoResult recorded and is answered with the JWT 401 challenge |
| Pipeline.WrongRoleIsForbidden | src/core/authorization.rs:63-65 | a valid token with a different role records the principal and is answered 403 |
| Pipeline.RightRoleIsAuthorized | src/core/authorization.rs:58-68 | a valid token carrying the required role records the principal and passes |
| Pipeline.SecondKeyStillTried | src/core/authentication.rs:70-95 | with two JWT handlers, a token the first rejects is accepted by the second after both were invoked; challenge and forbid by name reach the handler of that name |

## Left out

- Asynchrony: every `async fn` is modelled by the value it completes with. Wakers and the
  `Context` are not modelled; a pending poll records nothing beyond the poll count.
- Handlers are pure functions of the request. A handler that changes the request while
  authenticating (handlers receive `&mut`) is not modelled. None of the repository's
  handlers does so.
- Authorization.Requirement: a requirement implemented outside the library is modelled
  by its verdict alone (`Custom`). Its own internal checks are not traced, and it names no
  role.
- Authorization.EvaluateMeansAllRoles: the "exactly when in every named role" equivalence is
  stated only for trees without custom requirements. A custom check can fail without any role
  check failing. The one direction that holds for every tree is the contract of `Evaluate`.
- Authorization.EvaluationStopsAtFirstFailure: the short-circuit trace is stated only for
  trees without custom requirements, because the trace records role checks only.
  `BothShortCircuits` holds for every tree.
- Requirements receive `&mut AuthenticatedPrincipal` in the source. The model evaluates
  them on a value; no requirement in the repository changes the principal.
- The JWT decoder (`jsonwebtoken::decode` with key and validation) and `serde_json`'s
  `to_string` are parameters (`Jwt.Decoder`, `Jwt.Serializer`). Signature checks, expiry
  and claim validation are therefore not modelled. The decoder's output order stands for
  the `HashMap`'s iteration order.
- Headers hold one value per name. The request URI is not modelled. Reading the principal
  through `get_extension_mut` is modelled as a read of the extension slot; the mutable
  borrow it hands to the requirement is not.
- Only the two extension types the core stores are modelled: the principal and the
  authentication error.
- `Clone` and `Arc` sharing of policies and services: the model uses values.
- Polling a combinator again after it returned `Ready` is not constrained beyond what the
  inner futures do.
- `Futures.ScriptedFuture`: the inner futures are scripted. They are pending a fixed number
  of times, then ready with a fixed output. A future whose output depends on when it is
  polled is not modelled.
- The framework adapters (actix-web, axum), the `Request` trait implementations, the crate
  root and the examples are not part of this model.
- `HeaderValue::from_static` and `to_str` follow the `http` crate's visible-ASCII rule; the
  `http` crate itself is not part of this model.
