# Etherdoc wallet login and token gate, modelled in Dafny

This project models the authentication core of the Etherdoc document-registry
backend (a NestJS service):

- **`AuthService`** (`src/auth/auth.service.ts`) runs a nonce challenge–response
  login for the one administrator wallet. `getNonce` writes a fresh UUID into the
  single cache slot `'nonce'` with a TTL of 100000. It then returns the challenge
  `{address, message: 'auth-login', nonce}` and its `JSON.stringify` text.
  `signIn(signature)` rebuilds that text from `ADDRESS_ADMIN` and the stored nonce.
  It recovers the signer with ethers' `verifyMessage` and compares it with the
  administrator's address, ignoring case. Only when they match does it delete the
  nonce and sign a JWT carrying `{sub: admin, admin: true}`.
- **`JwtStrategy`** (`src/auth/jwt.strategy.ts`) guards the document routes. It
  takes the token from the `etherdoc-auth` cookie, or else from an
  `Authorization: Bearer` header. It refuses expired tokens and checks the payload
  shape in `validate`, which maps the payload to `{address, isAdmin}`.

Layout, one module per concern:

| file | module | content |
|---|---|---|
| `wrappers.dfy` | `Wrappers` | `Option` (null/undefined) and `Result` (a thrown exception) |
| `http.dfy` | `Http` | `Unauthorized` (401) and `InternalServerError` (500) |
| `text.dfy` | `Text` | `toLowerCase` on ASCII letters, case-insensitive equality, the regular-expression `\s` class |
| `json.dfy` | `Json` | JSON values, JavaScript truthiness, property access, QuoteJSONString (section 25.5.2.3 of ECMA-262) and a decoder for quoted strings |
| `challenge.dfy` | `Challenge` | the challenge object, its `JSON.stringify` text and a parser that reads it back |
| `auth.dfy` | `Auth` | the class `AuthService` with the mutable cache slot, the specification functions of `signIn`, and the protocol lemmas |
| `jwt_strategy.dfy` | `JwtStrategy` | constructor options, cookie and bearer extraction, the `exp` check, `validate` |
| `login_flow.dfy` | `LoginFlow` | the end-to-end login and the minted token passing the gate |

`AuthService` is a class. Its `const adminAddress` is `ADDRESS_ADMIN`. Its
`var slot: Option<NonceEntry>` is the cache entry under `'nonce'`. `GetNonce`
and `SignIn` are methods that change `slot` step by step, with the source's early
exits. Their postconditions tie the answer and the new slot to the functions
`NonceResult`, `Verify`, `SlotAfterSignIn` and `SignInResult`. The lemmas state
the protocol's properties about those functions. `JwtStrategy` is pure in the
source and is modelled as functions and lemmas.

Parameters stand in for what the core cannot compute itself:

- `uuid` is the output of `uuidv4()`.
- `now` is the cache clock, in the cache's TTL unit. `nowSeconds` is the JWT clock.
- `recover(message, signature)` is `verifyMessage`. `None` means it threw.
- `sign(payload)` is `jwtService.signAsync`. `None` means it threw.
- `verify(token, secret)` is the JWT signature check. It yields the payload, or `None`.

Behaviours of the code a reader might not expect, which the model keeps:

- A failed attempt does not consume the nonce. Only a matching signer reaches the delete.
- A signature that `verifyMessage` rejects is answered 500, not 401. The catch block turns every unexpected error into `InternalServerError`.
- A missing `ADDRESS_ADMIN` is found at request time, not at startup. In `getNonce` this happens after the new nonce has been stored.
- The TTL is the literal 100000 in the cache's unit, not a configurable value.

## Model

| member | source | states |
|---|---|---|
| `Auth.AuthService.constructor` | src/auth/auth.service.ts:18-22 | the service starts with the configured admin address and an empty nonce slot |
| `Auth.AuthService.GetNonce` | src/auth/auth.service.ts:23-56 | the slot always holds the new nonce with expiry now + 100000, even when `ADDRESS_ADMIN` is missing and the answer is a 500; otherwise the answer is the challenge and its JSON text |
| `Auth.AuthService.SignIn` | src/auth/auth.service.ts:58-113 | the new slot and the answer are those of the checks in source order: config, live nonce, signature recovery, case-insensitive address match, delete, then signing |
| `Auth.NonceResponseIsChallenge` | src/auth/auth.service.ts:29-43 | `getNonce` succeeds exactly when `ADDRESS_ADMIN` is truthy; the challenge is `{admin, 'auth-login', uuid}` and `messageString` parses back to exactly that object |
| `Auth.IssueOverwrites` | src/auth/auth.service.ts:68-84 | after an issue at `t`, whatever was stored before: once the TTL of 100000 is past, `signIn` answers 401 "Nonce not found" (500 without `ADDRESS_ADMIN`) and leaves the slot as it is; before that, the only text whose signature is checked is the challenge built from the new nonce |
| `Auth.ReissueReplacesChallenge` | src/auth/auth.service.ts:68-84 | after a second issue, `signIn` checks signatures against the new challenge text, which differs from the first challenge text |
| `Auth.SignInWithoutAdmin` | src/auth/auth.service.ts:59-65 | a missing `ADDRESS_ADMIN` gives a 500 with the sign-in configuration message and leaves the slot unchanged |
| `Auth.SignInWithoutNonce` | src/auth/auth.service.ts:68-73 | with no live nonce (never issued, expired, deleted or empty) the answer is 401 "Nonce not found or expired" and the slot is unchanged |
| `Auth.SignInAcceptsIssuedChallenge` | src/auth/auth.service.ts:76-96 | round trip: a signature over the `messageString` that `getNonce` returned, recovering to the admin up to case, is accepted while the nonce lives; the slot is emptied and the token signs `{sub: admin, admin: true}` |
| `Auth.WrongSignerKeepsNonce` | src/auth/auth.service.ts:86-91 | a signature recovering to another address gives 401 "Invalid signature" before the delete, so the nonce stays stored |
| `Auth.MalformedSignatureIs500` | src/auth/auth.service.ts:97-111 | a signature that `verifyMessage` rejects gives a 500 with the generic sign-in message, and the nonce stays stored |
| `Auth.NonceConsumedOnlyWhenVerified` | src/auth/auth.service.ts:86-95 | the slot is emptied exactly when every check passed; every success empties it, and a signing failure after the delete still leaves it empty |
| `Auth.SignInErrorClasses` | src/auth/auth.service.ts:97-111 | a failure is a 401 exactly for a missing nonce or a wrong signer, and a 500 exactly for missing config, a rejected signature or a signing failure |
| `Auth.TokenSignsAdminClaims` | src/auth/auth.service.ts:93-96 | a successful sign-in implies `ADDRESS_ADMIN` is configured, and its token is the signature of `{sub: configured admin, admin: true}`, never of the recovered string |
| `Auth.ReplayRejected` | src/auth/auth.service.ts:90-91 | after a success, any later attempt with any signature at any time is 401 "Nonce not found" |
| `Challenge.Build` | src/auth/auth.service.ts:35-39 | the challenge carries the given address, the tag 'auth-login' and the given nonce |
| `Challenge.ParseStringify` | src/auth/auth.service.ts:41-43 | the stringified challenge (keys address, message, nonce, JSON-quoted) reads back as the same object |
| `Challenge.ChallengeTextIsStringify` | src/auth/auth.service.ts:35-43 | the text both methods sign, written with the tag already quoted, is exactly `JSON.stringify` of `{address, message: 'auth-login', nonce}` |
| `Challenge.ParseChallengeText` | src/auth/auth.service.ts:76-82 | the rebuilt challenge text reads back as `{admin, 'auth-login', nonce}` |
| `Challenge.ChallengeTextInjective` | src/auth/auth.service.ts:76-84 | challenge texts for different addresses or nonces differ, so a signature over one challenge is checked against a different string under any other |
| `Challenge.StringifyInjective` | src/auth/auth.service.ts:76-82 | two challenges have the same text only if they are equal, so the rebuilt text matches the issued one exactly when address and nonce match |
| `Json.UnescapeEscape` | src/auth/auth.service.ts:41 | decoding the `JSON.stringify` quoting of any string gives that string back and leaves the following text untouched |
| `Json.EscapePlain` | src/auth/auth.service.ts:41 | a string without control characters, quotes or backslashes (such as 'auth-login') is written unescaped |
| `Json.QuoteInjective` | src/auth/auth.service.ts:41 | different strings are quoted as different JSON literals |
| `Text.ToLowerAt` | src/auth/auth.service.ts:86 | lower-casing keeps the length and maps each character in place |
| `Text.EqualsIgnoringCaseIff` | src/auth/auth.service.ts:86 | the `toLowerCase() != toLowerCase()` comparison rejects exactly the addresses that differ in length or in some character beyond case |
| `JwtStrategy.NewStrategy` | src/auth/jwt.strategy.ts:18-27 | construction fails when `JWT_SECRET` is unset or empty; otherwise it uses that secret with `ignoreExpiration` false |
| `JwtStrategy.CookieExtractor` | src/auth/jwt.strategy.ts:8-14 | yields `cookies['etherdoc-auth']` when the request and its cookie map exist and hold the key, otherwise nothing |
| `JwtStrategy.ExtractToken` | src/auth/jwt.strategy.ts:20-24 | an extracted token is never empty: an empty cookie counts as no token |
| `JwtStrategy.CookieTakesPriority` | src/auth/jwt.strategy.ts:20-24 | with a truthy cookie the token is the cookie, whatever the `Authorization` header says |
| `JwtStrategy.BearerWithoutCookie` | src/auth/jwt.strategy.ts:20-24 | without a truthy cookie the token is whatever the bearer extractor finds |
| `JwtStrategy.ParseAuthHeaderOf` | src/auth/jwt.strategy.ts:23 | a header of blanks, scheme, blanks, credentials, then nothing or a blank, splits back into that scheme and those credentials |
| `JwtStrategy.BearerHeaderYieldsToken` | src/auth/jwt.strategy.ts:20-24 | `Authorization: Bearer <token>` (scheme in any case) yields the token when no cookie carries one |
| `JwtStrategy.ExpiredTokenRejected` | src/auth/jwt.strategy.ts:25 | with the constructor's options, a token whose numeric `exp` is at or before now is refused with 401 |
| `JwtStrategy.Validate` | src/auth/jwt.strategy.ts:30-36 | every rejection is 401 "Invalid token payload" |
| `JwtStrategy.ValidateAcceptsIff` | src/auth/jwt.strategy.ts:31-35 | accepted exactly when the payload is an object with a truthy `sub` and a boolean `admin`; the user is then exactly `{address: sub, isAdmin: admin}` |
| `JwtStrategy.ValidateAcceptsNonAdmin` | src/auth/jwt.strategy.ts:31 | only the type of `admin` is checked: `{sub, admin: false}` is accepted with `isAdmin` false |
| `JwtStrategy.ValidateReadsOnlySubAndAdmin` | src/auth/jwt.strategy.ts:35 | payloads that agree on `sub` and `admin` get the same answer; other claims play no part |
| `JwtStrategy.GateRequiresVerifiedToken` | src/auth/jwt.strategy.ts:20-35 | a request is let through exactly when it carries a token that `verify` accepts under the configured secret, unexpired, with a payload `validate` accepts, and the user is `validate`'s; no token, or a token `verify` rejects, gives the bare 401 |
| `JwtStrategy.GateFailuresAre401` | src/auth/jwt.strategy.ts:30-33 | every refusal by the gate has status 401 |
| `LoginFlow.MintedPayloadValidates` | src/auth/auth.service.ts:93 | the payload `signIn` mints, with any registered claims beside it, passes `validate` as `{address: admin, isAdmin: true}` |
| `LoginFlow.GateAcceptsAdminToken` | src/auth/jwt.strategy.ts:20-35 | a token sent as `Authorization: Bearer <token>` (scheme in any case), on a request with no cookie map or one without a non-empty `etherdoc-auth` cookie, whose verified payload holds the admin claims and has not expired is let through as the administrator |
| `LoginFlow.GateAcceptsSignedInToken` | src/auth/auth.service.ts:93-96 | the token a successful `signIn` returns, sent as a bearer header on a request without a non-empty `etherdoc-auth` cookie, passes the gate as `{address: configured admin, isAdmin: true}` while unexpired |
| `LoginFlow.LoginVerdicts` | test/app.e2e-spec.ts:42-68 | on values: with the nonce live, a signature recovering to another address is refused and keeps the nonce, the admin's is accepted and deletes it, and repeating it finds no nonce |
| `LoginFlow.LoginScenario` | test/app.e2e-spec.ts:42-68 | nonce, then a forged signature (401, nonce kept), then the admin's signature over `messageString` (token), then a replay (401) |

## Left out

- Cryptography: ECDSA recovery under EIP-191 (`verifyMessage`) and HMAC signing and verification of JWTs are the parameters `recover`, `sign` and `verify`. Their internals, and the unforgeability the login relies on, are not modelled.
- UUID generation is the parameter `uuid`. Nothing states that successive nonces differ.
- The cache is the single `slot`. Its store never fails here. If `set`, `get` or `del` threw, the source would answer 500 ("Could not generate authentication nonce" or the generic sign-in message); those paths are not modelled.
- An entry is live while `now <= expiresAt`, including the expiry instant itself, as the cache's memory stores compare strictly. When expired entries are evicted is not modelled; an expired entry simply reads as absent.
- Clocks are the parameters `now` and `nowSeconds`. Time is not required to increase between calls.
- Concurrent requests racing on the one slot are not modelled. Calls are sequential.
- Logging (`this.logger.error`) is not modelled.
- Text.ToLower: lower-cases ASCII letters only, where JavaScript's `toLowerCase` is full Unicode. Hex addresses and the 'bearer' scheme are ASCII, so the comparisons modelled are unaffected.
- Strings are sequences of Unicode scalar values. JavaScript's lone surrogates, which `JSON.stringify` escapes, cannot arise.
- JSON numbers are integers. The `nbf` claim and clock tolerance of the JWT library are not modelled. Only `exp` is checked.
- Cookie values are strings. The login controller stores the whole `{accessToken}` object in the cookie (src/auth/auth.controller.ts:21), which the cookie parser hands back as an object; this is not modelled.
- `JwtAuthGuard` is not part of this model. Its behaviour is taken as NestJS's default: no user means a bare 401 "Unauthorized".
- The controllers, DTOs, the documents service (Pinata, contract calls, CID hashing) and the contract ABIs are outside the authentication core.
