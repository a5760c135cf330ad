/** The two halves together: the login round trip of the end-to-end test, and the
    token it produces passing the gate that guards the document routes. */
module LoginFlow {
  import opened Wrappers
  import opened Http
  import opened Json
  import opened Text
  import opened Challenge
  import opened Auth
  import opened JwtStrategy

  /** Every payload `signIn` mints passes `validate` as the administrator, whatever
      registered claims (`iat`, `exp`) the signer adds beside `sub` and `admin`. */
  lemma MintedPayloadValidates(admin: string, registered: map<string, JsonValue>)
    requires admin != ""
    requires "sub" !in registered && "admin" !in registered
    ensures Validate(Some(JObject(registered + AdminClaims(admin)))) == Ok(User(JString(admin), true))
  {
    var fields := registered + AdminClaims(admin);
    assert fields["sub"] == JString(admin) && fields["admin"] == JBool(true);
  }

  /** A token whose verified payload is the administrator's claims plus registered
      claims, sent as `Authorization: Bearer <token>` (the scheme in any case) before
      it expires, on a request carrying no non-empty 'etherdoc-auth' cookie, is let
      through as `{address: admin, isAdmin: true}`; a compact JWT is non-empty and has
      no blanks. */
  lemma GateAcceptsAdminToken(admin: string, cookies: Option<map<string, string>>, scheme: string, token: string,
                              jwtSecret: Option<string>,
                              registered: map<string, JsonValue>, nowSeconds: int,
                              verify: (string, string) -> Option<JsonValue>)
    requires admin != "" && ToLower(scheme) == "bearer" && token != [] && NoSpace(token)
    requires cookies.None? || AuthCookie !in cookies.value || cookies.value[AuthCookie] == ""
    requires NewStrategy(jwtSecret).Ok?
    requires verify(token, jwtSecret.value) == Some(JObject(registered + AdminClaims(admin)))
    requires "sub" !in registered && "admin" !in registered
    requires NotExpired(JObject(registered + AdminClaims(admin)), nowSeconds, false)
    ensures Authenticate(NewStrategy(jwtSecret).value, Request(cookies, Some(scheme + " " + token)), nowSeconds, verify) ==
      Ok(User(JString(admin), true))
  {
    var options := NewStrategy(jwtSecret).value;
    var req := Request(cookies, Some(scheme + " " + token));
    BearerHeaderYieldsToken(cookies, scheme, token);
    assert ExtractToken(req) == Some(token);
    assert verify(token, options.secretOrKey) == Some(JObject(registered + AdminClaims(admin)));
    MintedPayloadValidates(admin, registered);
  }

  /** The access token a successful `signIn` returns passes the gate as the
      administrator while its registered claims are unexpired, when it is sent as a
      bearer header on a request carrying no non-empty 'etherdoc-auth' cookie, given
      that `verify` gives back the claims `sign` signed, plus the registered claims. */
  lemma GateAcceptsSignedInToken(adminAddress: Option<string>, slot: Option<NonceEntry>, now: int, signature: string,
                                 recover: (string, string) -> Option<string>, sign: JsonValue -> Option<string>,
                                 cookies: Option<map<string, string>>, scheme: string, token: string,
                                 jwtSecret: Option<string>,
                                 registered: map<string, JsonValue>, nowSeconds: int,
                                 verify: (string, string) -> Option<JsonValue>)
    requires SignInResult(Verify(adminAddress, slot, now, signature, recover), sign) == Ok(LoginResponse(token))
    requires ToLower(scheme) == "bearer" && token != [] && NoSpace(token)
    requires cookies.None? || AuthCookie !in cookies.value || cookies.value[AuthCookie] == ""
    requires NewStrategy(jwtSecret).Ok?
    requires forall claims :: sign(JObject(claims)) == Some(token) ==>
      verify(token, jwtSecret.value) == Some(JObject(registered + claims))
    requires "sub" !in registered && "admin" !in registered
    requires NotExpired(JObject(registered), nowSeconds, false)
    ensures Configured(adminAddress)
    ensures Authenticate(NewStrategy(jwtSecret).value, Request(cookies, Some(scheme + " " + token)), nowSeconds, verify) ==
      Ok(User(JString(adminAddress.value), true))
  {
    TokenSignsAdminClaims(adminAddress, slot, now, signature, recover, sign);
    var admin := adminAddress.value;
    assert sign(JObject(AdminClaims(admin))) == Some(token);
    assert verify(token, jwtSecret.value) == Some(JObject(registered + AdminClaims(admin)));
    assert "exp" !in AdminClaims(admin);
    assert Get(Some(JObject(registered + AdminClaims(admin))), "exp") == Get(Some(JObject(registered)), "exp");
    GateAcceptsAdminToken(admin, cookies, scheme, token, jwtSecret, registered, nowSeconds, verify);
  }

  /** The verdicts of the end-to-end login, on values: with the nonce issued at
      `issuedAt` still live at `loginAt`, a signature recovering to another address
      is refused and leaves the nonce, the administrator's signature is accepted and
      deletes it, and the same signature again finds no nonce. */
  lemma LoginVerdicts(admin: string, uuid: string, issuedAt: int, loginAt: int,
                      forged: string, signature: string, wallet: string,
                      recover: (string, string) -> Option<string>, sign: JsonValue -> Option<string>)
    requires admin != "" && uuid != ""
    requires issuedAt <= loginAt <= issuedAt + NonceTtl
    requires recover(ChallengeText(admin, uuid), signature) == Some(wallet) && EqualsIgnoringCase(wallet, admin)
    requires var other := recover(ChallengeText(admin, uuid), forged);
      other.Some? && !EqualsIgnoringCase(other.value, admin)
    ensures var v := Verify(Some(admin), Some(Issued(uuid, issuedAt)), loginAt, forged, recover);
      SlotAfterSignIn(v, Some(Issued(uuid, issuedAt))) == Some(Issued(uuid, issuedAt)) &&
      SignInResult(v, sign) == Err(Unauthorized(InvalidSignatureMessage))
    ensures var v := Verify(Some(admin), Some(Issued(uuid, issuedAt)), loginAt, signature, recover);
      SlotAfterSignIn(v, Some(Issued(uuid, issuedAt))) == None && SignInResult(v, sign) == SignInResult(Verified(admin), sign)
    ensures var v := Verify(Some(admin), None, loginAt, signature, recover);
      SlotAfterSignIn(v, None) == None && SignInResult(v, sign) == Err(Unauthorized(NonceMissingMessage))
  {
    assert Verify(Some(admin), Some(Issued(uuid, issuedAt)), loginAt, forged, recover) == WrongSigner;
    assert Verify(Some(admin), Some(Issued(uuid, issuedAt)), loginAt, signature, recover) == Verified(admin);
  }

  /** The end-to-end login: fetch a nonce, have the administrator's wallet sign the
      returned `messageString`, log in. A forged signature tried first is refused
      without using up the nonce; the genuine one then gets what signing
      `{sub: admin, admin: true}` gives; repeating it is refused as a replay. */
  method LoginScenario(admin: string, uuid: string, issuedAt: int, loginAt: int,
                       forged: string, signature: string, wallet: string,
                       recover: (string, string) -> Option<string>, sign: JsonValue -> Option<string>)
    returns (challenge: string, rejected: Result<LoginResponse, HttpException>,
             first: Result<LoginResponse, HttpException>, replay: Result<LoginResponse, HttpException>)
    requires admin != "" && uuid != ""
    requires issuedAt <= loginAt <= issuedAt + NonceTtl
    requires recover(ChallengeText(admin, uuid), signature) == Some(wallet) && EqualsIgnoringCase(wallet, admin)
    requires var other := recover(ChallengeText(admin, uuid), forged);
      other.Some? && !EqualsIgnoringCase(other.value, admin)
    ensures Parse(challenge) == Some(Build(admin, uuid))
    ensures rejected == Err(Unauthorized(InvalidSignatureMessage))
    ensures first == SignInResult(Verified(admin), sign)
    ensures replay == Err(Unauthorized(NonceMissingMessage))
  {
    var service := new AuthService(Some(admin));
    var nonce := service.GetNonce(uuid, issuedAt);
    NonceResponseIsChallenge(Some(admin), uuid);
    challenge := nonce.value.messageString;
    LoginVerdicts(admin, uuid, issuedAt, loginAt, forged, signature, wallet, recover, sign);
    rejected := service.SignIn(forged, loginAt, recover, sign);
    first := service.SignIn(signature, loginAt, recover, sign);
    replay := service.SignIn(signature, loginAt, recover, sign);
  }
}
