/** The wallet-signature login of `AuthService`: a single cache slot holding the
    outstanding nonce, the challenge handed out by `getNonce`, and `signIn`, which
    rebuilds that challenge, checks who signed it, consumes the nonce and mints a
    token for the administrator. */
module Auth {
  import opened Wrappers
  import opened Http
  import opened Json
  import opened Text
  import opened Challenge

  /** The TTL `getNonce` passes to `cacheManager.set`, in the cache's time unit. */
  const NonceTtl := 100000

  const NonceConfigMessage := "Server configuration error"
  const SignInConfigMessage := "Server configuration error during sign-in"
  const NonceMissingMessage := "Nonce not found or expired. Please request a new nonce."
  const InvalidSignatureMessage := "Invalid signature"
  const SignInFailedMessage := "An error occured during the sign-in process."

  /** The value stored under the cache key 'nonce' and the instant its TTL runs out. */
  datatype NonceEntry = NonceEntry(nonce: string, expiresAt: int)

  datatype NonceResponse = NonceResponse(messageObject: MessageObject, messageString: string)

  datatype LoginResponse = LoginResponse(accessToken: string)

  /** `ADDRESS_ADMIN` is present and truthy. */
  predicate Configured(admin: Option<string>) {
    admin.Some? && admin.value != ""
  }

  /** `cacheManager.get('nonce')` at time `now`: the stored nonce up to and
      including its expiry instant (the memory stores treat an entry as expired
      only once the clock is past it), else nothing. */
  function Lookup(slot: Option<NonceEntry>, now: int): Option<string> {
    if slot.Some? && now <= slot.value.expiresAt then Some(slot.value.nonce) else None
  }

  /** The entry `cacheManager.set('nonce', uuid, 100000)` writes at time `now`. */
  function Issued(uuid: string, now: int): NonceEntry {
    NonceEntry(uuid, now + NonceTtl)
  }

  /** What `getNonce` answers once `uuid` has been stored. */
  function NonceResult(admin: Option<string>, uuid: string): Result<NonceResponse, HttpException> {
    if !Configured(admin) then Err(InternalServerError(NonceConfigMessage))
    else
      Ok(NonceResponse(Build(admin.value, uuid), ChallengeText(admin.value, uuid)))
  }

  /** The JWT payload `{sub: admin, admin: true}` that `signIn` has signed. */
  function AdminClaims(admin: string): map<string, JsonValue> {
    map["sub" := JString(admin), "admin" := JBool(true)]
  }

  /** How far a sign-in attempt gets. */
  datatype Verdict =
    | MissingConfig       // ADDRESS_ADMIN unset: thrown before the cache is read
    | MissingNonce        // no live, truthy nonce in the cache
    | MalformedSignature  // verifyMessage threw
    | WrongSigner         // the recovered address is not the administrator's
    | Verified(admin: string)  // every check passed: the nonce is deleted

  /** The checks of `signIn` in their order. `recover` is ethers' `verifyMessage`
      (EIP-191 personal-message recovery); `None` is a signature it rejects. */
  function Verify(admin: Option<string>, slot: Option<NonceEntry>, now: int, signature: string,
                  recover: (string, string) -> Option<string>): Verdict
  {
    if !Configured(admin) then MissingConfig
    else
      var nonce := Lookup(slot, now);
      if nonce.None? || nonce.value == "" then MissingNonce
      else
        match recover(ChallengeText(admin.value, nonce.value), signature)
        case None => MalformedSignature
        case Some(recovered) =>
          if EqualsIgnoringCase(recovered, admin.value) then Verified(admin.value) else WrongSigner
  }

  /** The cache slot after `signIn`: emptied exactly when the delete was reached. */
  function SlotAfterSignIn(v: Verdict, slot: Option<NonceEntry>): Option<NonceEntry> {
    if v.Verified? then None else slot
  }

  /** What `signIn` answers, after its catch block has classified the failure.
      `sign` is `jwtService.signAsync`; `None` is a signing failure. */
  function SignInResult(v: Verdict, sign: JsonValue -> Option<string>): Result<LoginResponse, HttpException> {
    match v
    case MissingConfig => Err(InternalServerError(SignInConfigMessage))
    case MissingNonce => Err(Unauthorized(NonceMissingMessage))
    case MalformedSignature => Err(InternalServerError(SignInFailedMessage))
    case WrongSigner => Err(Unauthorized(InvalidSignatureMessage))
    case Verified(admin) =>
      match sign(JObject(AdminClaims(admin)))
      case None => Err(InternalServerError(SignInFailedMessage))
      case Some(token) => Ok(LoginResponse(token))
  }

  class AuthService {
    /** `ADDRESS_ADMIN` as the configuration service returns it. */
    const adminAddress: Option<string>
    /** The cache entry under the key 'nonce'. */
    var slot: Option<NonceEntry>

    constructor (adminAddress: Option<string>)
      ensures this.adminAddress == adminAddress && slot == None
    {
      this.adminAddress := adminAddress;
      slot := None;
    }

    /** Stores the fresh nonce `uuid` first, then looks up the administrator and
        builds the challenge; the nonce stays stored even when that lookup fails. */
    method GetNonce(uuid: string, now: int) returns (r: Result<NonceResponse, HttpException>)
      modifies this
      ensures slot == Some(Issued(uuid, now))
      ensures r == NonceResult(adminAddress, uuid)
    {
      slot := Some(Issued(uuid, now));
      if adminAddress.None? || adminAddress.value == "" {
        return Err(InternalServerError(NonceConfigMessage));
      }
      var messageObject := Build(adminAddress.value, uuid);
      var messageString := ChallengeText(adminAddress.value, uuid);
      r := Ok(NonceResponse(messageObject, messageString));
    }

    /** Checks `signature` against the challenge rebuilt from the stored nonce and
        the administrator's address; deletes the nonce only when the signer matches,
        and only then signs a token. */
    method SignIn(signature: string, now: int, recover: (string, string) -> Option<string>,
                  sign: JsonValue -> Option<string>) returns (r: Result<LoginResponse, HttpException>)
      modifies this
      ensures slot == SlotAfterSignIn(Verify(adminAddress, old(slot), now, signature, recover), old(slot))
      ensures r == SignInResult(Verify(adminAddress, old(slot), now, signature, recover), sign)
    {
      ghost var verdict := Verify(adminAddress, slot, now, signature, recover);
      if adminAddress.None? || adminAddress.value == "" {
        assert verdict == MissingConfig;
        return Err(InternalServerError(SignInConfigMessage));
      }
      var addressAdmin := adminAddress.value;
      var nonce := Lookup(slot, now);
      if nonce.None? || nonce.value == "" {
        assert verdict == MissingNonce;
        return Err(Unauthorized(NonceMissingMessage));
      }
      var messageString := ChallengeText(addressAdmin, nonce.value);
      var recovered := recover(messageString, signature);
      if recovered.None? {
        assert verdict == MalformedSignature;
        return Err(InternalServerError(SignInFailedMessage));
      }
      if ToLower(recovered.value) != ToLower(addressAdmin) {
        assert verdict == WrongSigner;
        return Err(Unauthorized(InvalidSignatureMessage));
      }
      assert verdict == Verified(addressAdmin);
      slot := None;
      var payload := JObject(AdminClaims(addressAdmin));
      var accessToken := sign(payload);
      if accessToken.None? {
        return Err(InternalServerError(SignInFailedMessage));
      }
      r := Ok(LoginResponse(accessToken.value));
    }
  }

  /** The challenge `getNonce` hands out carries the configured address, the tag
      'auth-login' and the stored nonce; its text is `JSON.stringify` of that object
      and reads back as it. */
  lemma NonceResponseIsChallenge(admin: Option<string>, uuid: string)
    ensures NonceResult(admin, uuid).Ok? <==> Configured(admin)
    ensures NonceResult(admin, uuid).Err? ==> NonceResult(admin, uuid).error == InternalServerError(NonceConfigMessage)
    ensures NonceResult(admin, uuid).Ok? ==>
      var resp := NonceResult(admin, uuid).value;
      resp.messageObject == MessageObject(admin.value, "auth-login", uuid) &&
      resp.messageString == Stringify(resp.messageObject) &&
      Parse(resp.messageString) == Some(resp.messageObject)
  {
    if Configured(admin) {
      ChallengeTextIsStringify(admin.value, uuid);
      ParseChallengeText(admin.value, uuid);
    }
  }

  /** What `signIn` sees of a nonce issued at `issuedAt`, whatever was stored
      before (`GetNonce` replaces the slot): once the TTL is past, the attempt is
      refused as having no nonce and the slot is left as it is; before that, the
      only text whose signature is checked is the challenge built from that nonce. */
  lemma IssueOverwrites(admin: Option<string>, uuid: string, issuedAt: int, now: int, signature: string,
                        recover: (string, string) -> Option<string>, recover': (string, string) -> Option<string>,
                        sign: JsonValue -> Option<string>)
    ensures var s := Some(Issued(uuid, issuedAt));
      var v := Verify(admin, s, now, signature, recover);
      now > issuedAt + NonceTtl ==>
        SlotAfterSignIn(v, s) == s &&
        SignInResult(v, sign) ==
          if Configured(admin) then Err(Unauthorized(NonceMissingMessage)) else Err(InternalServerError(SignInConfigMessage))
    ensures Configured(admin) && recover'(ChallengeText(admin.value, uuid), signature) == recover(ChallengeText(admin.value, uuid), signature) ==>
      Verify(admin, Some(Issued(uuid, issuedAt)), now, signature, recover') ==
      Verify(admin, Some(Issued(uuid, issuedAt)), now, signature, recover)
  {
    var s := Some(Issued(uuid, issuedAt));
    if now > issuedAt + NonceTtl {
      assert Lookup(s, now) == None;
    }
  }

  /** After a second `getNonce`, `signIn` checks signatures against the new
      challenge, whose text differs from the one handed out the first time. */
  lemma ReissueReplacesChallenge(admin: Option<string>, first: string, second: string, issuedAt: int, now: int,
                                 signature: string, recover: (string, string) -> Option<string>)
    requires Configured(admin) && first != second && second != ""
    requires now <= issuedAt + NonceTtl
    ensures NonceResult(admin, first).value.messageString != NonceResult(admin, second).value.messageString
    ensures Verify(admin, Some(Issued(second, issuedAt)), now, signature, recover) ==
      match recover(NonceResult(admin, second).value.messageString, signature)
      case None => MalformedSignature
      case Some(recovered) => if EqualsIgnoringCase(recovered, admin.value) then Verified(admin.value) else WrongSigner
  {
    ChallengeTextInjective(admin.value, first, admin.value, second);
  }

  /** Without `ADDRESS_ADMIN`, `signIn` answers 500 before touching the cache. */
  lemma SignInWithoutAdmin(admin: Option<string>, slot: Option<NonceEntry>, now: int, signature: string,
                           recover: (string, string) -> Option<string>, sign: JsonValue -> Option<string>)
    requires !Configured(admin)
    ensures var v := Verify(admin, slot, now, signature, recover);
      SignInResult(v, sign) == Err(InternalServerError(SignInConfigMessage)) && SlotAfterSignIn(v, slot) == slot
  {
  }

  /** With no live nonce (never issued, expired or already deleted), `signIn`
      answers 401 and leaves the cache as it was. */
  lemma SignInWithoutNonce(admin: Option<string>, slot: Option<NonceEntry>, now: int, signature: string,
                           recover: (string, string) -> Option<string>, sign: JsonValue -> Option<string>)
    requires Configured(admin)
    requires slot.None? || now > slot.value.expiresAt || slot.value.nonce == ""
    ensures var v := Verify(admin, slot, now, signature, recover);
      SignInResult(v, sign) == Err(Unauthorized(NonceMissingMessage)) && SlotAfterSignIn(v, slot) == slot
  {
  }

  /** Round trip: a signature over the `messageString` that `getNonce` returned,
      recovering to the administrator's address up to case, is accepted while the
      nonce lives; the nonce is deleted and the token signs `{sub: admin, admin: true}`. */
  lemma SignInAcceptsIssuedChallenge(admin: Option<string>, uuid: string, issuedAt: int, now: int, signature: string,
                                     recover: (string, string) -> Option<string>, sign: JsonValue -> Option<string>)
    requires Configured(admin) && uuid != "" && now <= issuedAt + NonceTtl
    requires var m := NonceResult(admin, uuid).value.messageString;
      recover(m, signature).Some? && EqualsIgnoringCase(recover(m, signature).value, admin.value)
    ensures var v := Verify(admin, Some(Issued(uuid, issuedAt)), now, signature, recover);
      v == Verified(admin.value) && SlotAfterSignIn(v, Some(Issued(uuid, issuedAt))) == None &&
      SignInResult(v, sign) == match sign(JObject(AdminClaims(admin.value)))
        case None => Err(InternalServerError(SignInFailedMessage))
        case Some(token) => Ok(LoginResponse(token))
  {
  }

  /** A signature that recovers to some other address is answered 401 before the
      delete: the nonce stays stored for a later, correct attempt. */
  lemma WrongSignerKeepsNonce(admin: Option<string>, slot: Option<NonceEntry>, now: int, signature: string,
                              recover: (string, string) -> Option<string>, sign: JsonValue -> Option<string>)
    requires Configured(admin) && Lookup(slot, now).Some? && Lookup(slot, now).value != ""
    requires var m := ChallengeText(admin.value, Lookup(slot, now).value);
      recover(m, signature).Some? && !EqualsIgnoringCase(recover(m, signature).value, admin.value)
    ensures var v := Verify(admin, slot, now, signature, recover);
      SignInResult(v, sign) == Err(Unauthorized(InvalidSignatureMessage)) && SlotAfterSignIn(v, slot) == slot
  {
  }

  /** A signature `verifyMessage` rejects is not an authentication failure but an
      unexpected error: the catch block turns it into a 500, and the nonce stays. */
  lemma MalformedSignatureIs500(admin: Option<string>, slot: Option<NonceEntry>, now: int, signature: string,
                                recover: (string, string) -> Option<string>, sign: JsonValue -> Option<string>)
    requires Configured(admin) && Lookup(slot, now).Some? && Lookup(slot, now).value != ""
    requires recover(ChallengeText(admin.value, Lookup(slot, now).value), signature).None?
    ensures var v := Verify(admin, slot, now, signature, recover);
      SignInResult(v, sign) == Err(InternalServerError(SignInFailedMessage)) &&
      SignInResult(v, sign).error.Status() == 500 && SlotAfterSignIn(v, slot) == slot
  {
  }

  /** The nonce is consumed exactly when every check passed; a signing failure
      after that still leaves it consumed. */
  lemma NonceConsumedOnlyWhenVerified(admin: Option<string>, slot: Option<NonceEntry>, now: int, signature: string,
                                      recover: (string, string) -> Option<string>, sign: JsonValue -> Option<string>)
    requires slot.Some?
    ensures var v := Verify(admin, slot, now, signature, recover);
      (SlotAfterSignIn(v, slot) == None <==> v.Verified?) &&
      (SignInResult(v, sign).Ok? ==> SlotAfterSignIn(v, slot) == None)
  {
  }

  /** Every failure is a 401 for a missing nonce or a wrong signer, and a 500 for
      everything else; nothing else escapes `signIn`. */
  lemma SignInErrorClasses(v: Verdict, sign: JsonValue -> Option<string>)
    ensures SignInResult(v, sign).Err? && SignInResult(v, sign).error.Unauthorized? <==> v.MissingNonce? || v.WrongSigner?
    ensures SignInResult(v, sign).Err? && SignInResult(v, sign).error.InternalServerError? <==>
      v.MissingConfig? || v.MalformedSignature? || (v.Verified? && sign(JObject(AdminClaims(v.admin))).None?)
  {
  }

  /** A successful `signIn` returns the signature of `{sub: configured admin, admin: true}`;
      the recovered address, whatever its case, never enters the token. */
  lemma TokenSignsAdminClaims(admin: Option<string>, slot: Option<NonceEntry>, now: int, signature: string,
                              recover: (string, string) -> Option<string>, sign: JsonValue -> Option<string>)
    requires SignInResult(Verify(admin, slot, now, signature, recover), sign).Ok?
    ensures Configured(admin)
    ensures sign(JObject(AdminClaims(admin.value))) ==
      Some(SignInResult(Verify(admin, slot, now, signature, recover), sign).value.accessToken)
  {
  }

  /** Replay: once a `signIn` has succeeded, any later attempt, with any signature,
      is answered 401 until a new nonce is issued. */
  lemma ReplayRejected(admin: Option<string>, slot: Option<NonceEntry>, now: int, signature: string,
                       recover: (string, string) -> Option<string>, sign: JsonValue -> Option<string>,
                       later: int, signature2: string, recover2: (string, string) -> Option<string>,
                       sign2: JsonValue -> Option<string>)
    requires SignInResult(Verify(admin, slot, now, signature, recover), sign).Ok?
    ensures var after := SlotAfterSignIn(Verify(admin, slot, now, signature, recover), slot);
      var v2 := Verify(admin, after, later, signature2, recover2);
      SignInResult(v2, sign2) == Err(Unauthorized(NonceMissingMessage)) && SlotAfterSignIn(v2, after) == None
  {
  }
}
