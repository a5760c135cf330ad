/** The bearer-token gate of `JwtStrategy`: where the token is taken from, the
    expiry check the strategy keeps switched on, and `validate`, which turns a
    verified payload into the request's user. */
module JwtStrategy {
  import opened Wrappers
  import opened Http
  import opened Json
  import opened Text

  /** The cookie the login route sets. */
  const AuthCookie := "etherdoc-auth"

  const InvalidPayloadMessage := "Invalid token payload"
  const MissingSecretMessage := "Configuration key \"JWT_SECRET\" does not exist"
  const NoSecretOrKeyMessage := "JwtStrategy requires a secret or key"

  /** The parts of an Express request the gate reads: the parsed cookies (absent
      without a cookie parser) and the `Authorization` header. */
  datatype Request = Request(cookies: Option<map<string, string>>, authorization: Option<string>)

  /** The options the constructor hands to passport-jwt. */
  datatype StrategyOptions = StrategyOptions(secretOrKey: string, ignoreExpiration: bool)

  /** An `Authorization` header split into scheme and credentials. */
  datatype AuthParams = AuthParams(scheme: string, value: string)

  /** What `validate` attaches to the request. */
  datatype User = User(address: JsonValue, isAdmin: bool)

  /** The constructor: `getOrThrow('JWT_SECRET')` throws when the key is unset, and
      passport-jwt refuses an empty secret; otherwise expiry is enforced. */
  function NewStrategy(jwtSecret: Option<string>): (r: Result<StrategyOptions, string>)
    ensures r.Ok? <==> jwtSecret.Some? && jwtSecret.value != ""
    ensures r.Ok? ==> r.value.secretOrKey == jwtSecret.value && !r.value.ignoreExpiration
  {
    if jwtSecret.None? then Err(MissingSecretMessage)
    else if jwtSecret.value == "" then Err(NoSecretOrKeyMessage)
    else Ok(StrategyOptions(jwtSecret.value, false))
  }

  /** `cookieExtractor`: the 'etherdoc-auth' cookie when the request and its cookie
      map exist, otherwise nothing. */
  function CookieExtractor(req: Option<Request>): (token: Option<string>)
    ensures token.Some? <==> req.Some? && req.value.cookies.Some? && AuthCookie in req.value.cookies.value
    ensures token.Some? ==> token.value == req.value.cookies.value[AuthCookie]
  {
    if req.Some? && req.value.cookies.Some? && AuthCookie in req.value.cookies.value then
      Some(req.value.cookies.value[AuthCookie])
    else
      None
  }

  /** `s` without its leading `\s` characters. */
  function TrimStart(s: string): (r: string)
    ensures |r| <= |s| && r == s[|s| - |r|..]
    ensures AllSpace(s[..|s| - |r|])
    ensures r == [] || !IsSpace(r[0])
    decreases |s|
  {
    if s != [] && IsSpace(s[0]) then TrimStart(s[1..]) else s
  }

  /** The longest prefix of `s` without `\s` characters, and what follows it. */
  function SplitWord(s: string): (r: (string, string))
    ensures r.0 + r.1 == s
    ensures NoSpace(r.0)
    ensures r.1 == [] || IsSpace(r.1[0])
    decreases |s|
  {
    if s != [] && !IsSpace(s[0]) then
      var (w, rest) := SplitWord(s[1..]);
      NoSpacePrepend(s[0], w);
      ([s[0]] + w, rest)
    else
      ([], s)
  }

  /** passport-jwt's header parser, the first match of `/(\S+)\s+(\S+)/`: the first
      two runs of non-blank characters, when there are two. */
  function ParseAuthHeader(h: string): (r: Option<AuthParams>)
    ensures r.Some? ==> r.value.scheme != [] && r.value.value != []
    ensures r.Some? ==> NoSpace(r.value.scheme) && NoSpace(r.value.value)
  {
    var (scheme, afterScheme) := SplitWord(TrimStart(h));
    var (value, _) := SplitWord(TrimStart(afterScheme));
    if scheme != [] && value != [] then Some(AuthParams(scheme, value)) else None
  }

  lemma {:induction false} TrimStartOf(lead: string, s: string)
    requires AllSpace(lead)
    requires s == [] || !IsSpace(s[0])
    ensures TrimStart(lead + s) == s
  {
    if lead != [] {
      assert (lead + s)[1..] == lead[1..] + s;
      TrimStartOf(lead[1..], s);
    }
  }

  lemma {:induction false} SplitWordOf(w: string, s: string)
    requires NoSpace(w)
    requires s == [] || IsSpace(s[0])
    ensures SplitWord(w + s) == (w, s)
  {
    if w != [] {
      assert (w + s)[0] == w[0] && !IsSpace(w[0]);
      assert (w + s)[1..] == w[1..] + s;
      assert NoSpace(w[1..]) by {
        forall i | 0 <= i < |w[1..]| ensures !IsSpace(w[1..][i]) {
          assert w[1..][i] == w[i + 1];
        }
      }
      SplitWordOf(w[1..], s);
      assert [w[0]] + w[1..] == w;
    } else {
      assert w + s == s;
    }
  }

  /** A header made of blanks, a scheme, at least one blank, the credentials and
      then nothing or a blank, parses back into that scheme and those credentials. */
  lemma ParseAuthHeaderOf(lead: string, scheme: string, gap: string, value: string, tail: string)
    requires AllSpace(lead) && AllSpace(gap) && gap != []
    requires scheme != [] && NoSpace(scheme) && value != [] && NoSpace(value)
    requires tail == [] || IsSpace(tail[0])
    ensures ParseAuthHeader(lead + scheme + gap + value + tail) == Some(AuthParams(scheme, value))
  {
    var h := lead + scheme + gap + value + tail;
    assert h == lead + (scheme + (gap + (value + tail)));
    TrimStartOf(lead, scheme + (gap + (value + tail)));
    SplitWordOf(scheme, gap + (value + tail));
    TrimStartOf(gap, value + tail);
    SplitWordOf(value, tail);
  }

  /** `ExtractJwt.fromAuthHeaderAsBearerToken()`: the credentials of an
      `Authorization` header whose scheme is 'bearer' in any case. */
  function BearerExtractor(req: Request): Option<string> {
    if req.authorization.None? || req.authorization.value == "" then None
    else
      match ParseAuthHeader(req.authorization.value)
      case None => None
      case Some(p) => if ToLower(p.scheme) == "bearer" then Some(p.value) else None
  }

  /** `ExtractJwt.fromExtractors([cookieExtractor, bearer])`: the first truthy token. */
  function ExtractToken(req: Request): (token: Option<string>)
    ensures token.Some? ==> token.value != ""
  {
    var fromCookie := CookieExtractor(Some(req));
    if fromCookie.Some? && fromCookie.value != "" then fromCookie else BearerExtractor(req)
  }

  /** The `exp` check `jsonwebtoken` applies unless `ignoreExpiration` is set
      (section 4.1.4 of RFC 7519): refused once `nowSeconds` reaches `exp`, refused
      when `exp` is not a number, and no limit when there is no `exp`. */
  predicate NotExpired(payload: JsonValue, nowSeconds: int, ignoreExpiration: bool) {
    var exp := Get(Some(payload), "exp");
    ignoreExpiration || exp.None? || (exp.value.JNumber? && nowSeconds < exp.value.n)
  }

  /** `validate`: refuses a falsy payload, a falsy `sub` and a non-boolean `admin`;
      otherwise maps the payload to `{address: sub, isAdmin: admin}`. */
  function Validate(payload: Option<JsonValue>): (r: Result<User, HttpException>)
    ensures r.Err? ==> r.error == Unauthorized(InvalidPayloadMessage)
  {
    if !Truthy(payload) || !Truthy(Get(payload, "sub")) || !IsBoolean(Get(payload, "admin")) then
      Err(Unauthorized(InvalidPayloadMessage))
    else
      Ok(User(Get(payload, "sub").value, Get(payload, "admin").value.b))
  }

  /** passport-jwt's flow with this strategy's options: extract, verify the
      signature (`verify`, the HMAC check of `jsonwebtoken`), check expiry, then
      `validate`. Without a token or with a bad one the guard answers a bare 401. */
  function Authenticate(options: StrategyOptions, req: Request, nowSeconds: int,
                        verify: (string, string) -> Option<JsonValue>): Result<User, HttpException>
  {
    match ExtractToken(req)
    case None => Err(Unauthorized(UnauthorizedMessage))
    case Some(token) =>
      match verify(token, options.secretOrKey)
      case None => Err(Unauthorized(UnauthorizedMessage))
      case Some(payload) =>
        if !NotExpired(payload, nowSeconds, options.ignoreExpiration) then Err(Unauthorized(UnauthorizedMessage))
        else Validate(Some(payload))
  }

  /** `validate` accepts exactly the objects with a truthy `sub` and a boolean
      `admin`, and returns those two values untouched. */
  lemma ValidateAcceptsIff(payload: Option<JsonValue>)
    ensures Validate(payload).Ok? <==>
      payload.Some? && payload.value.JObject? &&
      "sub" in payload.value.fields && Truthy(Some(payload.value.fields["sub"])) &&
      "admin" in payload.value.fields && payload.value.fields["admin"].JBool?
    ensures Validate(payload).Ok? ==>
      Validate(payload).value == User(payload.value.fields["sub"], payload.value.fields["admin"].b)
  {
  }

  /** Only the type of `admin` is checked: a token saying `admin: false` passes. */
  lemma ValidateAcceptsNonAdmin(sub: string)
    requires sub != ""
    ensures Validate(Some(JObject(map["sub" := JString(sub), "admin" := JBool(false)]))) == Ok(User(JString(sub), false))
  {
  }

  /** Claims other than `sub` and `admin` play no part in `validate`. */
  lemma ValidateReadsOnlySubAndAdmin(f1: map<string, JsonValue>, f2: map<string, JsonValue>)
    requires ("sub" in f1 <==> "sub" in f2) && ("sub" in f1 ==> f1["sub"] == f2["sub"])
    requires ("admin" in f1 <==> "admin" in f2) && ("admin" in f1 ==> f1["admin"] == f2["admin"])
    ensures Validate(Some(JObject(f1))) == Validate(Some(JObject(f2)))
  {
  }

  /** A truthy cookie wins: the `Authorization` header is then never consulted. */
  lemma CookieTakesPriority(req: Request, header: Option<string>)
    requires CookieExtractor(Some(req)).Some? && CookieExtractor(Some(req)).value != ""
    ensures ExtractToken(req) == CookieExtractor(Some(req))
    ensures ExtractToken(req.(authorization := header)) == ExtractToken(req)
  {
  }

  /** Without a truthy cookie, the token is whatever the bearer extractor finds. */
  lemma BearerWithoutCookie(req: Request)
    requires CookieExtractor(Some(req)).None? || CookieExtractor(Some(req)).value == ""
    ensures ExtractToken(req) == BearerExtractor(req)
  {
  }

  /** A scheme that lower-cases to 'bearer' is a single non-blank word. */
  lemma BearerSchemeIsWord(scheme: string)
    requires ToLower(scheme) == "bearer"
    ensures scheme != [] && NoSpace(scheme)
  {
    forall i | 0 <= i < |scheme| ensures !IsSpace(scheme[i]) {
      ToLowerAt(scheme, i);
    }
  }

  lemma NoEnds(scheme: string, gap: string, value: string)
    ensures [] + scheme + gap + value + [] == scheme + gap + value
  {
  }

  /** Section 2.1 of RFC 6750: `Authorization: Bearer <token>`, the scheme in any
      case, yields the token when no cookie carries one. */
  lemma BearerHeaderYieldsToken(cookies: Option<map<string, string>>, scheme: string, token: string)
    requires cookies.None? || AuthCookie !in cookies.value || cookies.value[AuthCookie] == ""
    requires ToLower(scheme) == "bearer"
    requires token != [] && NoSpace(token)
    ensures ExtractToken(Request(cookies, Some(scheme + " " + token))) == Some(token)
  {
    BearerSchemeIsWord(scheme);
    assert AllSpace(" ");
    ParseAuthHeaderOf([], scheme, " ", token, []);
    NoEnds(scheme, " ", token);
    var h := scheme + " " + token;
    assert ParseAuthHeader(h) == Some(AuthParams(scheme, token));
    assert BearerExtractor(Request(cookies, Some(h))) == Some(token);
  }

  /** The gate lets a request through exactly when it carries a token, `verify`
      accepts that token under the configured secret, the payload has not expired
      and `validate` accepts it; the user is then `validate`'s. Without a token, or
      with one `verify` rejects, the answer is the bare 401. */
  lemma GateRequiresVerifiedToken(options: StrategyOptions, req: Request, nowSeconds: int,
                                  verify: (string, string) -> Option<JsonValue>)
    ensures ExtractToken(req).None? ==> Authenticate(options, req, nowSeconds, verify) == Err(Unauthorized(UnauthorizedMessage))
    ensures ExtractToken(req).Some? && verify(ExtractToken(req).value, options.secretOrKey).None? ==>
      Authenticate(options, req, nowSeconds, verify) == Err(Unauthorized(UnauthorizedMessage))
    ensures Authenticate(options, req, nowSeconds, verify).Ok? <==>
      ExtractToken(req).Some? &&
      var payload := verify(ExtractToken(req).value, options.secretOrKey);
      payload.Some? && NotExpired(payload.value, nowSeconds, options.ignoreExpiration) && Validate(payload).Ok?
    ensures Authenticate(options, req, nowSeconds, verify).Ok? ==>
      Authenticate(options, req, nowSeconds, verify) == Validate(verify(ExtractToken(req).value, options.secretOrKey))
  {
  }

  /** Every failure of the gate is a 401. */
  lemma GateFailuresAre401(options: StrategyOptions, req: Request, nowSeconds: int,
                           verify: (string, string) -> Option<JsonValue>)
    ensures Authenticate(options, req, nowSeconds, verify).Err? ==>
      Authenticate(options, req, nowSeconds, verify).error.Status() == 401
  {
  }

  /** With the options the constructor builds, a token whose `exp` has passed is
      refused whatever its payload. */
  lemma ExpiredTokenRejected(jwtSecret: Option<string>, req: Request, nowSeconds: int,
                             verify: (string, string) -> Option<JsonValue>, exp: int)
    requires NewStrategy(jwtSecret).Ok?
    requires ExtractToken(req).Some?
    requires var p := verify(ExtractToken(req).value, jwtSecret.value);
      p.Some? && Get(p, "exp") == Some(JNumber(exp))
    requires nowSeconds >= exp
    ensures Authenticate(NewStrategy(jwtSecret).value, req, nowSeconds, verify) == Err(Unauthorized(UnauthorizedMessage))
  {
  }
}
