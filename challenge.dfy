/** The login challenge: the object `{address, message, nonce}` the server asks
    the administrator's wallet to sign, and its `JSON.stringify` text. */
module Challenge {
  import opened Wrappers
  import opened Json

  /** The fixed purpose tag of a login challenge. */
  const LoginPurpose := "auth-login"

  datatype MessageObject = MessageObject(address: string, message: string, nonce: string)

  /** The object literal `{address, message: 'auth-login', nonce}`. */
  function Build(address: string, nonce: string): (m: MessageObject)
    ensures m.address == address && m.message == LoginPurpose && m.nonce == nonce
  {
    MessageObject(address, LoginPurpose, nonce)
  }

  /** `JSON.stringify(m)`: no whitespace, keys in the order they were inserted
      (address, message, nonce; OrdinaryOwnPropertyKeys, section 10.1.11.1 of ECMA-262). */
  function Stringify(m: MessageObject): string {
    "{\"address\":" + Quote(m.address) + ",\"message\":" + Quote(m.message) + ",\"nonce\":" + Quote(m.nonce) + "}"
  }

  /** The tag as `JSON.stringify` writes it: it needs no escaping. */
  const QuotedLoginPurpose := "\"" + LoginPurpose + "\""

  lemma QuoteLoginPurpose()
    ensures Quote(LoginPurpose) == QuotedLoginPurpose
  {
    assert Escape(LoginPurpose) == LoginPurpose by { EscapePlain(LoginPurpose); }
  }

  /** The text both `getNonce` and `signIn` compute for the challenge of `address`
      and `nonce`, with the fixed tag already quoted. */
  function ChallengeText(address: string, nonce: string): string {
    "{\"address\":" + Quote(address) + ",\"message\":" + QuotedLoginPurpose + ",\"nonce\":" + Quote(nonce) + "}"
  }

  /** `ChallengeText` is exactly `JSON.stringify` of the challenge object. */
  lemma ChallengeTextIsStringify(address: string, nonce: string)
    ensures ChallengeText(address, nonce) == Stringify(Build(address, nonce))
  {
    QuoteLoginPurpose();
  }

  /** When `s` starts with `lead` and then a JSON string literal: the decoded
      literal and the text after its closing quote. */
  function ExpectString(s: string, lead: string): Option<(string, string)> {
    if |lead| < |s| && s[..|lead|] == lead && s[|lead|] == '"' then Unescape(s[|lead| + 1..]) else None
  }

  /** Reads back exactly the text `Stringify` writes. */
  function Parse(s: string): Option<MessageObject> {
    match ExpectString(s, "{\"address\":")
    case None => None
    case Some((address, r1)) =>
      match ExpectString(r1, ",\"message\":")
      case None => None
      case Some((message, r2)) =>
        match ExpectString(r2, ",\"nonce\":")
        case None => None
        case Some((nonce, r3)) => if r3 == "}" then Some(MessageObject(address, message, nonce)) else None
  }

  lemma ExpectStringOf(lead: string, v: string, rest: string)
    ensures ExpectString(lead + Quote(v) + rest, lead) == Some((v, rest))
  {
    var s := lead + Quote(v) + rest;
    assert s == lead + ("\"" + (Escape(v) + "\"" + rest));
    assert s[..|lead|] == lead;
    assert s[|lead|] == '"';
    assert s[|lead| + 1..] == Escape(v) + "\"" + rest;
    UnescapeEscape(v, rest);
  }

  lemma Regroup(p1: string, x: string, p2: string, y: string, p3: string, z: string, p4: string)
    ensures p1 + x + p2 + y + p3 + z + p4 == p1 + x + (p2 + y + (p3 + z + p4))
  {
  }

  /** Round trip: the text determines the object it was written from. */
  lemma ParseStringify(m: MessageObject)
    ensures Parse(Stringify(m)) == Some(m)
  {
    var qa, qm, qn := Quote(m.address), Quote(m.message), Quote(m.nonce);
    var r2 := ",\"nonce\":" + qn + "}";
    var r1 := ",\"message\":" + qm + r2;
    Regroup("{\"address\":", qa, ",\"message\":", qm, ",\"nonce\":", qn, "}");
    ExpectStringOf("{\"address\":", m.address, r1);
    ExpectStringOf(",\"message\":", m.message, r2);
    ExpectStringOf(",\"nonce\":", m.nonce, "}");
  }

  /** The challenge text reads back as the challenge object. */
  lemma ParseChallengeText(address: string, nonce: string)
    ensures Parse(ChallengeText(address, nonce)) == Some(Build(address, nonce))
  {
    ChallengeTextIsStringify(address, nonce);
    ParseStringify(Build(address, nonce));
  }

  /** Two challenges are written as the same text only if they are the same
      challenge: a different nonce or address always gives a different string to sign. */
  lemma StringifyInjective(m1: MessageObject, m2: MessageObject)
    ensures Stringify(m1) == Stringify(m2) ==> m1 == m2
  {
    ParseStringify(m1);
    ParseStringify(m2);
  }

  /** Challenge texts for different addresses or nonces differ. */
  lemma ChallengeTextInjective(a1: string, n1: string, a2: string, n2: string)
    ensures ChallengeText(a1, n1) == ChallengeText(a2, n2) ==> a1 == a2 && n1 == n2
  {
    ParseChallengeText(a1, n1);
    ParseChallengeText(a2, n2);
  }
}
