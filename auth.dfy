/**
 * The authentication middleware (BackEnd/middleware/auth.js): it reads the
 * `Authorization` header, takes the second space-separated field as the
 * token, has it verified, and either records the caller in `req.auth` and
 * calls `next`, or answers 401.  Token verification (jwt.verify with the
 * server secret) is a parameter: `verify(token)` is the decoded `userId`, or
 * None when verification throws.
 */
module Auth {
  import opened Wrappers
  import opened JsStrings
  import opened Users

  /** Message of the 401 sent when the header is absent or empty. */
  const MissingToken := "Token manquant"
  /** Message of the 401 sent from the catch block. */
  const Unauthenticated := "Requête non authentifiée"

  /** What the middleware decides for one request. */
  datatype Verdict = Unauthorized(message: string) | Authorized(userId: UserId)

  /** `authHeader.split(" ")[1]`, None standing for `undefined`. */
  function Token(header: string): (t: Option<string>)
    ensures t.Some? <==> Contains(header, " ")
    ensures t.Some? ==> !Contains(t.value, " ")
  {
    SecondFieldIffContains(header, " ");
    Field(header, " ", 1)
  }

  /**
   * The decision the middleware takes.  A falsy header (absent or "") is
   * refused up front; an undefined token makes jwt.verify throw, which the
   * catch block turns into the same 401 as a token verify rejects.
   */
  function Gate(header: Option<string>, verify: string -> Option<UserId>): (v: Verdict)
    ensures v == Unauthorized(MissingToken) <==> header.None? || header.value == ""
    ensures v.Unauthorized? ==> v.message == MissingToken || v.message == Unauthenticated
    ensures v.Authorized? ==> header.Some? && Contains(header.value, " ")
    ensures v.Authorized? ==> verify(Token(header.value).value) == Some(v.userId)
  {
    if header.None? || header.value == "" then Unauthorized(MissingToken)
    else match Token(header.value)
      case None => Unauthorized(Unauthenticated)
      case Some(t) =>
        match verify(t)
        case None => Unauthorized(Unauthenticated)
        case Some(u) => Authorized(u)
  }

  /** A missing or empty header is refused with "Token manquant", whatever verify would say. */
  lemma MissingHeaderRejected(header: Option<string>, verify: string -> Option<UserId>)
    requires header.None? || header == Some("")
    ensures Gate(header, verify) == Unauthorized(MissingToken)
  {
  }

  /**
   * The token is the second space-separated field: for a scheme word and a
   * token without spaces, the header "scheme token" (and "scheme token ...")
   * is decided by verify(token) alone.
   */
  lemma TokenIsSecondField(scheme: string, token: string, more: Option<string>, verify: string -> Option<UserId>)
    requires !Contains(scheme, " ") && !Contains(token, " ")
    ensures var header := scheme + " " + token + (if more.Some? then " " + more.value else "");
      && Token(header) == Some(token)
      && Gate(Some(header), verify) == (if verify(token).Some? then Authorized(verify(token).value) else Unauthorized(Unauthenticated))
  {
    var tail := token + (if more.Some? then " " + more.value else "");
    assert scheme + " " + token + (if more.Some? then " " + more.value else "") == scheme + " " + tail;
    SplitAfterFirstChar(scheme, " ", tail);
    if more.Some? {
      assert tail == token + " " + more.value;
      SplitAfterFirstChar(token, " ", more.value);
    } else {
      assert tail == token;
      SplitWithout(token, " ");
    }
  }

  /** The scheme word before the first space is never inspected. */
  lemma SchemeNeverInspected(scheme1: string, scheme2: string, rest: string, verify: string -> Option<UserId>)
    requires !Contains(scheme1, " ") && !Contains(scheme2, " ")
    ensures Gate(Some(scheme1 + " " + rest), verify) == Gate(Some(scheme2 + " " + rest), verify)
  {
    SplitAfterFirstChar(scheme1, " ", rest);
    SplitAfterFirstChar(scheme2, " ", rest);
  }

  /** A non-empty header with no space has no token and is refused from the catch block. */
  lemma HeaderWithoutSpaceRejected(header: string, verify: string -> Option<UserId>)
    requires header != "" && !Contains(header, " ")
    ensures Gate(Some(header), verify) == Unauthorized(Unauthenticated)
  {
    SplitWithout(header, " ");
  }

  /**
   * Fail closed: the caller is admitted only under an identity verify
   * produced for the header's token, so a verifier that rejects every
   * token locks everybody out.
   */
  lemma {:induction false} AdmittedOnlyByVerify(header: Option<string>, verify: string -> Option<UserId>)
    ensures Gate(header, verify).Authorized? <==>
      header.Some? && header.value != "" && Token(header.value).Some? && verify(Token(header.value).value).Some?
    ensures Gate(header, verify).Authorized? ==> verify(Token(header.value).value) == Some(Gate(header, verify).userId)
    ensures (forall t :: verify(t).None?) ==> Gate(header, verify).Unauthorized?
  {
  }

  /** What has been sent on the response. */
  datatype Reply = Reply(status: int, error: string)

  /** One request/response pair as the middleware sees it. */
  class Exchange {
    /** `req.headers.authorization`. */
    const authorization: Option<string>
    /** `req.auth.userId`, once set. */
    var auth: Option<UserId>
    /** The response sent, if any. */
    var reply: Option<Reply>
    /** How many times `next` has been called. */
    var nextCalls: nat

    constructor (authorization: Option<string>)
      ensures this.authorization == authorization
      ensures auth.None? && reply.None? && nextCalls == 0
    {
      this.authorization := authorization;
      auth, reply, nextCalls := None, None, 0;
    }
  }

  /**
   * The middleware.  Exactly one of "next is called once" and "a 401 is
   * sent" happens; `req.auth` is set only on the path that calls next.
   */
  method Authenticate(x: Exchange, verify: string -> Option<UserId>)
    requires x.reply.None?
    modifies x
    ensures match Gate(x.authorization, verify)
      case Authorized(u) => x.auth == Some(u) && x.nextCalls == old(x.nextCalls) + 1 && x.reply.None?
      case Unauthorized(m) => x.reply == Some(Reply(401, m)) && x.nextCalls == old(x.nextCalls) && x.auth == old(x.auth)
    ensures (x.nextCalls == old(x.nextCalls) + 1) != x.reply.Some?
  {
    var authHeader := x.authorization;
    if authHeader.None? || authHeader.value == "" {
      x.reply := Some(Reply(401, MissingToken));
      return;
    }
    var token := Token(authHeader.value);
    // jwt.verify throws on an undefined token as on one it rejects
    var decoded := if token.Some? then verify(token.value) else None;
    if decoded.None? {
      x.reply := Some(Reply(401, Unauthenticated));
      return;
    }
    x.auth := Some(decoded.value);
    x.nextCalls := x.nextCalls + 1;
  }
}
