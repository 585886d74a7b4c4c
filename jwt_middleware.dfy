/**
 * middleware.JWTMiddleware: the Bearer scheme of section 2.1 of RFC 6750 on the
 * Authorization header, matched case-sensitively. Token verification is an opaque
 * function of the token and the captured secret.
 */
module Middleware {
  import opened Wrappers
  import opened Http

  /**
   * A context key: Go compares keys by type and value, so a plain string key never equals
   * a key of the middleware's own unexported type, even with the same text.
   */
  datatype ContextKey = StringKey(text: string) | MiddlewareKey(text: string)

  /** The context key the verified email is stored under: contextKey("user_email"). */
  const UserEmailKey := MiddlewareKey("user_email")

  const BearerPrefix := "Bearer "

  /** strings.HasPrefix. */
  predicate HasPrefix(s: string, prefix: string): (b: bool)
    ensures b <==> |prefix| <= |s| && forall i :: 0 <= i < |prefix| ==> s[i] == prefix[i]
    ensures b ==> s == prefix + s[|prefix|..]
  {
    |prefix| <= |s| && s[..|prefix|] == prefix
  }

  /** strings.TrimPrefix: one leading prefix removed, if there is one. */
  function TrimPrefix(s: string, prefix: string): (r: string)
    ensures HasPrefix(s, prefix) ==> prefix + r == s
    ensures !HasPrefix(s, prefix) ==> r == s
  {
    if HasPrefix(s, prefix) then s[|prefix|..] else s
  }

  /** The request is refused with a response, or handed on to the next handler with a context. */
  datatype Gate = Reject(response: Response) | Forward(ctx: map<ContextKey, string>)

  /** The gate's decision and the string it asked the verifier about, if any. */
  datatype Checked = Checked(verified: Option<string>, gate: Gate)

  /**
   * One request through the middleware: `header` is the Authorization header ("" when
   * absent), `ctx` the request's context values.
   */
  function JWTMiddleware(secret: string, verify: (string, string) -> Result<string>,
                         header: string, ctx: map<ContextKey, string>): (c: Checked)
    // No header: 401, nothing verified, next handler not invoked.
    ensures header == "" ==> c == Checked(None, Reject(HttpError("Authorization header missing", StatusUnauthorized)))
    // A header without the exact prefix: 401, nothing verified.
    ensures header != "" && !HasPrefix(header, BearerPrefix) ==>
      c == Checked(None, Reject(HttpError("Invalid token format", StatusUnauthorized)))
    // The verifier sees the header with one "Bearer " removed, and only when the prefix is there.
    ensures c.verified.Some? <==> HasPrefix(header, BearerPrefix)
    ensures c.verified.Some? ==> BearerPrefix + c.verified.value == header
    // A verification failure: 401 carrying the verifier's message.
    ensures c.verified.Some? && verify(c.verified.value, secret).Err? ==>
      c.gate == Reject(HttpError("Invalid token: " + verify(c.verified.value, secret).error, StatusUnauthorized))
    // Forwarded exactly when the token verifies, with the email added to the context.
    ensures c.gate.Forward? <==> c.verified.Some? && verify(c.verified.value, secret).Ok?
    ensures c.gate.Forward? ==> c.gate.ctx == ctx[UserEmailKey := verify(c.verified.value, secret).value]
    ensures c.gate.Reject? ==> c.gate.response.status == StatusUnauthorized
  {
    if header == "" then
      Checked(None, Reject(HttpError("Authorization header missing", StatusUnauthorized)))
    else if !HasPrefix(header, BearerPrefix) then
      Checked(None, Reject(HttpError("Invalid token format", StatusUnauthorized)))
    else
      var token := TrimPrefix(header, BearerPrefix);
      match verify(token, secret)
      case Err(e) => Checked(Some(token), Reject(HttpError("Invalid token: " + e, StatusUnauthorized)))
      case Ok(email) => Checked(Some(token), Forward(ctx[UserEmailKey := email]))
  }

  /** For a header "Bearer " + t, the verifier is asked about exactly t. */
  lemma BearerTokenExtracted(secret: string, verify: (string, string) -> Result<string>,
                                                t: string, ctx: map<ContextKey, string>)
    ensures JWTMiddleware(secret, verify, BearerPrefix + t, ctx).verified == Some(t)
  {
  }

  /** The scheme is matched case-sensitively: "bearer " + t is refused before verification. */
  lemma LowercaseSchemeRefused(secret: string, verify: (string, string) -> Result<string>,
                                                  t: string, ctx: map<ContextKey, string>)
    ensures JWTMiddleware(secret, verify, "bearer " + t, ctx)
         == Checked(None, Reject(HttpError("Invalid token format", StatusUnauthorized)))
  {
  }

  /**
   * The decision depends only on the header and the secret: the context a request arrives
   * with only changes what is forwarded, and every other context value is kept.
   */
  lemma DecisionIgnoresContext(secret: string, verify: (string, string) -> Result<string>,
                                                  header: string, ctx1: map<ContextKey, string>, ctx2: map<ContextKey, string>)
    ensures JWTMiddleware(secret, verify, header, ctx1).verified == JWTMiddleware(secret, verify, header, ctx2).verified
    ensures JWTMiddleware(secret, verify, header, ctx1).gate.Forward? == JWTMiddleware(secret, verify, header, ctx2).gate.Forward?
    ensures JWTMiddleware(secret, verify, header, ctx1).gate.Reject? ==>
      JWTMiddleware(secret, verify, header, ctx1).gate == JWTMiddleware(secret, verify, header, ctx2).gate
    ensures var g := JWTMiddleware(secret, verify, header, ctx1).gate;
      g.Forward? ==> forall k :: k in ctx1 && k != UserEmailKey ==> k in g.ctx && g.ctx[k] == ctx1[k]
  {
  }

  /** A value stored under the plain string key "user_email" survives forwarding. */
  lemma StringKeyKept(secret: string, verify: (string, string) -> Result<string>,
                                         header: string, ctx: map<ContextKey, string>)
    requires StringKey("user_email") in ctx
    ensures var g := JWTMiddleware(secret, verify, header, ctx).gate;
      g.Forward? ==> StringKey("user_email") in g.ctx && g.ctx[StringKey("user_email")] == ctx[StringKey("user_email")]
  {
  }
}
