/** The authentication guard in front of the protected routes
    (middleware/auth.go): it reads the `Authorization` header, takes the
    token out of `Bearer <token>`, validates it, and either hands the
    token's email and user id to the next handler or answers 401 with the
    reason the rejection is counted under. */
module AuthMiddleware {
  import opened Wrappers
  import opened Http
  import opened Text
  import opened AuthController

  const ErrHeaderRequired := "Authorization header required"
  const ErrHeaderFormat := "Invalid authorization header format"
  const ErrInvalidToken := "Invalid or expired token"

  /** Why a request was turned away. */
  datatype Reason = Missing | Malformed | Expired | Invalid

  /** The label a rejection is counted under. */
  function ReasonLabel(r: Reason): string {
    match r
    case Missing => "missing"
    case Malformed => "malformed"
    case Expired => "expired"
    case Invalid => "invalid"
  }

  /** The guard's decision: run the next handler with the token's email and
      user id in the request context, or abort with an error response. */
  datatype Outcome =
    | Proceed(email: string, userId: string)
    | Abort(status: nat, error: string, reason: Reason)

  /** The header split on single spaces must give exactly `Bearer` and one
      more piece, which is the token (possibly empty). */
  function BearerToken(header: string): (t: Option<string>)
    ensures t.Some? ==> header == "Bearer " + t.value && ' ' !in t.value
  {
    var parts := Split(header, ' ');
    if |parts| != 2 || parts[0] != "Bearer" then None
    else
      assert Join(parts, ' ') == parts[0] + [' '] + parts[1];
      Some(parts[1])
  }

  /** `BearerToken` accepts exactly the headers `Bearer <token>` whose token
      holds no space. */
  lemma BearerTokenExactly(header: string, t: string)
    ensures BearerToken(header) == Some(t) <==> header == "Bearer " + t && ' ' !in t
  {
    if header == "Bearer " + t && ' ' !in t {
      var parts := ["Bearer", t];
      assert forall i :: 0 <= i < |parts| ==> ' ' !in parts[i];
      SplitJoin(parts, ' ');
      assert Join(parts, ' ') == header;
    }
  }

  /** A lower-case scheme, a token with a space, and a doubled space are all
      malformed; a bare `Bearer ` carries the empty token. */
  lemma MalformedHeaders()
    ensures BearerToken("bearer x").None?
    ensures BearerToken("Bearer a b").None?
    ensures BearerToken("Bearer  x").None?
    ensures BearerToken("Bearer ") == Some("")
  {
    LowerCaseSchemeMalformed();
    SpacedTokenMalformed();
    BearerTokenExactly("Bearer ", "");
  }

  /** The scheme is matched case-sensitively. */
  lemma LowerCaseSchemeMalformed()
    ensures BearerToken("bearer x").None?
  {
    forall t: string
      ensures "bearer x" != "Bearer " + t
    {
      assert ("Bearer " + t)[0] == 'B';
    }
  }

  /** A space inside the token, or a second space before it, is malformed. */
  lemma SpacedTokenMalformed()
    ensures BearerToken("Bearer a b").None?
    ensures BearerToken("Bearer  x").None?
  {
    assert "Bearer a b" == "Bearer " + "a b";
    assert "Bearer  x" == "Bearer " + " x";
  }

  /** How a validation error is counted: `Expired` exactly when its text
      mentions "expired". */
  function FailureReason(error: string): (r: Reason)
    ensures r == Expired || r == Invalid
  {
    if Contains(error, "expired") then Expired else Invalid
  }

  /** `AuthMiddleware` on one request; `parse` is the JWT library's parse as
      `ValidateToken` calls it. */
  function Authenticate(header: string, parse: string -> ParseOutcome): (o: Outcome)
    ensures o.Abort? ==> o.status == StatusUnauthorized
    ensures header == "" ==> o == Abort(StatusUnauthorized, ErrHeaderRequired, Missing)
    ensures header != "" && BearerToken(header).None? ==> o == Abort(StatusUnauthorized, ErrHeaderFormat, Malformed)
    ensures o.Proceed? <==> header != "" && BearerToken(header).Some? && ValidateToken(BearerToken(header).value, parse).Ok?
    ensures o.Proceed? ==>
      var claims := ValidateToken(BearerToken(header).value, parse).value;
      o.email == claims.email && o.userId == claims.userId
    ensures o.Abort? && (o.reason == Expired || o.reason == Invalid) ==>
      && header != "" && BearerToken(header).Some?
      && var r := ValidateToken(BearerToken(header).value, parse);
      && r.Err?
      && o.error == ErrInvalidToken
      && (o.reason == Expired <==> Contains(r.error, "expired"))
  {
    if header == "" then Abort(StatusUnauthorized, ErrHeaderRequired, Missing)
    else
      match BearerToken(header)
      case None => Abort(StatusUnauthorized, ErrHeaderFormat, Malformed)
      case Some(token) =>
        match ValidateToken(token, parse)
        case Err(e) => Abort(StatusUnauthorized, ErrInvalidToken, FailureReason(e))
        case Ok(claims) => Proceed(claims.email, claims.userId)
  }

  /** A token issued on the clock readings `tc` lets its holder through, as
      the email and user id it was issued for, from its not-before reading
      until 24 hours less one second after its expiry reading, and is turned
      away as expired from 24 hours after its expiry reading on. */
  lemma IssuedTokenAuthenticates(email: string, userId: string, tc: TokenClock, token: string,
                                 verify: string -> Result<Claims, string>, at: nat)
    requires verify(token) == Ok(TokenClaims(email, userId, tc))
    requires ' ' !in token
    ensures tc.notBeforeReading <= at < tc.expiryReading + TokenLifetime - 999 ==>
      Authenticate("Bearer " + token, t => JwtParse(verify, at, t)) == Proceed(email, userId)
    ensures at >= tc.expiryReading + TokenLifetime ==>
      Authenticate("Bearer " + token, t => JwtParse(verify, at, t)) == Abort(StatusUnauthorized, ErrInvalidToken, Expired)
  {
    BearerTokenExactly("Bearer " + token, token);
    IssuedTokenLifetime(email, userId, tc, token, verify, at);
    ExpiryErrorsMentionExpired();
  }

  /** Both error texts that report an expired token say "expired". */
  lemma ExpiryErrorsMentionExpired()
    ensures Contains(ErrTokenExpired, "expired")
    ensures Contains(ErrTokenExpiredNotValidYet, "expired")
  {
    assert OccursAt(ErrTokenExpired, "expired", 35);
    assert ErrTokenExpiredNotValidYet[35..42] == ErrTokenExpired[35..42];
    assert OccursAt(ErrTokenExpiredNotValidYet, "expired", 35);
  }

  /** A token the library rejects before the time checks (malformed,
      undecodable claims, bad signature) is turned away with the reason its
      error text gives: expired when the text mentions "expired" (as a
      decode error quoting an offending literal can), invalid otherwise. */
  lemma VerifyFailureCounted(token: string, verify: string -> Result<Claims, string>, at: nat)
    requires verify(token).Err?
    requires ' ' !in token
    ensures Authenticate("Bearer " + token, t => JwtParse(verify, at, t)) ==
      Abort(StatusUnauthorized, ErrInvalidToken, if Contains(verify(token).error, "expired") then Expired else Invalid)
  {
    BearerTokenExactly("Bearer " + token, token);
  }

  /** A token whose signature does not check out is turned away as invalid. */
  lemma ForgedTokenRejected(token: string, verify: string -> Result<Claims, string>, at: nat)
    requires verify(token) == Err(ErrTokenSignatureInvalid)
    requires ' ' !in token
    ensures Authenticate("Bearer " + token, t => JwtParse(verify, at, t)) == Abort(StatusUnauthorized, ErrInvalidToken, Invalid)
  {
    var parse := t => JwtParse(verify, at, t);
    BearerTokenExactly("Bearer " + token, token);
    SignatureErrorNotExpired();
    RejectedAsInvalid("Bearer " + token, token, parse);
  }

  /** A well-formed header whose token fails validation for a reason other
      than expiry is turned away as invalid. */
  lemma RejectedAsInvalid(header: string, token: string, parse: string -> ParseOutcome)
    requires BearerToken(header) == Some(token)
    requires ValidateToken(token, parse).Err?
    requires !Contains(ValidateToken(token, parse).error, "expired")
    ensures Authenticate(header, parse) == Abort(StatusUnauthorized, ErrInvalidToken, Invalid)
  {
  }

  /** The signature error does not mention expiry. */
  lemma SignatureErrorNotExpired()
    ensures !Contains(ErrTokenSignatureInvalid, "expired")
  {
    SignatureWordsLackX();
    MissingCharNotContained(ErrTokenSignatureInvalid, "expired", 'x');
  }

  /** Neither half of the signature error has an `x`. */
  lemma SignatureWordsLackX()
    ensures 'x' !in "token signature is invalid: "
    ensures 'x' !in ErrSignatureInvalid
  {
  }
}
