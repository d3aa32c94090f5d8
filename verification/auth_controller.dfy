/** Registration, login and the bearer tokens they hand out
    (controllers/auth.go, models/user.go). Password hashing, the password
    check and token signing are foreign calls and enter as function
    parameters; the token's claims and the way a parsed token is judged are
    modelled. */
module AuthController {
  import opened Wrappers
  import opened ObjectIds
  import opened Models
  import opened Store
  import opened Http

  const ErrUserExists := "User already exists"
  const ErrHashPassword := "Failed to hash password"
  const ErrCreateUser := "Failed to create user"
  const ErrGenerateToken := "Failed to generate token"
  const ErrInvalidCredentials := "Invalid email or password"
  const ErrDatabase := "Database error"

  /** Error texts of the JWT library (golang-jwt v5), which the middleware
      classifies by looking for "expired". The library wraps its sentinel
      errors, hence the repeated phrase. */
  const ErrSignatureInvalid := "signature is invalid"
  const ErrTokenSignatureInvalid := "token signature is invalid: " + ErrSignatureInvalid
  const ErrTokenExpired := "token has invalid claims: token is expired"
  const ErrTokenNotValidYet := "token has invalid claims: token is not valid yet"
  /** Both time claims failing: the library reports the two, joined. */
  const ErrTokenExpiredNotValidYet := ErrTokenExpired + ", token is not valid yet"

  /** How long a token lives, in milliseconds: 24 hours. */
  const TokenLifetime := 24 * 60 * 60 * 1000

  /** A bound login or registration body. */
  datatype Credentials = Credentials(email: string, password: string)

  datatype AuthResponse = AuthResponse(token: string, email: string, userId: string, createdAt: nat)

  /** The signed claims. The registered claims are JWT NumericDates: whole
      seconds, the clock reading truncated. */
  datatype Claims = Claims(email: string, userId: string, expiresAt: nat, issuedAt: nat, notBefore: nat)

  /** What the library's parse yields: an error, or the decoded claims with
      the token's validity flag. */
  datatype ParseOutcome =
    | ParseFailed(error: string)
    | Parsed(claims: Claims, valid: bool)

  /** A clock reading in milliseconds as a NumericDate. */
  function Seconds(ms: nat): nat {
    ms / 1000
  }

  // ---------------------------------------------------------------------------
  // Tokens

  /** The three clock readings `generateToken` takes, in program order: one
      for the expiry, one for the issue time, one for the not-before time. */
  datatype TokenClock = TokenClock(expiryReading: nat, issueReading: nat, notBeforeReading: nat) {

    /** The readings come from one monotonic clock. */
    predicate Monotone() {
      expiryReading <= issueReading <= notBeforeReading
    }
  }

  /** `generateToken`'s claims: the email and user id as given; each
      registered claim the second of its own clock reading, the expiry a day
      after its reading. */
  function TokenClaims(email: string, userId: string, tc: TokenClock): (c: Claims)
    ensures c.email == email && c.userId == userId
    ensures c.expiresAt * 1000 <= tc.expiryReading + TokenLifetime < c.expiresAt * 1000 + 1000
    ensures c.issuedAt * 1000 <= tc.issueReading < c.issuedAt * 1000 + 1000
    ensures c.notBefore * 1000 <= tc.notBeforeReading < c.notBefore * 1000 + 1000
    // On a monotonic clock the token is never valid before it was issued, and
    // expires at most 24 hours after the second it was issued in.
    ensures tc.Monotone() ==> c.issuedAt <= c.notBefore && c.expiresAt * 1000 <= c.issuedAt * 1000 + TokenLifetime
  {
    Claims(email, userId, Seconds(tc.expiryReading + TokenLifetime), Seconds(tc.issueReading), Seconds(tc.notBeforeReading))
  }

  /** `ValidateToken`: the parse error when parsing fails, the claims when the
      token is valid, the signature error otherwise. */
  function ValidateToken(token: string, parse: string -> ParseOutcome): (r: Result<Claims, string>)
    ensures r.Ok? <==> parse(token).Parsed? && parse(token).valid
    ensures r.Ok? ==> r.value == parse(token).claims
    ensures parse(token).ParseFailed? ==> r == Err(parse(token).error)
    ensures parse(token).Parsed? && !parse(token).valid ==> r == Err(ErrSignatureInvalid)
  {
    match parse(token)
    case ParseFailed(e) => Err(e)
    case Parsed(claims, valid) => if valid then Ok(claims) else Err(ErrSignatureInvalid)
  }

  /** The library's parse under the server's key, at clock reading `at`.
      `verify` stands for the steps before the claim checks: splitting the
      token, decoding its header and claims, and the signature check. It
      yields the decoded claims, or the library's error text for a malformed
      token, claims that do not decode (a text that quotes the offending
      JSON) or a bad signature. The expiry and not-before claims are then
      checked against `at`, expiry first, and the failures are reported
      together (the issued-at claim is not checked by default). */
  function JwtParse(verify: string -> Result<Claims, string>, at: nat, token: string): (p: ParseOutcome)
    ensures verify(token).Err? ==> p == ParseFailed(verify(token).error)
    ensures p.Parsed? <==>
      verify(token).Ok? && verify(token).value.notBefore * 1000 <= at < verify(token).value.expiresAt * 1000
    ensures p.Parsed? ==> p.valid && p.claims == verify(token).value
    ensures verify(token).Ok? && p.ParseFailed? ==>
      var c := verify(token).value;
      p.error == (if at >= c.expiresAt * 1000 && at < c.notBefore * 1000 then ErrTokenExpiredNotValidYet
                  else if at >= c.expiresAt * 1000 then ErrTokenExpired
                  else ErrTokenNotValidYet)
  {
    match verify(token)
    case Err(e) => ParseFailed(e)
    case Ok(c) =>
      var expired := at >= c.expiresAt * 1000;
      var early := at < c.notBefore * 1000;
      if expired && early then ParseFailed(ErrTokenExpiredNotValidYet)
      else if expired then ParseFailed(ErrTokenExpired)
      else if early then ParseFailed(ErrTokenNotValidYet)
      else Parsed(c, true)
  }

  /** A token is accepted exactly from the second of its not-before reading
      until 24 hours after the second of its expiry reading; before that it
      is refused as not yet valid and after it as expired (both, when the
      readings leave no window at all). On a monotonic clock it is accepted
      from its last reading for at least 24 hours less one second after its
      first reading. */
  lemma IssuedTokenLifetime(email: string, userId: string, tc: TokenClock, token: string,
                            verify: string -> Result<Claims, string>, at: nat)
    requires verify(token) == Ok(TokenClaims(email, userId, tc))
    ensures var r := ValidateToken(token, t => JwtParse(verify, at, t));
      && (r.Ok? <==> Seconds(tc.notBeforeReading) * 1000 <= at < Seconds(tc.expiryReading + TokenLifetime) * 1000)
      && (r.Ok? ==> r.value == TokenClaims(email, userId, tc))
      && (Seconds(tc.notBeforeReading) * 1000 <= at && at >= Seconds(tc.expiryReading + TokenLifetime) * 1000 ==>
            r == Err(ErrTokenExpired))
      && (at < Seconds(tc.notBeforeReading) * 1000 && at < Seconds(tc.expiryReading + TokenLifetime) * 1000 ==>
            r == Err(ErrTokenNotValidYet))
      && (at < Seconds(tc.notBeforeReading) * 1000 && at >= Seconds(tc.expiryReading + TokenLifetime) * 1000 ==>
            r == Err(ErrTokenExpiredNotValidYet))
      && (tc.notBeforeReading <= at < tc.expiryReading + TokenLifetime - 999 ==> r.Ok?)
      && (at >= tc.expiryReading + TokenLifetime ==>
            r == Err(ErrTokenExpired) || r == Err(ErrTokenExpiredNotValidYet))
  {
  }

  /** Readings that straddle a second: the not-before claim lands a second
      after the expiry reading's second, so at the first reading itself the
      token is refused as not yet valid. */
  lemma StraddledReadingsNotYetValid(email: string, userId: string, token: string,
                                     verify: string -> Result<Claims, string>)
    requires verify(token) == Ok(TokenClaims(email, userId, TokenClock(999, 999, 1000)))
    ensures ValidateToken(token, t => JwtParse(verify, 999, t)) == Err(ErrTokenNotValidYet)
  {
    IssuedTokenLifetime(email, userId, TokenClock(999, 999, 1000), token, verify, 999);
  }

  // ---------------------------------------------------------------------------
  // Registration

  /** The account `Register` stores: the hashed password, no name or bio,
      both timestamps from one clock reading. */
  function Account(id: ObjectId, email: string, hashed: string, now: nat): (u: User)
    ensures u.id == id && u.email == email && u.password == hashed
    ensures u.name.None? && u.bio.None?
    ensures u.createdAt == now && u.updatedAt == u.createdAt
  {
    User(id, email, hashed, None, None, now, now)
  }

  /** The lookup found an account with the email: only a successful FindOne
      counts; a driver error reads as "not registered". */
  predicate EmailTaken(st: Store, email: string, faults: Faults) {
    UserLookup !in faults && UserIndexByEmail(st.users, email).Some?
  }

  /** `Register`. `now` is the user's creation time, `tokenAt` the clock
      readings inside `generateToken`, `newId` the id the driver generates for the
      insert, `hash` bcrypt's `GenerateFromPassword` (None when it fails). */
  function Register(st: Store, body: Option<Credentials>, now: nat, tokenAt: TokenClock, newId: ObjectId,
                    hash: string -> Option<string>, sign: Claims -> Option<string>, faults: Faults)
    : (out: Handled<AuthResponse>)
    ensures body.None? ==> out == Handled(Failure(StatusBadRequest, BindingError), st)
    ensures body.Some? && EmailTaken(st, body.value.email, faults) ==>
      out == Handled(Failure(StatusConflict, ErrUserExists), st)
    ensures out.store.conversations == st.conversations && out.store.messages == st.messages
    ensures out.response.Failure? ==> out.response.status in {StatusBadRequest, StatusConflict, StatusInternalServerError}
    ensures out.store.users == st.users ||
      (body.Some? && hash(body.value.password).Some? &&
       out.store.users == st.users + [Account(newId, body.value.email, hash(body.value.password).value, now)])
    ensures out.store.users != st.users <==>
      && body.Some?
      && !EmailTaken(st, body.value.email, faults)
      && hash(body.value.password).Some?
      && UserInsert !in faults
      && UserIndex(st.users, newId).None?
    ensures out.response.Success? ==>
      && out.store.users != st.users
      && out.response.status == StatusCreated
      && sign(TokenClaims(body.value.email, newId, tokenAt)).Some?
      && out.response.payload ==
           AuthResponse(sign(TokenClaims(body.value.email, newId, tokenAt)).value, body.value.email, newId, now)
    ensures out.store.users != st.users && !out.response.Success? ==>
      out.response == Failure(StatusInternalServerError, ErrGenerateToken)
    ensures out.store.users != st.users ==>
      (out.response.Success? <==> sign(TokenClaims(body.value.email, newId, tokenAt)).Some?)
  {
    match body
    case None => Handled(Failure(StatusBadRequest, BindingError), st)
    case Some(req) =>
      if EmailTaken(st, req.email, faults) then
        Handled(Failure(StatusConflict, ErrUserExists), st)
      else
        match hash(req.password)
        case None => Handled(Failure(StatusInternalServerError, ErrHashPassword), st)
        case Some(hashed) =>
          var inserted := if UserInsert in faults then None else InsertUser(st.users, Account(newId, req.email, hashed, now));
          match inserted
          case None => Handled(Failure(StatusInternalServerError, ErrCreateUser), st)
          case Some(users) =>
            // The account stays registered even when no token can be signed.
            var st' := st.(users := users);
            match sign(TokenClaims(req.email, newId, tokenAt))
            case None => Handled(Failure(StatusInternalServerError, ErrGenerateToken), st')
            case Some(token) => Handled(Success(StatusCreated, AuthResponse(token, req.email, newId, now)), st')
  }

  /** A registration whose lookup did not fail never creates a second account
      with an email already in use. */
  lemma RegisterKeepsUniqueEmails(st: Store, body: Option<Credentials>, now: nat, tokenAt: TokenClock, newId: ObjectId,
                                  hash: string -> Option<string>, sign: Claims -> Option<string>, faults: Faults)
    requires UniqueEmails(st.users)
    requires UserLookup !in faults
    ensures UniqueEmails(Register(st, body, now, tokenAt, newId, hash, sign, faults).store.users)
  {
    var out := Register(st, body, now, tokenAt, newId, hash, sign, faults);
    if out.store.users != st.users {
      var u := Account(newId, body.value.email, hash(body.value.password).value, now);
      assert forall i :: 0 <= i < |st.users| ==> st.users[i].email != u.email;
      assert out.store.users == st.users + [u];
    }
  }

  /** Registration keeps every store invariant: it only appends an account
      under an id no account has. */
  lemma RegisterKeepsValid(st: Store, body: Option<Credentials>, now: nat, tokenAt: TokenClock, newId: ObjectId,
                           hash: string -> Option<string>, sign: Claims -> Option<string>, faults: Faults)
    requires Valid(st)
    ensures Valid(Register(st, body, now, tokenAt, newId, hash, sign, faults).store)
  {
    var out := Register(st, body, now, tokenAt, newId, hash, sign, faults);
    if out.store.users != st.users {
      var u := Account(newId, body.value.email, hash(body.value.password).value, now);
      assert forall i :: 0 <= i < |st.users| ==> st.users[i].id != u.id;
      assert out.store.users == st.users + [u];
    }
    assert MessagesAttached(out.store);
  }

  /** A failed lookup lets an email be registered a second time: the store
      then holds two accounts with that email. */
  lemma LookupFaultAdmitsDuplicate(st: Store, email: string, password: string, now: nat, tokenAt: TokenClock, newId: ObjectId,
                                   hash: string -> Option<string>, sign: Claims -> Option<string>)
    requires UserIndexByEmail(st.users, email).Some?
    requires hash(password).Some? && UserIndex(st.users, newId).None?
    ensures var users := Register(st, Some(Credentials(email, password)), now, tokenAt, newId, hash, sign, {UserLookup}).store.users;
      !UniqueEmails(users)
  {
    var users := Register(st, Some(Credentials(email, password)), now, tokenAt, newId, hash, sign, {UserLookup}).store.users;
    var i := UserIndexByEmail(st.users, email).value;
    assert users[i].email == users[|users| - 1].email;
  }

  // ---------------------------------------------------------------------------
  // Login

  /** `Login`. `at` holds the clock readings inside `generateToken`, `check`
      bcrypt's `CompareHashAndPassword` (true when the password matches the
      stored hash). */
  function Login(st: Store, body: Option<Credentials>, at: TokenClock, check: (string, string) -> bool,
                 sign: Claims -> Option<string>, faults: Faults): (r: Response<AuthResponse>)
    ensures body.None? ==> r == Failure(StatusBadRequest, BindingError)
    ensures body.Some? && UserLookup in faults ==> r == Failure(StatusInternalServerError, ErrDatabase)
    ensures r.Failure? ==> r.status in {StatusBadRequest, StatusUnauthorized, StatusInternalServerError}
    ensures r.Failure? && r.status == StatusUnauthorized ==> r.error == ErrInvalidCredentials
    ensures r == Failure(StatusUnauthorized, ErrInvalidCredentials) <==>
      && body.Some?
      && UserLookup !in faults
      && var i := UserIndexByEmail(st.users, body.value.email);
         i.None? || !check(st.users[i.value].password, body.value.password)
    ensures r.Success? ==>
      && body.Some? && UserLookup !in faults
      && var i := UserIndexByEmail(st.users, body.value.email);
      && i.Some?
      && var u := st.users[i.value];
      && check(u.password, body.value.password)
      && r.status == StatusOK
      && sign(TokenClaims(u.email, u.id, at)).Some?
      && r.payload == AuthResponse(sign(TokenClaims(u.email, u.id, at)).value, u.email, u.id, u.createdAt)
    // A matching password fails only when no token can be signed.
    ensures body.Some? && UserLookup !in faults ==>
      var i := UserIndexByEmail(st.users, body.value.email);
      i.Some? && check(st.users[i.value].password, body.value.password) ==>
        var u := st.users[i.value];
        if sign(TokenClaims(u.email, u.id, at)).Some? then r.Success?
        else r == Failure(StatusInternalServerError, ErrGenerateToken)
  {
    match body
    case None => Failure(StatusBadRequest, BindingError)
    case Some(req) =>
      if UserLookup in faults then Failure(StatusInternalServerError, ErrDatabase)
      else
        match UserIndexByEmail(st.users, req.email)
        case None => Failure(StatusUnauthorized, ErrInvalidCredentials)
        case Some(i) =>
          var u := st.users[i];
          if !check(u.password, req.password) then Failure(StatusUnauthorized, ErrInvalidCredentials)
          else
            match sign(TokenClaims(u.email, u.id, at))
            case None => Failure(StatusInternalServerError, ErrGenerateToken)
            case Some(token) => Success(StatusOK, AuthResponse(token, u.email, u.id, u.createdAt))
  }

  /** An unknown email and a wrong password for a known one get the same answer. */
  lemma LoginUniformError(st1: Store, st2: Store, email: string, password: string, at: TokenClock,
                          check: (string, string) -> bool, sign: Claims -> Option<string>, faults: Faults)
    requires UserLookup !in faults
    requires UserIndexByEmail(st1.users, email).None?
    requires UserIndexByEmail(st2.users, email).Some?
    requires !check(st2.users[UserIndexByEmail(st2.users, email).value].password, password)
    ensures Login(st1, Some(Credentials(email, password)), at, check, sign, faults)
         == Login(st2, Some(Credentials(email, password)), at, check, sign, faults)
  {
  }

  /** Whoever registers with an email the lookup did not find can log in with
      the same credentials afterwards, and gets back the account just created. */
  lemma RegisterThenLogin(st: Store, email: string, password: string, now: nat, tokenAt: TokenClock, newId: ObjectId,
                          hash: string -> Option<string>, sign: Claims -> Option<string>, faults: Faults,
                          check: (string, string) -> bool, at: TokenClock)
    requires UserLookup !in faults
    requires Register(st, Some(Credentials(email, password)), now, tokenAt, newId, hash, sign, faults).response.Success?
    requires check(hash(password).value, password)
    requires sign(TokenClaims(email, newId, at)).Some?
    ensures var st' := Register(st, Some(Credentials(email, password)), now, tokenAt, newId, hash, sign, faults).store;
      var r := Login(st', Some(Credentials(email, password)), at, check, sign, {});
      r.Success? && r.payload.email == email && r.payload.userId == newId && r.payload.createdAt == now
  {
    var st' := Register(st, Some(Credentials(email, password)), now, tokenAt, newId, hash, sign, faults).store;
    var u := Account(newId, email, hash(password).value, now);
    assert st'.users == st.users + [u];
    assert UserIndexByEmail(st.users, email).None?;
    assert st'.users[|st.users|].email == email;
    var i := UserIndexByEmail(st'.users, email);
    assert i.value == |st.users|;
  }
}
