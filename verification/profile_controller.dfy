/** Reading and editing one's own profile (controllers/profile_controller.go).
    Both operations run behind the authentication guard, which puts the
    token's user id into the request context; `userId` is that context entry
    (None when it was never set). */
module ProfileController {
  import opened Wrappers
  import opened ObjectIds
  import opened Models
  import opened Store
  import opened Http

  const ErrNotAuthenticated := "Usuário não autenticado"
  const ErrInvalidUserId := "ID de usuário inválido"
  const ErrUserNotFound := "Usuário não encontrado"
  const ErrFindUser := "Erro ao buscar usuário"
  const ErrUpdateProfile := "Erro ao atualizar perfil"
  const ErrReloadUser := "Erro ao buscar usuário atualizado"

  /** The profile both operations answer with; an absent name or bio is
      reported as null. */
  datatype Profile = Profile(email: string, name: Option<string>, bio: Option<string>)

  /** The bound update body: a field left out or given as null is None. */
  datatype ProfileUpdate = ProfileUpdate(name: Option<string>, bio: Option<string>)

  function ProfileOf(u: User): Profile {
    Profile(u.email, u.name, u.bio)
  }

  /** `GetProfile`: the stored email, name and bio of the caller's account. */
  function GetProfile(st: Store, userId: Option<string>, faults: Faults): (r: Response<Profile>)
    ensures userId.None? ==> r == Failure(StatusUnauthorized, ErrNotAuthenticated)
    ensures userId.Some? && FromHex(userId.value).None? ==> r == Failure(StatusBadRequest, ErrInvalidUserId)
    ensures r.Failure? ==> r.status in {StatusUnauthorized, StatusBadRequest, StatusNotFound, StatusInternalServerError}
    ensures r.Failure? && r.status == StatusInternalServerError ==> UserLookup in faults && r.error == ErrFindUser
    ensures userId.Some? && FromHex(userId.value).Some? && UserLookup in faults ==> r == Failure(StatusInternalServerError, ErrFindUser)
    ensures (userId.Some? && FromHex(userId.value).Some? && UserLookup !in faults &&
             UserIndex(st.users, FromHex(userId.value).value).Some?) ==> r.Success?
    ensures r == Failure(StatusNotFound, ErrUserNotFound) <==>
      userId.Some? && FromHex(userId.value).Some? && UserLookup !in faults &&
      UserIndex(st.users, FromHex(userId.value).value).None?
    ensures r.Success? ==>
      && userId.Some? && FromHex(userId.value).Some?
      && var i := UserIndex(st.users, FromHex(userId.value).value);
      && i.Some?
      && r.status == StatusOK
      && r.payload.email == st.users[i.value].email
      && r.payload.name == st.users[i.value].name
      && r.payload.bio == st.users[i.value].bio
  {
    match userId
    case None => Failure(StatusUnauthorized, ErrNotAuthenticated)
    case Some(text) =>
      match FromHex(text)
      case None => Failure(StatusBadRequest, ErrInvalidUserId)
      case Some(id) =>
        // Any lookup error other than "no document", a decode error included.
        if UserLookup in faults then Failure(StatusInternalServerError, ErrFindUser)
        else
          match UserIndex(st.users, id)
          case None => Failure(StatusNotFound, ErrUserNotFound)
          case Some(i) => Success(StatusOK, ProfileOf(st.users[i]))
  }

  /** The `$set` an update performs: `updated_at` always, `name` and `bio`
      only when the request supplies them. */
  function Applied(u: User, req: ProfileUpdate, now: nat): (v: User)
    ensures v.id == u.id && v.email == u.email && v.password == u.password
    ensures v.createdAt == u.createdAt && v.updatedAt == now
    ensures v.name == (if req.name.Some? then req.name else u.name)
    ensures v.bio == (if req.bio.Some? then req.bio else u.bio)
  {
    var named := if req.name.Some? then u.(name := req.name) else u;
    var described := if req.bio.Some? then named.(bio := req.bio) else named;
    described.(updatedAt := now)
  }

  /** Applying the same update twice is applying it once, at the later time. */
  lemma AppliedIdempotent(u: User, req: ProfileUpdate, t1: nat, t2: nat)
    ensures Applied(Applied(u, req, t1), req, t2) == Applied(u, req, t2)
  {
  }

  /** An empty update only moves `updated_at`. */
  lemma AppliedNothing(u: User, now: nat)
    ensures Applied(u, ProfileUpdate(None, None), now) == u.(updatedAt := now)
  {
  }

  /** `st'` is `st` with the update written to the caller's account. */
  ghost predicate Written(st: Store, userId: Option<string>, body: Option<ProfileUpdate>, now: nat, st': Store) {
    && userId.Some? && FromHex(userId.value).Some? && body.Some?
    && var i := UserIndex(st.users, FromHex(userId.value).value);
    && i.Some?
    && st' == st.(users := st.users[i.value := Applied(st.users[i.value], body.value, now)])
  }

  /** `UpdateProfile`: `now` is the clock reading put into `updated_at`. */
  function UpdateProfile(st: Store, userId: Option<string>, body: Option<ProfileUpdate>, now: nat, faults: Faults)
    : (out: Handled<Profile>)
    ensures userId.None? ==> out == Handled(Failure(StatusUnauthorized, ErrNotAuthenticated), st)
    ensures userId.Some? && FromHex(userId.value).None? ==> out == Handled(Failure(StatusBadRequest, ErrInvalidUserId), st)
    ensures userId.Some? && FromHex(userId.value).Some? && body.None? ==>
      out == Handled(Failure(StatusBadRequest, BindingError), st)
    ensures out.store.conversations == st.conversations && out.store.messages == st.messages
    ensures out.response.Failure? ==>
      out.response.status in {StatusUnauthorized, StatusBadRequest, StatusNotFound, StatusInternalServerError}
    ensures out.response.Failure? && out.response.status != StatusInternalServerError ==> out.store == st
    ensures out.response == Failure(StatusNotFound, ErrUserNotFound) <==>
      userId.Some? && FromHex(userId.value).Some? && body.Some? && UserFindAndUpdate !in faults &&
      UserIndex(st.users, FromHex(userId.value).value).None?
    ensures out.store == st || Written(st, userId, body, now, out.store)
    ensures userId.Some? && FromHex(userId.value).Some? && body.Some? && UserFindAndUpdate in faults ==>
      out == Handled(Failure(StatusInternalServerError, ErrUpdateProfile), st)
    // A stored account under a working update is always written; only the reload can still fail.
    ensures (userId.Some? && FromHex(userId.value).Some? && body.Some? && UserFindAndUpdate !in faults &&
             UserIndex(st.users, FromHex(userId.value).value).Some?) ==>
        && Written(st, userId, body, now, out.store)
        && (UserReload in faults ==> out.response == Failure(StatusInternalServerError, ErrReloadUser))
        && (UserReload !in faults ==> out.response.Success?)
    ensures out.response == Failure(StatusInternalServerError, ErrReloadUser) ==> Written(st, userId, body, now, out.store)
    ensures out.response.Success? ==>
      && Written(st, userId, body, now, out.store)
      && out.response.status == StatusOK
      && var u := st.users[UserIndex(st.users, FromHex(userId.value).value).value];
      && out.response.payload.email == u.email
      && out.response.payload.name == (if body.value.name.Some? then body.value.name else u.name)
      && out.response.payload.bio == (if body.value.bio.Some? then body.value.bio else u.bio)
  {
    match userId
    case None => Handled(Failure(StatusUnauthorized, ErrNotAuthenticated), st)
    case Some(text) =>
      match FromHex(text)
      case None => Handled(Failure(StatusBadRequest, ErrInvalidUserId), st)
      case Some(id) =>
        match body
        case None => Handled(Failure(StatusBadRequest, BindingError), st)
        case Some(req) =>
          if UserFindAndUpdate in faults then Handled(Failure(StatusInternalServerError, ErrUpdateProfile), st)
          else
            match UserIndex(st.users, id)
            case None => Handled(Failure(StatusNotFound, ErrUserNotFound), st)
            case Some(i) =>
              var users := st.users[i := Applied(st.users[i], req, now)];
              var st' := st.(users := users);
              // The updated account is read back by id.
              if UserReload in faults then Handled(Failure(StatusInternalServerError, ErrReloadUser), st')
              else
                assert users[i].id == id;
                assert forall j :: 0 <= j < i ==> users[j].id != id;
                assert UserIndex(users, id) == Some(i);
                Handled(Success(StatusOK, ProfileOf(users[UserIndex(users, id).value])), st')
  }

  /** An update never touches another account, and never changes any
      account's id, email or password. */
  lemma UpdateKeepsCredentials(st: Store, userId: Option<string>, body: Option<ProfileUpdate>, now: nat, faults: Faults)
    ensures var users := UpdateProfile(st, userId, body, now, faults).store.users;
      && |users| == |st.users|
      && (forall j :: 0 <= j < |users| ==>
            users[j].id == st.users[j].id && users[j].email == st.users[j].email &&
            users[j].password == st.users[j].password)
      && (userId.Some? && FromHex(userId.value).Some? ==>
            forall j :: 0 <= j < |users| && st.users[j].id != FromHex(userId.value).value ==> users[j] == st.users[j])
  {
  }

  /** Updating keeps every store invariant. */
  lemma UpdateKeepsValid(st: Store, userId: Option<string>, body: Option<ProfileUpdate>, now: nat, faults: Faults)
    requires Valid(st)
    ensures Valid(UpdateProfile(st, userId, body, now, faults).store)
  {
    UpdateKeepsCredentials(st, userId, body, now, faults);
    var out := UpdateProfile(st, userId, body, now, faults);
    assert MessagesAttached(out.store);
  }

  /** After a successful update, reading the profile gives what the update answered. */
  lemma UpdateThenGet(st: Store, userId: Option<string>, body: Option<ProfileUpdate>, now: nat, faults: Faults)
    requires UpdateProfile(st, userId, body, now, faults).response.Success?
    ensures var out := UpdateProfile(st, userId, body, now, faults);
      GetProfile(out.store, userId, {}) == Success(StatusOK, out.response.payload)
  {
    var out := UpdateProfile(st, userId, body, now, faults);
    var id := FromHex(userId.value).value;
    var i := UserIndex(st.users, id).value;
    assert out.store.users[i].id == id;
    assert forall j :: 0 <= j < i ==> out.store.users[j].id != id;
    assert UserIndex(out.store.users, id) == Some(i);
  }
}
