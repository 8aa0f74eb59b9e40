/** The user accounts of backend/handlers/user.go: registering with an email
    not yet taken, and logging in by email and password. The password is
    stored and compared as given. */
module Users {
  import opened Types
  import opened Store

  /** `FindOne({email})`: the position of the first user with that email. */
  function FindUser(users: seq<User>, email: string): (r: Option<nat>)
    ensures r.Some? ==> r.value < |users| && users[r.value].email == email
    ensures r.Some? ==> forall k :: 0 <= k < r.value ==> users[k].email != email
    ensures r.None? <==> forall k :: 0 <= k < |users| ==> users[k].email != email
  {
    if users == [] then None
    else if users[0].email == email then Some(0)
    else match FindUser(users[1..], email)
      case None => None
      case Some(k) => Some(k + 1)
  }

  /** UserRegisterHandler: a body that does not decode is refused, so is an
      email some user already has; otherwise the user is appended, which
      keeps emails unique. */
  method Register(db: Db, body: Option<User>) returns (r: Result<()>)
    requires db.Valid()
    modifies db`users
    ensures db.Valid()
    ensures body.None? ==> r == Err(InvalidRequest) && db.users == old(db.users)
    ensures body.Some? && FindUser(old(db.users), body.value.email).Some? ==>
      r == Err(EmailTaken) && db.users == old(db.users)
    ensures body.Some? && FindUser(old(db.users), body.value.email).None? ==>
      r == Ok(()) && db.users == old(db.users) + [body.value]
  {
    if body.None? {
      return Err(InvalidRequest);
    }
    if FindUser(db.users, body.value.email).Some? {
      return Err(EmailTaken);
    }
    db.users := db.users + [body.value];
    r := Ok(());
  }

  /** The body UserLoginHandler decodes. */
  datatype Credentials = Credentials(email: string, password: string)

  /** UserLoginHandler: refused for a body that does not decode, for an email
      no user has, and for a password other than the stored one. */
  function Login(users: seq<User>, creds: Option<Credentials>): (r: Result<()>)
    ensures creds.None? ==> r == Err(InvalidRequest)
    ensures creds.Some? ==>
      (r == Err(UserNotFound) <==> forall k :: 0 <= k < |users| ==> users[k].email != creds.value.email)
    ensures r.Ok? ==> (creds.Some? &&
      exists k :: 0 <= k < |users| && users[k].email == creds.value.email && users[k].password == creds.value.password)
  {
    match creds
    case None => Err(InvalidRequest)
    case Some(c) =>
      match FindUser(users, c.email)
      case None => Err(UserNotFound)
      case Some(k) => if users[k].password != c.password then Err(WrongPassword) else Ok(())
  }

  /** With unique emails, login succeeds exactly for a registered email and
      its own password. */
  lemma LoginExact(users: seq<User>, c: Credentials)
    requires UniqueEmails(users)
    ensures Login(users, Some(c)).Ok? <==>
      exists k :: 0 <= k < |users| && users[k].email == c.email && users[k].password == c.password
    ensures Login(users, Some(c)) == Err(WrongPassword) <==>
      exists k :: 0 <= k < |users| && users[k].email == c.email && users[k].password != c.password
  {
    var f := FindUser(users, c.email);
    if f.Some? {
      assert forall k :: 0 <= k < |users| && users[k].email == c.email ==> k == f.value;
    }
  }

  /** Registering a new email finds the registered user at the end. */
  lemma {:induction false} FindUserAppend(users: seq<User>, u: User)
    requires FindUser(users, u.email).None?
    ensures FindUser(users + [u], u.email) == Some(|users|)
  {
    if users != [] {
      assert (users + [u])[1..] == users[1..] + [u];
      FindUserAppend(users[1..], u);
    }
  }

  /** A user who registers can log in with the same email and password, and
      with no other password. */
  lemma RegisterThenLogin(users: seq<User>, u: User, password: string)
    requires FindUser(users, u.email).None?
    ensures Login(users + [u], Some(Credentials(u.email, u.password))) == Ok(())
    ensures password != u.password ==> Login(users + [u], Some(Credentials(u.email, password))) == Err(WrongPassword)
  {
    FindUserAppend(users, u);
  }
}
