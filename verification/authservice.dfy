/** Registration and login (`src/services/auth.service.ts`) over an in-memory user
    collection keyed by the exact email. Login's signature returns no store: it reads
    the users and never writes them. */
module AuthService {
  import opened Common
  import opened JsText
  import opened Crypto
  import opened Validators

  const EmailTaken: string := "Email already registered"
  const InvalidCredentials: string := "Invalid credentials"

  /** A stored user; `password` holds the hash, never the password itself. */
  datatype User = User(id: nat, email: string, password: string)

  datatype UserStore = UserStore(byEmail: map<string, User>, nextId: nat)

  /** Each user is filed under its own email, and identifiers are unique and below the
      counter that hands out the next one. */
  predicate ValidUsers(us: UserStore) {
    && (forall e :: e in us.byEmail ==> us.byEmail[e].email == e && us.byEmail[e].id < us.nextId)
    && (forall e1, e2 :: e1 in us.byEmail && e2 in us.byEmail && e1 != e2 ==>
          us.byEmail[e1].id != us.byEmail[e2].id)
  }

  /** The user as responses show it: identifier and email, nothing else. */
  datatype UserSummary = UserSummary(id: string, email: string)

  datatype AuthResponse = AuthResponse(user: UserSummary, token: string)

  datatype Registration = Registration(result: Result<AuthResponse>, store: UserStore)

  /** `generateToken`: a token signed over the identifier and email. */
  function GenerateToken(c: Crypto, id: string, email: string): string {
    c.sign(Claims(id, email))
  }

  /** What register and login answer for a user. */
  function Respond(c: Crypto, u: User): AuthResponse {
    AuthResponse(UserSummary(NatToString(u.id), u.email), GenerateToken(c, NatToString(u.id), u.email))
  }

  /** `register`: refused with "Email already registered", changing nothing, when the
      email is taken; otherwise exactly one user is added, under that email, with the
      next identifier and the password's hash at cost 10, and the answer carries that
      identifier, the email and a token issued for the two. */
  function Register(us: UserStore, data: Credentials, c: Crypto): (r: Registration)
    ensures data.email in us.byEmail ==> r == Registration(Err(EmailTaken), us)
    ensures data.email !in us.byEmail ==>
              && r.result.Ok?
              && r.store.nextId == us.nextId + 1
              && r.store.byEmail.Keys == us.byEmail.Keys + {data.email}
              && r.store.byEmail[data.email] == User(us.nextId, data.email, c.hash(data.password, SaltRounds))
              && (forall e :: e in us.byEmail ==> r.store.byEmail[e] == us.byEmail[e])
              && r.result.value.user == UserSummary(NatToString(us.nextId), data.email)
              && r.result.value.token == c.sign(Claims(NatToString(us.nextId), data.email))
  {
    if data.email in us.byEmail then Registration(Err(EmailTaken), us)
    else
      var user := User(us.nextId, data.email, c.hash(data.password, SaltRounds));
      Registration(Ok(Respond(c, user)),
                   UserStore(us.byEmail[data.email := user], us.nextId + 1))
  }

  /** `login`: "Invalid credentials" exactly when the email is unknown or the password
      does not match the stored hash, with nothing to tell the two apart; otherwise the
      stored user's identifier and email and a token issued for them. */
  function Login(us: UserStore, data: Credentials, c: Crypto): (r: Result<AuthResponse>)
    ensures r.Err? <==> data.email !in us.byEmail
                        || !c.compare(data.password, us.byEmail[data.email].password)
    ensures r.Err? ==> r.message == InvalidCredentials
    ensures r.Ok? ==>
              var u := us.byEmail[data.email];
              && r.value.user == UserSummary(NatToString(u.id), u.email)
              && r.value.token == c.sign(Claims(NatToString(u.id), u.email))
  {
    if data.email !in us.byEmail then Err(InvalidCredentials)
    else
      var user := us.byEmail[data.email];
      if !c.compare(data.password, user.password) then Err(InvalidCredentials)
      else Ok(Respond(c, user))
  }

  lemma RegisterPreservesValidUsers(us: UserStore, data: Credentials, c: Crypto)
    requires ValidUsers(us)
    ensures ValidUsers(Register(us, data, c).store)
  {
  }

  /** A user registered with an email and password can log in with them: the login
      names the same user, and its token verifies to that user's claims. The token is
      also the very one registration issued, because `sign` here reads no clock; the
      real library stamps issue and expiry times, so tokens differ between calls. */
  lemma RegisterThenLogin(us: UserStore, data: Credentials, c: Crypto)
    requires Sound(c)
    requires data.email !in us.byEmail
    ensures var login := Login(Register(us, data, c).store, data, c);
            && login.Ok?
            && login.value.user == UserSummary(NatToString(us.nextId), data.email)
            && c.verify(login.value.token) == Some(Claims(NatToString(us.nextId), data.email))
    ensures Login(Register(us, data, c).store, data, c) == Register(us, data, c).result
  {
    var stored := Register(us, data, c).store.byEmail[data.email];
    assert c.compare(data.password, c.hash(data.password, SaltRounds));
  }

  /** The token a user receives verifies to that user's identifier and email. */
  lemma IssuedTokenVerifies(c: Crypto, u: User)
    requires Sound(c)
    ensures c.verify(Respond(c, u).token) == Some(Claims(NatToString(u.id), u.email))
  {
  }

  /** Two registrations of different emails, one after the other, give two different
      users: different identifiers, and tokens that cannot be confused, since each
      verifies to its own user's claims. */
  lemma DistinctRegistrationsDistinctTokens(us: UserStore, d1: Credentials, d2: Credentials, c: Crypto)
    requires Sound(c)
    requires d1.email !in us.byEmail && d2.email !in us.byEmail
    requires d1.email != d2.email
    ensures var r1 := Register(us, d1, c);
            var r2 := Register(r1.store, d2, c);
            && r1.result.Ok? && r2.result.Ok?
            && r1.result.value.user.id != r2.result.value.user.id
            && r1.result.value.token != r2.result.value.token
  {
    var r1 := Register(us, d1, c);
    assert d2.email !in r1.store.byEmail;
    var r2 := Register(r1.store, d2, c);
    NatToStringInjective(us.nextId);
    assert c.verify(r1.result.value.token) != c.verify(r2.result.value.token);
  }

  /** The password hash never reaches a login answer: two stores that differ only in
      stored hashes give the same answer whenever both logins succeed. */
  lemma LoginAnswerIgnoresHash(us1: UserStore, us2: UserStore, data: Credentials, c: Crypto)
    requires us1.byEmail.Keys == us2.byEmail.Keys
    requires forall e :: e in us1.byEmail ==>
               us1.byEmail[e].id == us2.byEmail[e].id && us1.byEmail[e].email == us2.byEmail[e].email
    requires Login(us1, data, c).Ok? && Login(us2, data, c).Ok?
    ensures Login(us1, data, c) == Login(us2, data, c)
  {
  }

  /** Nor a registration answer: it does not depend on the hash function at all. */
  lemma RegisterAnswerIgnoresHash(us: UserStore, data: Credentials, c1: Crypto, c2: Crypto)
    requires c1.sign == c2.sign
    ensures Register(us, data, c1).result == Register(us, data, c2).result
  {
  }

  /** Registering an email twice: the second attempt fails whatever the password and
      leaves the store as the first attempt left it. */
  lemma RegisterTwice(us: UserStore, first: Credentials, second: Credentials, c: Crypto)
    requires first.email == second.email
    ensures var s1 := Register(us, first, c).store;
            Register(s1, second, c) == Registration(Err(EmailTaken), s1)
  {
  }
}
