/** The local-credential strategy: the verify callback that checks an email and
    a password against the user store, the session id mapping, and the two
    per-request guards. The password comparison (a hash check) is passed in as
    an uninterpreted predicate `isValidatedPassword`. */
module PassportLocalStrategy {
  import opened Models
  import opened Http

  const INVALID_CREDENTIALS := "Invalid username or password"

  /** The outcome of the verify callback: `done(null, false)` with a flash
      notice, or `done(null, user)`. */
  datatype Verdict = Rejected(notice: Notice) | Accepted(who: Identity)

  /** `findOne({ email })`: some user registered under `email`, if there is one.
      Which one is unspecified when emails are not unique. */
  ghost function FindOne(users: map<UserId, User>, email: string): (r: Option<UserId>)
    ensures r.None? <==> !EmailTaken(users, email)
    ensures r.Some? ==> r.value in users && users[r.value].email == email
  {
    if EmailTaken(users, email) then
      var id :| id in users && users[id].email == email;
      Some(id)
    else
      None
  }

  /** The verify callback: look the user up by email, then check the password
      of the user found. Both failures give the same notice. */
  ghost function Authenticate(users: map<UserId, User>, email: string, password: string,
                              isValidatedPassword: (User, string) -> bool): (r: Verdict)
    ensures !EmailTaken(users, email) ==> r == Rejected(Error(INVALID_CREDENTIALS))
    ensures r.Rejected? ==> r.notice == Error(INVALID_CREDENTIALS)
    ensures r.Accepted? <==> EmailTaken(users, email) && isValidatedPassword(users[FindOne(users, email).value], password)
    ensures r.Accepted? ==> r.who.id in users && users[r.who.id] == r.who.user
    ensures r.Accepted? ==> r.who.user.email == email && isValidatedPassword(r.who.user, password)
  {
    match FindOne(users, email)
    case None => Rejected(Error(INVALID_CREDENTIALS))
    case Some(id) =>
      if !isValidatedPassword(users[id], password) then Rejected(Error(INVALID_CREDENTIALS))
      else Accepted(Identity(id, users[id]))
  }

  /** With unique emails the verify callback accepts exactly when some user is
      registered under the email and the password check holds for that user,
      and the identity it yields is that user. */
  lemma AuthenticateWithUniqueEmails(users: map<UserId, User>, email: string, password: string,
                                     isValidatedPassword: (User, string) -> bool)
    requires UniqueEmails(users)
    ensures Authenticate(users, email, password, isValidatedPassword).Accepted? <==>
              exists id :: id in users && users[id].email == email && isValidatedPassword(users[id], password)
    ensures forall id :: id in users && users[id].email == email && isValidatedPassword(users[id], password) ==>
              Authenticate(users, email, password, isValidatedPassword) == Accepted(Identity(id, users[id]))
  {
    var r := Authenticate(users, email, password, isValidatedPassword);
    forall id | id in users && users[id].email == email && isValidatedPassword(users[id], password)
      ensures r == Accepted(Identity(id, users[id]))
    {
      var found := FindOne(users, email).value;
      assert users[found].email == users[id].email;
    }
  }

  /** A missing user and a wrong password are indistinguishable to the caller. */
  lemma FailuresIndistinguishable(users: map<UserId, User>, email1: string, password1: string,
                                  email2: string, password2: string,
                                  isValidatedPassword: (User, string) -> bool)
    requires !EmailTaken(users, email1)
    requires EmailTaken(users, email2) && !isValidatedPassword(users[FindOne(users, email2).value], password2)
    ensures Authenticate(users, email1, password1, isValidatedPassword) ==
            Authenticate(users, email2, password2, isValidatedPassword)
  {
  }

  /** `serializeUser`: the session keeps the user's id. */
  function SerializeUser(who: Identity): (token: UserId)
  {
    who.id
  }

  /** `deserializeUser`: the user stored under the id, or `false` (no user) when
      the id is not in the store. */
  function DeserializeUser(users: map<UserId, User>, id: UserId): (r: Option<Identity>)
    ensures r.None? <==> id !in users
    ensures r.Some? ==> r.value.id == id && r.value.user == users[id]
  {
    if id in users then Some(Identity(id, users[id])) else None
  }

  /** Serializing a user that is still stored and deserializing the token gives
      the same user back. */
  lemma SessionRoundTrip(users: map<UserId, User>, who: Identity)
    requires who.id in users && users[who.id] == who.user
    ensures DeserializeUser(users, SerializeUser(who)) == Some(who)
  {
  }

  /** The identity the verify callback accepts survives the session round trip
      while the store is unchanged; once the user is removed the session
      resolves to no user. */
  lemma AcceptedIdentityRoundTrip(users: map<UserId, User>, email: string, password: string,
                                  isValidatedPassword: (User, string) -> bool)
    requires Authenticate(users, email, password, isValidatedPassword).Accepted?
    ensures var who := Authenticate(users, email, password, isValidatedPassword).who;
            DeserializeUser(users, SerializeUser(who)) == Some(who) &&
            DeserializeUser(users - {who.id}, SerializeUser(who)) == None
  {
    var who := Authenticate(users, email, password, isValidatedPassword).who;
    SessionRoundTrip(users, who);
  }

  /** `checkAuthentication`: pass the request on exactly when it is
      authenticated, otherwise answer with a redirect to `/`. */
  function CheckAuthentication(req: Request): (g: Gate)
    ensures g == CallNext <==> req.IsAuthenticated()
    ensures g != CallNext ==> g == Halt(Redirect(Home))
  {
    if req.IsAuthenticated() then CallNext else Halt(Redirect(Home))
  }

  /** The view context of a response (`res.locals`); only its `user` entry is
      touched here. */
  class Locals {
    var user: Option<Identity>

    constructor ()
      ensures user == None
    {
      user := None;
    }
  }

  /** `setAuthenticatedUser`: expose the signed-in user to the views when there
      is one, leave the context alone otherwise, and always pass the request
      on. */
  method SetAuthenticatedUser(req: Request, locals: Locals) returns (g: Gate)
    modifies locals
    ensures g == CallNext
    ensures req.IsAuthenticated() ==> locals.user == req.user
    ensures !req.IsAuthenticated() ==> locals.user == old(locals.user)
  {
    if req.IsAuthenticated() {
      locals.user := req.user;
    }
    g := CallNext;
  }
}
