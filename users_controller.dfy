/** The users controller: the page handlers that only decide where a request
    goes, and the handlers that change the user and review collections, as
    methods of a class that owns them. */
module UsersController {
  import opened Models
  import opened Http

  const PASSWORD_MISMATCH := "Password and Confirm password are not the same"
  const ACCOUNT_CREATED := "Account created!"
  const USER_TAKEN := "User already registered!"
  const EMPLOYEE_ADDED := "Employee added!"
  const EMPLOYEE_TAKEN := "Employee already registered!"
  const EMPLOYEE_MISSING := "Employee does not exist!"
  const EMPLOYEE_UPDATED := "Employee details updated!"
  const EMPLOYEE_DELETED := "Employee and associated reviews deleted!"
  const LOGGED_IN := "Logged in successfully"

  // ---------------------------------------------------------------------------
  // Redirect and gate decisions

  /** Where a signed-in user belongs: the admin dashboard for role `admin`,
      otherwise (whatever the role) that user's own employee dashboard. */
  function RoleRedirect(who: Identity): (p: Path)
    ensures p == AdminDashboard <==> who.user.role == ADMIN_ROLE
    ensures p != AdminDashboard ==> p == EmployeeDashboard(who.id)
  {
    if who.user.role == ADMIN_ROLE then AdminDashboard else EmployeeDashboard(who.id)
  }

  /** `signIn`: the form for a visitor, the role redirect for a signed-in user. */
  function SignIn(req: Request): (r: Response)
    ensures r == Render(SignInForm) <==> !req.IsAuthenticated()
    ensures req.IsAuthenticated() ==> r == Redirect(RoleRedirect(req.user.value))
  {
    if req.IsAuthenticated() then Redirect(RoleRedirect(req.user.value)) else Render(SignInForm)
  }

  /** `signUp`: the same decision as `signIn`, with the sign-up form. */
  function SignUp(req: Request): (r: Response)
    ensures r == Render(SignUpForm) <==> !req.IsAuthenticated()
    ensures req.IsAuthenticated() ==> r == Redirect(RoleRedirect(req.user.value))
  {
    if req.IsAuthenticated() then Redirect(RoleRedirect(req.user.value)) else Render(SignUpForm)
  }

  /** `createSession`, reached once the credentials were accepted: a success
      notice and the role redirect for the accepted user. */
  function CreateSession(who: Identity): (r: Reply)
    ensures r.notice == Some(Success(LOGGED_IN))
    ensures r.response == Redirect(RoleRedirect(who))
  {
    Reply(Some(Success(LOGGED_IN)), Redirect(RoleRedirect(who)))
  }

  /** The redirect rule is one rule: for a signed-in user, `signIn`, `signUp`
      and `createSession` send the user to the same place, and that place is
      either the admin dashboard or the user's own dashboard, never another
      user's. */
  lemma RedirectRuleShared(req: Request)
    requires req.IsAuthenticated()
    ensures SignIn(req) == SignUp(req) == CreateSession(req.user.value).response
    ensures SignIn(req) == Redirect(AdminDashboard) || SignIn(req) == Redirect(EmployeeDashboard(req.user.value.id))
  {
  }

  /** `addEmployee`: the form only for a signed-in admin; everyone else is sent
      to `/`. */
  function AddEmployee(req: Request): (r: Response)
    ensures r == Render(AddEmployeeForm) <==> req.IsAuthenticated() && req.user.value.user.role == ADMIN_ROLE
    ensures r != Render(AddEmployeeForm) ==> r == Redirect(Home)
  {
    if req.IsAuthenticated() && req.user.value.user.role == ADMIN_ROLE then Render(AddEmployeeForm)
    else Redirect(Home)
  }

  /** The admin gate of `addEmployee` agrees with the redirect rule: the form is
      shown exactly to the users that signing in sends to the admin dashboard. */
  lemma AdminGateMatchesRedirect(req: Request)
    ensures AddEmployee(req) == Render(AddEmployeeForm) <==> SignIn(req) == Redirect(AdminDashboard)
  {
  }

  /** `editEmployee`: a signed-in admin gets the edit form of the stored
      employee; when no employee has the id, reading its reviews throws and
      the handler redirects back; anyone else is sent to `/`. */
  function EditEmployee(req: Request, users: map<UserId, User>, id: UserId): (r: Response)
    ensures r.Render? <==> req.IsAuthenticated() && req.user.value.user.role == ADMIN_ROLE && id in users
    ensures r.Render? ==> r.view == EditEmployeeForm(Identity(id, users[id]))
    ensures r == Redirect(Back) <==> req.IsAuthenticated() && req.user.value.user.role == ADMIN_ROLE && id !in users
    ensures r == Redirect(Home) <==> AddEmployee(req) == Redirect(Home)
  {
    if req.IsAuthenticated() && req.user.value.user.role == ADMIN_ROLE then
      if id in users then Render(EditEmployeeForm(Identity(id, users[id]))) else Redirect(Back)
    else
      Redirect(Home)
  }

  // ---------------------------------------------------------------------------
  // The guards of the two insert handlers

  datatype InsertCheck = PasswordMismatch | AlreadyRegistered | Insertable

  /** The two guards `create` and `createEmployee` run before inserting: the
      password confirmation first, then the email lookup. */
  function CheckInsert(users: map<UserId, User>, email: string, password: string, confirmPassword: string): (c: InsertCheck)
    ensures c == PasswordMismatch <==> password != confirmPassword
    ensures c == AlreadyRegistered <==> password == confirmPassword && EmailTaken(users, email)
    ensures c == Insertable <==> password == confirmPassword && !EmailTaken(users, email)
  {
    if password != confirmPassword then PasswordMismatch
    else if EmailTaken(users, email) then AlreadyRegistered
    else Insertable
  }

  /** An insert the guards let through keeps emails unique, and one they stop
      for a registered email would have broken uniqueness. */
  lemma CheckInsertGuardsUniqueness(users: map<UserId, User>, id: UserId, rec: User, confirmPassword: string)
    requires UniqueEmails(users) && id !in users
    requires CheckInsert(users, rec.email, rec.password, confirmPassword) != PasswordMismatch
    ensures CheckInsert(users, rec.email, rec.password, confirmPassword) == Insertable <==> UniqueEmails(users[id := rec])
  {
    InsertKeepsUniqueIff(users, id, rec);
  }

  // ---------------------------------------------------------------------------
  // Deleting reviews

  /** `Review.deleteMany({ <field>: id })`: the reviews that do not hold `id` in
      `field`, each kept as often as it was stored. */
  function DeleteMany(reviews: seq<Review>, field: ReviewField, id: UserId): (r: seq<Review>)
    ensures forall rv: Review :: rv.Get(field) == id ==> multiset(r)[rv] == 0
    ensures forall rv: Review :: rv.Get(field) != id ==> multiset(r)[rv] == multiset(reviews)[rv]
    ensures forall rv :: rv in r ==> rv in reviews
    ensures |r| <= |reviews|
  {
    if reviews == [] then []
    else
      assert reviews == [reviews[0]] + reviews[1..];
      var rest := DeleteMany(reviews[1..], field, id);
      if reviews[0].Get(field) == id then rest else [reviews[0]] + rest
  }

  /** The cascade of `destroy`: first the reviews the user received, then the
      reviews the user wrote. What is left is every review not naming `id`, as
      often as it was stored, and nothing naming `id`. */
  function Cascade(reviews: seq<Review>, id: UserId): (r: seq<Review>)
    ensures forall rv: Review :: rv.Names(id) ==> multiset(r)[rv] == 0
    ensures forall rv: Review :: !rv.Names(id) ==> multiset(r)[rv] == multiset(reviews)[rv]
    ensures forall rv :: rv in r ==> !rv.Names(id) && rv in reviews
  {
    DeleteMany(DeleteMany(reviews, Recipient, id), Reviewer, id)
  }

  /** The two deletions of the cascade could run in either order. */
  lemma {:induction false} DeleteManyCommutes(reviews: seq<Review>, f: ReviewField, g: ReviewField, id: UserId)
    ensures DeleteMany(DeleteMany(reviews, f, id), g, id) == DeleteMany(DeleteMany(reviews, g, id), f, id)
  {
    if reviews != [] {
      DeleteManyCommutes(reviews[1..], f, g, id);
    }
  }

  /** Running a deletion again removes nothing more. */
  lemma {:induction false} DeleteManyIdempotent(reviews: seq<Review>, f: ReviewField, id: UserId)
    ensures DeleteMany(DeleteMany(reviews, f, id), f, id) == DeleteMany(reviews, f, id)
  {
    if reviews != [] {
      DeleteManyIdempotent(reviews[1..], f, id);
    }
  }

  /** Running the cascade again for the same id removes nothing more, and the
      order of the two deletions does not matter. */
  lemma CascadeIdempotent(reviews: seq<Review>, id: UserId)
    ensures Cascade(Cascade(reviews, id), id) == Cascade(reviews, id)
    ensures Cascade(reviews, id) == DeleteMany(DeleteMany(reviews, Reviewer, id), Recipient, id)
  {
    var a := DeleteMany(reviews, Recipient, id);
    var ab := DeleteMany(a, Reviewer, id);
    calc {
      DeleteMany(ab, Recipient, id);
      { DeleteManyCommutes(a, Reviewer, Recipient, id); }
      DeleteMany(DeleteMany(a, Recipient, id), Reviewer, id);
      { DeleteManyIdempotent(reviews, Recipient, id); }
      ab;
    }
    DeleteManyIdempotent(a, Reviewer, id);
    DeleteManyCommutes(reviews, Recipient, Reviewer, id);
  }

  /** Removing a user together with its cascade leaves no review referring to a
      missing user, if there was none before. */
  lemma CascadeKeepsReferences(users: map<UserId, User>, reviews: seq<Review>, id: UserId)
    requires ReviewsReferToUsers(users, reviews)
    ensures ReviewsReferToUsers(users - {id}, Cascade(reviews, id))
  {
    var after := Cascade(reviews, id);
    forall rv | rv in after
      ensures rv.recipient in users - {id} && rv.reviewer in users - {id}
    {
      assert multiset(after)[rv] > 0;
      assert rv in reviews;
    }
  }

  // ---------------------------------------------------------------------------
  // The store and the handlers that change it

  /** The user and review collections. `nextId` stands for the store's id
      generator: every stored id, and every id a review refers to, is below
      it, so an id is never handed out twice. `defaultRole` is the role the
      user schema gives a record created without one. */
  class UserStore {
    var users: map<UserId, User>
    var reviews: seq<Review>
    var nextId: UserId
    const defaultRole: string

    ghost predicate Valid()
      reads this
    {
      && (forall id :: id in users ==> id < nextId)
      && (forall rv :: rv in reviews ==> rv.recipient < nextId && rv.reviewer < nextId)
      && UniqueEmails(users)
    }

    constructor (defaultRole: string, users0: map<UserId, User>, reviews0: seq<Review>, nextId0: UserId)
      requires forall id :: id in users0 ==> id < nextId0
      requires forall rv :: rv in reviews0 ==> rv.recipient < nextId0 && rv.reviewer < nextId0
      requires UniqueEmails(users0)
      ensures Valid()
      ensures users == users0 && reviews == reviews0 && nextId == nextId0 && this.defaultRole == defaultRole
    {
      this.defaultRole := defaultRole;
      users := users0;
      reviews := reviews0;
      nextId := nextId0;
    }

    /** The insert both `create` and `createEmployee` end with: store `rec`
        under a fresh id. */
    method Insert(rec: User)
      requires Valid() && !EmailTaken(users, rec.email)
      modifies this
      ensures Valid()
      ensures old(nextId) !in old(users)
      ensures users == old(users)[old(nextId) := rec] && nextId == old(nextId) + 1
      ensures reviews == old(reviews)
    {
      InsertKeepsUniqueIff(users, nextId, rec);
      users := users[nextId := rec];
      nextId := nextId + 1;
    }

    /** `create` (sign-up): a password mismatch or a registered email leaves
        the store as it was; otherwise exactly one user with the given email,
        password, username and role is added. */
    method Create(username: string, email: string, password: string, confirmPassword: string, role: string)
      returns (reply: Reply)
      requires Valid()
      modifies this
      ensures Valid()
      ensures reviews == old(reviews)
      ensures password != confirmPassword ==>
                users == old(users) && nextId == old(nextId) &&
                reply == Reply(Some(Error(PASSWORD_MISMATCH)), Redirect(Back))
      ensures password == confirmPassword && EmailTaken(old(users), email) ==>
                users == old(users) && nextId == old(nextId) &&
                reply == Reply(Some(Error(USER_TAKEN)), Redirect(Back))
      ensures password == confirmPassword && !EmailTaken(old(users), email) ==>
                old(nextId) !in old(users) &&
                users == old(users)[old(nextId) := User(email, password, username, role)] &&
                nextId == old(nextId) + 1 &&
                reply == Reply(Some(Success(ACCOUNT_CREATED)), Redirect(Home))
    {
      match CheckInsert(users, email, password, confirmPassword)
      case PasswordMismatch =>
        reply := Reply(Some(Error(PASSWORD_MISMATCH)), Redirect(Back));
      case AlreadyRegistered =>
        reply := Reply(Some(Error(USER_TAKEN)), Redirect(Back));
      case Insertable =>
        Insert(User(email, password, username, role));
        reply := Reply(Some(Success(ACCOUNT_CREATED)), Redirect(Home));
    }

    /** `createEmployee`: the same two guards; the record added carries no role
        of its own and gets the schema's default. */
    method CreateEmployee(username: string, email: string, password: string, confirmPassword: string)
      returns (reply: Reply)
      requires Valid()
      modifies this
      ensures Valid()
      ensures reviews == old(reviews)
      ensures password != confirmPassword ==>
                users == old(users) && nextId == old(nextId) &&
                reply == Reply(Some(Error(PASSWORD_MISMATCH)), Redirect(Back))
      ensures password == confirmPassword && EmailTaken(old(users), email) ==>
                users == old(users) && nextId == old(nextId) &&
                reply == Reply(Some(Error(EMPLOYEE_TAKEN)), Redirect(Back))
      ensures password == confirmPassword && !EmailTaken(old(users), email) ==>
                old(nextId) !in old(users) &&
                users == old(users)[old(nextId) := User(email, password, username, defaultRole)] &&
                nextId == old(nextId) + 1 &&
                reply == Reply(Some(Success(EMPLOYEE_ADDED)), Redirect(Back))
    {
      match CheckInsert(users, email, password, confirmPassword)
      case PasswordMismatch =>
        reply := Reply(Some(Error(PASSWORD_MISMATCH)), Redirect(Back));
      case AlreadyRegistered =>
        reply := Reply(Some(Error(EMPLOYEE_TAKEN)), Redirect(Back));
      case Insertable =>
        Insert(User(email, password, username, defaultRole));
        reply := Reply(Some(Success(EMPLOYEE_ADDED)), Redirect(Back));
    }

    /** `updateEmployee`: on a missing id nothing changes; otherwise that user's
        username and role become the given values and every other field, user
        and review stays as it was. */
    method UpdateEmployee(id: UserId, username: string, role: string) returns (reply: Reply)
      requires Valid()
      modifies this
      ensures Valid()
      ensures reviews == old(reviews) && nextId == old(nextId)
      ensures id !in old(users) ==>
                users == old(users) && reply == Reply(Some(Error(EMPLOYEE_MISSING)), Redirect(Back))
      ensures id in old(users) ==>
                users == old(users)[id := old(users)[id].(username := username, role := role)] &&
                reply == Reply(Some(Success(EMPLOYEE_UPDATED)), Redirect(Back))
    {
      if id !in users {
        reply := Reply(Some(Error(EMPLOYEE_MISSING)), Redirect(Back));
        return;
      }
      ProfileEditKeepsEmails(users, id, username, role);
      var employee := users[id];
      employee := employee.(username := username);
      employee := employee.(role := role);
      users := users[id := employee];
      reply := Reply(Some(Success(EMPLOYEE_UPDATED)), Redirect(Back));
    }

    /** `destroy`: delete the reviews naming `id` as recipient, then those
        naming it as reviewer, then the user; it runs whether or not a user
        with `id` exists. */
    method Destroy(id: UserId) returns (reply: Reply)
      requires Valid()
      modifies this
      ensures Valid()
      ensures users == old(users) - {id} && nextId == old(nextId)
      ensures reviews == Cascade(old(reviews), id)
      ensures forall rv :: rv in reviews ==> !rv.Names(id)
      ensures forall rv: Review :: !rv.Names(id) ==> multiset(reviews)[rv] == multiset(old(reviews))[rv]
      ensures ReviewsReferToUsers(old(users), old(reviews)) ==> ReviewsReferToUsers(users, reviews)
      ensures reply == Reply(Some(Success(EMPLOYEE_DELETED)), Redirect(Back))
    {
      reviews := DeleteMany(reviews, Recipient, id);
      reviews := DeleteMany(reviews, Reviewer, id);
      users := users - {id};
      if ReviewsReferToUsers(old(users), old(reviews)) {
        CascadeKeepsReferences(old(users), old(reviews), id);
      }
      reply := Reply(Some(Success(EMPLOYEE_DELETED)), Redirect(Back));
    }
  }

  /** Adding the same employee twice: the first request stores one record with
      the default role, the second is refused and stores nothing. */
  method DuplicateEmployeeScenario() returns (first: Reply, second: Reply, stored: map<UserId, User>)
    ensures first == Reply(Some(Success(EMPLOYEE_ADDED)), Redirect(Back))
    ensures second == Reply(Some(Error(EMPLOYEE_TAKEN)), Redirect(Back))
    ensures stored == map[0 := User("e@x.com", "p1", "bob", "employee")]
  {
    var store := new UserStore("employee", map[], [], 0);
    first := store.CreateEmployee("bob", "e@x.com", "p1", "p1");
    assert EmailTaken(store.users, "e@x.com") by {
      assert store.users[0].email == "e@x.com";
    }
    second := store.CreateEmployee("bob", "e@x.com", "p1", "p1");
    stored := store.users;
  }
}
