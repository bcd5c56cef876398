# Employee review system: controller and local-credential gate

This project models the decision logic of an employee-review web application
and proves properties about it. The application's users are admins and
employees. They sign in with an email and a password, admins manage employee
records, and users review each other. Two source files hold the logic
modelled here:

- `controllers/users_controller.js`. It holds the page handlers that only
  decide where a request goes: sign-in, sign-up, add-employee, edit-employee
  and post-sign-in session creation. It also holds the handlers that change
  the store: sign-up creation, employee creation, employee update and
  employee deletion, which cascades to the employee's reviews.
- `config/passport-local-strategy.js`. It holds the local-strategy verify
  callback (email lookup, then a password check), the session mapping from
  a user to its id and back, and two per-request guards.

The document store becomes two plain collections owned by the class
`UsersController.UserStore`:

- `users: map<UserId, User>`, where each record has `email`, `password`,
  `username` and `role`;
- `reviews: seq<Review>`, where each record has `recipient`, `reviewer` and
  `feedback`.

The rest of the model:

- `nextId` is a counter that stands in for the store's id generator.
- `defaultRole` is the role the user schema gives a record created without
  one. The schema is not part of this model, so its default is a
  constructor parameter.
- Handler outcomes are values: `Reply(notice, response)`. The notice is an
  optional success or error flash message. The response is either
  `Render(view)` or `Redirect(path)`, where the path is `/`, back,
  `/admin-dashboard` or `/employee-dashboard/<id>`.
- A request is reduced to its session user. It is authenticated exactly
  when that user is present.
- The password comparison is the parameter `isValidatedPassword`, a
  function of the stored record and the candidate password. Nothing is
  assumed about it.

Modules: `Models` (records and store predicates), `Http` (request and
response values), `PassportLocalStrategy` and `UsersController`.

Behaviour of the code that a reader might not expect, modelled as written:

- The redirect rule sends every role other than `admin` to the user's own
  dashboard, not only `employee`.
- `createEmployee`, `updateEmployee` and `destroy` do not check that the
  caller is signed in or is an admin; the model's handlers take no caller.
- `create` stores whatever `role` the sign-up form sends, so anyone signing
  up can give themselves the role `admin`.
- `destroy` runs even when no user has the id. Its lookup of the user is
  never used.
- `editEmployee` on a missing id redirects back because reading the
  missing employee's reviews throws. There is no explicit not-found branch.

The property `UserStore.Valid()` says three things: every stored id is below
`nextId`, every id a review refers to is below `nextId` (so an id is never
handed out twice, even after its user is deleted), and emails are pairwise
distinct. The constructor establishes it,
and every store-changing handler requires it and ensures it again. So any
sequential run of `Create`, `CreateEmployee`, `UpdateEmployee` and `Destroy`,
started from a store with unique emails, keeps emails unique.

## Model

| member | source | states |
|---|---|---|
| `UsersController.RoleRedirect` | controllers/users_controller.js:7-11 | the target is the admin dashboard exactly when the role is `admin`; for every other role it is the user's own `/employee-dashboard/<id>` |
| `UsersController.SignIn` | controllers/users_controller.js:5-16 | the sign-in form is rendered exactly when the request is unauthenticated; a signed-in user gets the role redirect |
| `UsersController.SignUp` | controllers/users_controller.js:19-29 | the sign-up form is rendered exactly when the request is unauthenticated; a signed-in user gets the role redirect |
| `UsersController.CreateSession` | controllers/users_controller.js:192-199 | sets the notice 'Logged in successfully' and redirects the accepted user by the role rule |
| `UsersController.RedirectRuleShared` | controllers/users_controller.js:5-29 | for a signed-in user, sign-in, sign-up and session creation redirect to the same place, which is either the admin dashboard or the user's own dashboard |
| `UsersController.AddEmployee` | controllers/users_controller.js:32-41 | the add-employee form is rendered exactly for a signed-in user with role `admin`; every other request is redirected to `/` |
| `UsersController.AdminGateMatchesRedirect` | controllers/users_controller.js:32-41 | the add-employee form is shown exactly to the users whom sign-in sends to the admin dashboard |
| `UsersController.EditEmployee` | controllers/users_controller.js:44-73 | a signed-in admin gets the edit form of the stored employee; a missing id redirects back (the code throws and catches); everyone else goes to `/` |
| `UsersController.CheckInsert` | controllers/users_controller.js:80-102 | the insert guards report a mismatch exactly when password and confirmation differ; otherwise they report already-registered exactly when the email is taken, and insertable exactly when it is free |
| `UsersController.CheckInsertGuardsUniqueness` | controllers/users_controller.js:86-102 | when the passwords match, the guards let an insert through exactly when inserting keeps emails unique |
| `Models.InsertKeepsUniqueIff` | controllers/users_controller.js:87-95 | adding a record under a fresh id keeps emails unique if and only if its email is not already registered |
| `Models.ProfileEditKeepsEmails` | controllers/users_controller.js:155-158 | overwriting username and role leaves the set of registered emails unchanged, and so keeps emails unique |
| `UsersController.UserStore.Insert` | controllers/users_controller.js:90-95 | stores the record under a fresh id; reviews and all other users are unchanged, and the store invariant is kept |
| `UsersController.UserStore.Create` | controllers/users_controller.js:76-108 | on a password mismatch or a registered email the store is unchanged and the matching error notice comes with a redirect back; otherwise exactly one user with the given email, password, username and role is added, with 'Account created!' and a redirect to `/` |
| `UsersController.UserStore.CreateEmployee` | controllers/users_controller.js:111-142 | the same two guards and the same no-change-on-failure rule, with 'Employee already registered!' for a taken email; a success adds one user with the schema's default role, with 'Employee added!' and a redirect back |
| `UsersController.UserStore.UpdateEmployee` | controllers/users_controller.js:145-166 | on a missing id the store is unchanged, with 'Employee does not exist!'; otherwise only that user's username and role change, to the given values, and every other field, user and review is untouched |
| `UsersController.UserStore.Destroy` | controllers/users_controller.js:169-189 | afterwards no user has the id and no review names it as recipient or reviewer; every other user and every review not naming the id is kept as often as it was; reviews that referred only to stored users still do; the reply is the success notice and a redirect back, whether or not the user existed |
| `UsersController.DeleteMany` | controllers/users_controller.js:175-178 | drops every review holding the id in the given field, keeps every other review as often as it was stored, and adds nothing |
| `UsersController.Cascade` | controllers/users_controller.js:174-178 | the two deletions together leave no review naming the id in either role, and keep every review that does not name it as often as it was stored |
| `UsersController.DeleteManyCommutes` | controllers/users_controller.js:174-178 | the two deletions of the cascade give the same collection in either order |
| `UsersController.DeleteManyIdempotent` | controllers/users_controller.js:175 | running a deletion a second time removes nothing more |
| `UsersController.CascadeIdempotent` | controllers/users_controller.js:174-178 | repeating the cascade for the same id changes nothing, and running the reviewer deletion first gives the same result |
| `UsersController.CascadeKeepsReferences` | controllers/users_controller.js:174-181 | if every review referred to stored users before, then after the user and its cascade are removed, every remaining review refers to remaining users |
| `UsersController.DuplicateEmployeeScenario` | controllers/users_controller.js:122-136 | in an empty store, adding the employee `e@x.com`/`bob`/`p1` succeeds and stores one record with the default role; repeating the same request is refused with 'Employee already registered!' and stores nothing |
| `PassportLocalStrategy.FindOne` | config/passport-local-strategy.js:15 | the lookup finds nothing exactly when no user has the email; otherwise it finds a stored user with that email |
| `PassportLocalStrategy.Authenticate` | config/passport-local-strategy.js:12-35 | rejects, with 'Invalid username or password', when no user has the email or the password check fails for the user found; accepts exactly when the email is found and the check holds, and then yields that stored user with its id |
| `PassportLocalStrategy.AuthenticateWithUniqueEmails` | config/passport-local-strategy.js:15-30 | with unique emails, the callback accepts exactly when some stored user has the email and passes the password check, and the identity it yields is that user |
| `PassportLocalStrategy.FailuresIndistinguishable` | config/passport-local-strategy.js:17-28 | an unknown email and a wrong password give the caller the identical outcome |
| `PassportLocalStrategy.DeserializeUser` | config/passport-local-strategy.js:45-59 | yields no user exactly when the id is not in the store; otherwise it yields the stored user under that id |
| `PassportLocalStrategy.SessionRoundTrip` | config/passport-local-strategy.js:40-54 | deserializing the serialized id of a stored user gives back the same user |
| `PassportLocalStrategy.AcceptedIdentityRoundTrip` | config/passport-local-strategy.js:30-54 | an accepted identity survives the session round trip while it is stored, and resolves to no user once it is removed |
| `PassportLocalStrategy.CheckAuthentication` | config/passport-local-strategy.js:62-71 | passes the request on exactly when it is authenticated; otherwise it redirects to `/` without passing it on |
| `PassportLocalStrategy.SetAuthenticatedUser` | config/passport-local-strategy.js:73-79 | always passes the request on; sets the view context's user to the session user when authenticated, and otherwise leaves it unchanged |

## Left out

- `config/database.js` only opens the store connection and logs its events. Neither is modelled.
- `destroySession` is a logout callback of the session library. Its error path calls an undefined `next`.
- `editEmployee` fills `reviewsFromOthers` with the reviewer records. That is a store query feature; the model renders the edit form with the stored employee only.
- Each user record's `reviewsFromOthers` array is not modelled. `destroy` does not clean it on other users, so the reference property covers the review collection only.
- Exceptions raised by the store are not modelled: the catch blocks of `create`, `createEmployee`, `updateEmployee` and `destroy`, and the verify and deserialize callbacks that end in `done(err)`. In particular, a `destroy` that fails partway and keeps its earlier deletions is not modelled.
- Requests run one at a time. The check-then-insert race on email and the non-atomic three-step delete are outside the model.
- Hashing and comparing passwords is the uninterpreted parameter `isValidatedPassword`. How a password is hashed on save is left to the schema, which is not part of this model.
- View titles, flash transport, cookies and console output are not modelled; outcomes are `Reply` and `Response` values.
- Body fields are taken as strings, so JavaScript's loose `!=` on the two passwords is plain inequality.
- Store ids come from the counter `nextId` rather than the store's own id generator, and an id in a redirect path is kept as a value rather than formatted into text.
- `PassportLocalStrategy.SerializeUser` has no contract of its own; what it promises is stated by `SessionRoundTrip` and `AcceptedIdentityRoundTrip`.
