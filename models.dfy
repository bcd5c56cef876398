/** The two record collections the controllers work on: users keyed by id and
    reviews that name a recipient and a reviewer by id. The document store
    itself is abstracted to these plain values. */
module Models {

  datatype Option<+T> = None | Some(value: T)

  /** A user's identifier (the document id of the user record). */
  type UserId = nat

  /** A user record. `password` is whatever the store keeps for it; how it is
      hashed on save belongs to the schema and is not modelled. */
  datatype User = User(email: string, password: string, username: string, role: string)

  /** A user as the session layer sees it: the record together with its id. */
  datatype Identity = Identity(id: UserId, user: User)

  /** The two reference fields of a review that a query can filter on. */
  datatype ReviewField = Recipient | Reviewer

  datatype Review = Review(recipient: UserId, reviewer: UserId, feedback: string)
  {
    /** The id stored in the given reference field. */
    function Get(field: ReviewField): UserId
    {
      match field
      case Recipient => recipient
      case Reviewer => reviewer
    }

    /** The review refers to `id` in either role. */
    predicate Names(id: UserId)
    {
      recipient == id || reviewer == id
    }
  }

  const ADMIN_ROLE := "admin"

  /** Some user in the store is registered under `email`. */
  predicate EmailTaken(users: map<UserId, User>, email: string)
  {
    exists id :: id in users && users[id].email == email
  }

  /** No two users share an email. */
  ghost predicate UniqueEmails(users: map<UserId, User>)
  {
    forall a, b :: a in users && b in users && a != b ==> users[a].email != users[b].email
  }

  /** Every review refers to users that are in the store. */
  ghost predicate ReviewsReferToUsers(users: map<UserId, User>, reviews: seq<Review>)
  {
    forall rv :: rv in reviews ==> rv.recipient in users && rv.reviewer in users
  }

  /** Adding a record under a fresh id keeps emails unique exactly when its
      email is not registered yet: the email guard is both sufficient and
      necessary. */
  lemma InsertKeepsUniqueIff(users: map<UserId, User>, id: UserId, rec: User)
    requires UniqueEmails(users) && id !in users
    ensures UniqueEmails(users[id := rec]) <==> !EmailTaken(users, rec.email)
  {
    var after := users[id := rec];
    if EmailTaken(users, rec.email) {
      var k :| k in users && users[k].email == rec.email;
      assert k in after && id in after && k != id && after[k].email == after[id].email;
    } else {
      forall a, b | a in after && b in after && a != b
        ensures after[a].email != after[b].email
      {
        if a == id {
          assert b in users;
        } else if b == id {
          assert a in users;
        }
      }
    }
  }

  /** Changing only the username and role of a stored user neither adds nor
      removes a registered email, so uniqueness and every later email guard
      are unaffected. */
  lemma ProfileEditKeepsEmails(users: map<UserId, User>, id: UserId, username: string, role: string)
    requires id in users
    ensures forall e :: EmailTaken(users[id := users[id].(username := username, role := role)], e) <==> EmailTaken(users, e)
    ensures UniqueEmails(users) ==> UniqueEmails(users[id := users[id].(username := username, role := role)])
  {
    var after := users[id := users[id].(username := username, role := role)];
    assert forall k :: k in after <==> k in users;
    assert forall k :: k in after ==> after[k].email == users[k].email;
    forall e ensures EmailTaken(after, e) <==> EmailTaken(users, e) {
      if EmailTaken(users, e) {
        var k :| k in users && users[k].email == e;
        assert k in after && after[k].email == e;
      }
      if EmailTaken(after, e) {
        var k :| k in after && after[k].email == e;
        assert k in users && users[k].email == e;
      }
    }
  }
}
