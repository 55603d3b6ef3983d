/** The user and subscription tables (backend/users/models.py): unique usernames and
    e-mails, the id ordering, and the two constraints on subscriptions. */
module UsersModels {
  import opened Seqs
  import opened Common

  type UserId = nat

  /** A user row; the authentication fields of Django's user model are left out. */
  datatype User = User(id: UserId, username: string, email: string, firstName: string, lastName: string)

  /** The user table in its default order (by id), with `username` and `email` unique. */
  predicate UsersValid(users: seq<User>) {
    && (forall i, j :: 0 <= i < j < |users| ==> users[i].id < users[j].id)
    && (forall i, j :: 0 <= i < j < |users| ==> users[i].username != users[j].username)
    && (forall i, j :: 0 <= i < j < |users| ==> users[i].email != users[j].email)
  }

  predicate UsernameTaken(users: seq<User>, username: string) {
    exists k :: 0 <= k < |users| && users[k].username == username
  }

  predicate EmailTaken(users: seq<User>, email: string) {
    exists k :: 0 <= k < |users| && users[k].email == email
  }

  /** The id the storage layer gives the next user: one past the largest id. */
  function NextUserId(users: seq<User>): (id: UserId)
    requires UsersValid(users)
    ensures forall k :: 0 <= k < |users| ==> users[k].id < id
  {
    if users == [] then 1 else users[|users| - 1].id + 1
  }

  /** Inserting a user: refused when the username or the e-mail is already taken;
      otherwise the new row is appended. When both clash the model reports the username;
      which unique index the database reports first is not fixed by the source. */
  function InsertUser(users: seq<User>, username: string, email: string, firstName: string, lastName: string)
    : (r: (InsertOutcome, seq<User>))
    requires UsersValid(users)
    ensures r.0.Inserted? <==> !UsernameTaken(users, username) && !EmailTaken(users, email)
    ensures r.0.Refused? ==> r.1 == users
    ensures r.0.Refused? ==> r.0.error == UniqueViolation(if UsernameTaken(users, username) then "username" else "email")
    ensures r.0.Inserted? ==> r.1 == users + [User(r.0.id, username, email, firstName, lastName)]
    ensures UsersValid(r.1)
  {
    if UsernameTaken(users, username) then (Refused(UniqueViolation("username")), users)
    else if EmailTaken(users, email) then (Refused(UniqueViolation("email")), users)
    else
      var id := NextUserId(users);
      (Inserted(id), users + [User(id, username, email, firstName, lastName)])
  }

  /** A subscription row: `subscriber` follows `author`. */
  datatype Subscription = Subscription(subscriber: UserId, author: UserId)

  /** The two constraints of the subscription table: each (subscriber, author) pair at
      most once, and never a user subscribed to themself. */
  predicate SubscriptionsValid(rows: seq<Subscription>) {
    NoDuplicates(rows) && forall k :: 0 <= k < |rows| ==> rows[k].subscriber != rows[k].author
  }

  /** The subscription table, whose rows the subscribe view adds and deletes. */
  class SubscriptionTable {
    var rows: seq<Subscription>

    ghost predicate Valid()
      reads this
    {
      SubscriptionsValid(rows)
    }

    constructor ()
      ensures Valid() && rows == []
    {
      rows := [];
    }
  }

  /** The `is_subscribed` field (backend/users/serializers.py): false for an anonymous
      requester, otherwise whether the requester follows `author`. */
  function IsSubscribed(rows: seq<Subscription>, requester: Option<UserId>, author: UserId): (b: bool)
    ensures b <==> requester.Some? && Subscription(requester.value, author) in rows
  {
    match requester
    case None => false
    case Some(u) => Subscription(u, author) in rows
  }
}
