/** The subscription endpoints of `UsersViewSet` (backend/users/views.py): the
    subscribe / unsubscribe toggle with its self-subscription guard, and the list of
    the authors the requester follows. */
module UsersViews {
  import opened Seqs
  import opened Common
  import opened UsersModels

  /** `subscribe`: DELETE removes an existing subscription and refuses a missing one;
      POST refuses a subscription to oneself first, then an existing subscription, and
      otherwise stores the new one. */
  function SubscribeEffect(rows: seq<Subscription>, subscriber: UserId, author: UserId, mode: Mode)
    : (r: (Status, seq<Subscription>))
    ensures r.0 == Created <==> mode == Add && subscriber != author && Subscription(subscriber, author) !in rows
    ensures r.0 == NoContent <==> mode == Remove && Subscription(subscriber, author) in rows
    ensures r.0.Refusal? ==> r.1 == rows
    ensures r.0.Refusal? ==> (r.0.conflict ==
      if mode == Remove then NotSubscribed else if subscriber == author then SelfSubscription else AlreadySubscribed)
    ensures r.0 == Created ==> r.1 == rows + [Subscription(subscriber, author)]
    ensures r.0 == NoContent ==> Subscription(subscriber, author) !in r.1
    ensures forall p :: p != Subscription(subscriber, author) ==> (p in r.1 <==> p in rows)
  {
    var pair := Subscription(subscriber, author);
    var exists_ := pair in rows;
    match mode
    case Remove => if !exists_ then (Refusal(NotSubscribed), rows) else (NoContent, Without(rows, pair))
    case Add =>
      if subscriber == author then (Refusal(SelfSubscription), rows)
      else if exists_ then (Refusal(AlreadySubscribed), rows)
      else (Created, rows + [pair])
  }

  /** The toggle keeps both constraints of the subscription table. */
  lemma SubscribeKeepsValid(rows: seq<Subscription>, subscriber: UserId, author: UserId, mode: Mode)
    requires SubscriptionsValid(rows)
    ensures SubscriptionsValid(SubscribeEffect(rows, subscriber, author, mode).1)
  {
    var pair := Subscription(subscriber, author);
    var r := SubscribeEffect(rows, subscriber, author, mode).1;
    if mode == Remove && pair in rows {
      WithoutKeepsNoDuplicates(rows, pair);
      forall k | 0 <= k < |r| ensures r[k].subscriber != r[k].author {
        assert r[k] in r;
        SubsequenceMembers(r, rows);
      }
    } else if mode == Add && subscriber != author && pair !in rows {
      NoDuplicatesAppend(rows, [pair]);
    }
  }

  /** Subscribing and then unsubscribing restores the table. */
  lemma SubscribeThenUnsubscribe(rows: seq<Subscription>, subscriber: UserId, author: UserId)
    requires subscriber != author && Subscription(subscriber, author) !in rows
    ensures SubscribeEffect(SubscribeEffect(rows, subscriber, author, Add).1, subscriber, author, Remove) == (NoContent, rows)
  {
    WithoutAppended(rows, Subscription(subscriber, author));
  }

  /** Whatever the status, after the toggle `is_subscribed` of the pair says whether the
      request was a POST for another user; every other pair's answer is as before. */
  lemma SubscribeSetsFlag(rows: seq<Subscription>, subscriber: UserId, author: UserId, mode: Mode)
    requires SubscriptionsValid(rows)
    ensures IsSubscribed(SubscribeEffect(rows, subscriber, author, mode).1, Some(subscriber), author)
      <==> mode == Add && subscriber != author
    ensures forall u: UserId, a: UserId :: (u, a) != (subscriber, author) ==>
      IsSubscribed(SubscribeEffect(rows, subscriber, author, mode).1, Some(u), a) == IsSubscribed(rows, Some(u), a)
  {
    var r := SubscribeEffect(rows, subscriber, author, mode).1;
    if mode == Add && subscriber == author {
      assert Subscription(subscriber, author) !in rows by {
        forall k | 0 <= k < |rows| ensures rows[k] != Subscription(subscriber, author) {
          assert rows[k].subscriber != rows[k].author;
        }
      }
    }
    forall u: UserId, a: UserId | (u, a) != (subscriber, author)
      ensures IsSubscribed(r, Some(u), a) == IsSubscribed(rows, Some(u), a)
    {
      assert Subscription(u, a) != Subscription(subscriber, author);
    }
  }

  /** The subscribe view on the subscription table. */
  method Subscribe(table: SubscriptionTable, subscriber: UserId, author: UserId, mode: Mode)
    returns (status: Status)
    requires table.Valid()
    modifies table
    ensures table.Valid()
    ensures (status, table.rows) == SubscribeEffect(old(table.rows), subscriber, author, mode)
  {
    var pair := Subscription(subscriber, author);
    var exists_ := pair in table.rows;
    SubscribeKeepsValid(table.rows, subscriber, author, mode);
    if mode == Remove {
      if !exists_ {
        status := Refusal(NotSubscribed);
      } else {
        table.rows := Without(table.rows, pair);
        status := NoContent;
      }
    } else if subscriber == author {
      status := Refusal(SelfSubscription);
    } else if exists_ {
      status := Refusal(AlreadySubscribed);
    } else {
      table.rows := table.rows + [pair];
      status := Created;
    }
  }

  /** The users `requester` follows. */
  function FollowedBy(rows: seq<Subscription>, requester: UserId): User -> bool {
    (u: User) => Subscription(requester, u.id) in rows
  }

  /** `subscriptions`: the users that are the author of one of the requester's
      subscriptions, in the user table's order. */
  function Subscriptions(users: seq<User>, rows: seq<Subscription>, requester: UserId): (r: seq<User>)
    ensures forall u :: u in r <==> u in users && Subscription(requester, u.id) in rows
    ensures IsSubsequence(r, users)
  {
    Filter(users, FollowedBy(rows, requester))
  }

  /** The followed authors come in id order, each once. */
  lemma SubscriptionsInIdOrder(users: seq<User>, rows: seq<Subscription>, requester: UserId)
    requires UsersValid(users)
    ensures var r := Subscriptions(users, rows, requester);
      (forall i, j :: 0 <= i < j < |r| ==> r[i].id < r[j].id) && NoDuplicates(r)
  {
    var byId := (a: User, b: User) => a.id < b.id;
    assert SortedBy(users, byId);
    FilterKeepsOrder(users, FollowedBy(rows, requester), byId);
    var r := Subscriptions(users, rows, requester);
    assert SortedBy(r, byId);
  }

  /** A created subscription puts its author in the subscriber's list; a deleted one
      takes them out. */
  lemma SubscribeUpdatesList(users: seq<User>, rows: seq<Subscription>, subscriber: UserId, author: User, mode: Mode)
    requires author in users
    ensures var r := SubscribeEffect(rows, subscriber, author.id, mode);
      && (r.0 == Created ==> author in Subscriptions(users, r.1, subscriber))
      && (r.0 == NoContent ==> author !in Subscriptions(users, r.1, subscriber))
  {
  }
}
