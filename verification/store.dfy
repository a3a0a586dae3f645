/** The in-memory stand-in for the two database collections, the queries the
    handlers issue against them, and the invariant every handler preserves. */
module Store {
  import opened Common
  import opened Seqs
  import opened Models
  import opened Http

  /** Both collections in natural (insertion) order, and the next fresh id. */
  datatype Db = Db(users: seq<User>, messages: seq<Message>, nextId: Id)

  /** What a handler produces: the response and the store after the call. */
  datatype Outcome = Outcome(response: Response, db: Db)

  /** Reachable stores: ids and emails are unique, and every id is below `nextId`. */
  ghost predicate Valid(db: Db)
  {
    && DistinctBy(db.users, UserIdOf)
    && DistinctBy(db.users, EmailOf)
    && DistinctBy(db.messages, MessageIdOf)
    && (forall u :: u in db.users ==> u.id < db.nextId)
    && (forall m :: m in db.messages ==> m.id < db.nextId)
  }

  /** The stored messages of the conversation {a, b}, in store order. */
  function History(ms: seq<Message>, a: Id, b: Id): (r: seq<Message>)
    ensures forall m :: m in r <==> m in ms && InConversation(m, a, b)
  {
    Filter(ms, (m: Message) => InConversation(m, a, b))
  }

  /** The conversation of {a, b} is the conversation of {b, a}, message for message. */
  lemma {:induction false} HistorySymmetric(ms: seq<Message>, a: Id, b: Id)
    ensures History(ms, a, b) == History(ms, b, a)
  {
    FilterCongruent(ms, (m: Message) => InConversation(m, a, b), (m: Message) => InConversation(m, b, a));
  }

  /** Storing one more message extends a conversation by exactly that message
      when it belongs to it, and leaves it alone otherwise. */
  lemma {:induction false} HistoryAppend(ms: seq<Message>, m: Message, a: Id, b: Id)
    ensures History(ms + [m], a, b)
         == History(ms, a, b) + (if InConversation(m, a, b) then [m] else [])
  {
    var p := (x: Message) => InConversation(x, a, b);
    FilterAppend(ms, [m], p);
    assert [m][1..] == [];
  }

  /** Every user except `me`, without passwords, in store order. */
  function OtherUsers(users: seq<User>, me: Id): (r: seq<UserView>)
    ensures forall u :: u in users && u.id != me ==> View(u) in r
    ensures forall i :: 0 <= i < |r| ==> r[i].id != me
    ensures forall i :: 0 <= i < |r| ==> exists u :: u in users && View(u) == r[i]
  {
    var kept := Filter(users, (u: User) => u.id != me);
    var r := Map(kept, View);
    assert forall u :: u in kept ==> View(u) in r by {
      forall u | u in kept ensures View(u) in r {
        var i :| 0 <= i < |kept| && kept[i] == u;
        assert r[i] == View(u);
      }
    }
    assert forall i :: 0 <= i < |r| ==> kept[i] in kept;
    r
  }

  /** The listing is built user by user in store order: none for an empty
      store, and one more user adds its view exactly when it is not `me`. */
  lemma {:induction false} OtherUsersAppend(users: seq<User>, u: User, me: Id)
    ensures OtherUsers([], me) == []
    ensures OtherUsers(users + [u], me)
         == OtherUsers(users, me) + (if u.id != me then [View(u)] else [])
  {
    var p := (x: User) => x.id != me;
    FilterAppend(users, [u], p);
    assert [u][1..] == [];
    var a := Filter(users, p);
    var b := Filter([u], p);
    assert Map(a + b, View) == Map(a, View) + Map(b, View);
  }

  /** The first user registered under `email`, as a lookup by email returns it. */
  function FindUserByEmail(users: seq<User>, email: string): (r: Option<User>)
    ensures r.Some? ==> r.value in users && r.value.email == email
    ensures r.None? <==> forall u :: u in users ==> u.email != email
  {
    match IndexOf(users, (u: User) => u.email == email)
    case Some(i) => Some(users[i])
    case None => None
  }

  /** The position of the first user with id `id`. */
  function FindUserIndex(users: seq<User>, id: Id): (r: Option<nat>)
    ensures r.Some? ==> r.value < |users| && users[r.value].id == id
    ensures r.Some? ==> forall j :: 0 <= j < r.value ==> users[j].id != id
    ensures r.None? <==> forall u :: u in users ==> u.id != id
  {
    IndexOf(users, (u: User) => u.id == id)
  }

  /** The first stored message with id `id`. */
  function FindMessage(ms: seq<Message>, id: Id): (r: Option<Message>)
    ensures r.Some? ==> r.value in ms && r.value.id == id
    ensures r.None? <==> forall m :: m in ms ==> m.id != id
  {
    match IndexOf(ms, (m: Message) => m.id == id)
    case Some(i) => Some(ms[i])
    case None => None
  }

  /** The store without the message(s) whose id is `id`. */
  function RemoveMessage(ms: seq<Message>, id: Id): (r: seq<Message>)
    ensures forall m :: m in r <==> m in ms && m.id != id
  {
    Filter(ms, (m: Message) => m.id != id)
  }

  /** Removing a message and then reading a conversation is the same as
      reading the conversation and then removing the message. */
  lemma {:induction false} HistoryAfterRemove(ms: seq<Message>, id: Id, a: Id, b: Id)
    ensures History(RemoveMessage(ms, id), a, b) == RemoveMessage(History(ms, a, b), id)
  {
    FilterCommute(ms, (m: Message) => m.id != id, (m: Message) => InConversation(m, a, b));
  }

  /** With unique ids, removing a stored message's id removes that one position
      and keeps every other message in place. */
  lemma {:induction false} RemoveMessageExactlyOne(ms: seq<Message>, k: nat)
    requires DistinctBy(ms, MessageIdOf) && k < |ms|
    ensures RemoveMessage(ms, ms[k].id) == ms[..k] + ms[k + 1..]
  {
    var id := ms[k].id;
    var p := (m: Message) => m.id != id;
    forall j | 0 <= j < |ms| && j != k
      ensures p(ms[j])
    {
      if j < k {
        assert MessageIdOf(ms[j]) != MessageIdOf(ms[k]);
      } else {
        assert MessageIdOf(ms[k]) != MessageIdOf(ms[j]);
      }
    }
    FilterDropsOne(ms, p, k);
  }
}
