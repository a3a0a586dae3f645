/** The message handlers: sidebar listing, conversation history, sending
    (with image upload and audio pass-through) and deleting one's own message.
    Each is a pure function from the store and the request to an `Outcome`;
    `me` is the id of the authenticated requester. */
module MessageController {
  import opened Common
  import opened Seqs
  import opened Models
  import opened Http
  import opened Store
  import opened Cloud

  const MessageNotFound := "Message not found"
  const NotOwnMessage := "You can only delete your own messages"
  const MessageDeleted := "Message deleted successfully"

  /** The JSON body of a send request; every field may be missing. */
  datatype SendBody = SendBody(text: Field, image: Field, audio: Field)

  /** Every other user, passwords stripped; the store is not touched. */
  function GetUsersForSidebar(db: Db, me: Id): (o: Outcome)
    ensures o.db == db
    ensures o.response.status == 200 && o.response.session == Untouched
    ensures o.response.body.UserList?
    ensures forall u :: u in db.users && u.id != me ==> View(u) in o.response.body.users
    ensures forall v :: v in o.response.body.users ==>
              v.id != me && exists u :: u in db.users && View(u) == v
    ensures o.response.body.users == OtherUsers(db.users, me)
  {
    Outcome(Json(200, UserList(OtherUsers(db.users, me))), db)
  }

  /** The conversation between `me` and `peer`, in either direction. */
  function GetMessage(db: Db, me: Id, peer: Id): (o: Outcome)
    ensures o.db == db
    ensures o.response.status == 200 && o.response.session == Untouched
    ensures o.response.body.MessageList?
    ensures forall m :: m in o.response.body.messages <==>
              m in db.messages && InConversation(m, me, peer)
  {
    Outcome(Json(200, MessageList(History(db.messages, me, peer))), db)
  }

  /** Asking for {a, b} and for {b, a} gives the same answer. */
  lemma {:induction false} GetMessageSymmetric(db: Db, a: Id, b: Id)
    ensures GetMessage(db, a, b) == GetMessage(db, b, a)
  {
    HistorySymmetric(db.messages, a, b);
  }

  /** The stored image: `null` without an image; otherwise the hosted URL when
      the upload is configured and succeeds, the raw image data when not. */
  function ResolveImage(image: Field, env: Env, upload: Uploader): (url: Option<string>)
    ensures url.None? <==> !Truthy(image)
    ensures Truthy(image) && Configured(env) && upload(image.value).Uploaded? ==>
              url == Some(upload(image.value).secureUrl)
    ensures Truthy(image) && (!Configured(env) || upload(image.value).UploadError?) ==>
              url == Some(image.value)
  {
    if Truthy(image) then Some(UploadOrRaw(image.value, env, upload)) else None
  }

  /** The stored audio: the request's audio verbatim, or `null` without one. */
  function ResolveAudio(audio: Field): (url: Option<string>)
    ensures url.None? <==> !Truthy(audio)
    ensures url.Some? ==> url == audio
  {
    if Truthy(audio) then audio else None
  }

  /** Appends one message from `me` to `receiverId` and echoes it with 200. The
      receiver is not looked up and the content is not validated. */
  function SendMessage(db: Db, me: Id, receiverId: Id, body: SendBody, env: Env, upload: Uploader): (o: Outcome)
    ensures o.response.status == 200 && o.response.session == Untouched
    ensures o.response.body.OneMessage?
    ensures var m := o.response.body.msg;
            && o.db.messages == db.messages + [m]
            && m.id == db.nextId
            && m.senderId == me && m.receiverId == receiverId
            && m.text == body.text
            && m.image == ResolveImage(body.image, env, upload)
            && m.audio == ResolveAudio(body.audio)
    ensures o.db.users == db.users && o.db.nextId == db.nextId + 1
  {
    var m := Message(db.nextId, me, receiverId, body.text,
                     ResolveImage(body.image, env, upload), ResolveAudio(body.audio));
    Outcome(Json(200, OneMessage(m)), db.(messages := db.messages + [m], nextId := db.nextId + 1))
  }

  /** After a send, both participants' history is the previous history
      followed by the new message. */
  lemma {:induction false} SendThenGetMessage(db: Db, me: Id, peer: Id, body: SendBody, env: Env, upload: Uploader)
    ensures var o := SendMessage(db, me, peer, body, env, upload);
            && GetMessage(o.db, me, peer).response.body.messages
               == GetMessage(db, me, peer).response.body.messages + [o.response.body.msg]
            && GetMessage(o.db, peer, me).response.body.messages
               == GetMessage(db, peer, me).response.body.messages + [o.response.body.msg]
  {
    var o := SendMessage(db, me, peer, body, env, upload);
    HistoryAppend(db.messages, o.response.body.msg, me, peer);
    HistoryAppend(db.messages, o.response.body.msg, peer, me);
  }

  /** A send changes no conversation other than the one of sender and receiver. */
  lemma {:induction false} SendLeavesOtherConversations(db: Db, me: Id, peer: Id, body: SendBody, env: Env, upload: Uploader, a: Id, b: Id)
    requires !((a == me && b == peer) || (a == peer && b == me))
    ensures GetMessage(SendMessage(db, me, peer, body, env, upload).db, a, b).response
         == GetMessage(db, a, b).response
  {
    var o := SendMessage(db, me, peer, body, env, upload);
    HistoryAppend(db.messages, o.response.body.msg, a, b);
  }

  /** A message with no text, image or audio is accepted and stored all-empty. */
  lemma SendAcceptsEmptyMessage(db: Db, me: Id, peer: Id, env: Env, upload: Uploader)
    ensures var o := SendMessage(db, me, peer, SendBody(None, None, None), env, upload);
            && o.response.status == 200
            && o.db.messages == db.messages + [Message(db.nextId, me, peer, None, None, None)]
  {
  }

  /** Sending keeps ids unique and below `nextId`. */
  lemma SendPreservesValid(db: Db, me: Id, peer: Id, body: SendBody, env: Env, upload: Uploader)
    requires Valid(db)
    ensures Valid(SendMessage(db, me, peer, body, env, upload).db)
  {
  }

  /** 404 when no message has the id, 403 when it is someone else's (store
      unchanged in both), otherwise 200 and the message is gone. */
  function DeleteMessage(db: Db, me: Id, id: Id): (o: Outcome)
    ensures o.response.session == Untouched
    ensures o.response.status == 404 <==> forall m :: m in db.messages ==> m.id != id
    ensures o.response.status == 404 ==> o == Outcome(Json(404, Notice(MessageNotFound)), db)
    ensures o.response.status == 403 <==>
              exists m :: FindMessage(db.messages, id) == Some(m) && m.senderId != me
    ensures o.response.status == 403 ==> o == Outcome(Json(403, Notice(NotOwnMessage)), db)
    ensures o.response.status in {200, 403, 404}
    ensures o.response.status == 200 ==>
              && o.response.body == Notice(MessageDeleted)
              && FindMessage(db.messages, id).Some?
              && FindMessage(db.messages, id).value.senderId == me
              && (forall m :: m in o.db.messages <==> m in db.messages && m.id != id)
              && o.db.users == db.users && o.db.nextId == db.nextId
  {
    match FindMessage(db.messages, id)
    case None => Outcome(Json(404, Notice(MessageNotFound)), db)
    case Some(m) =>
      if m.senderId != me then Outcome(Json(403, Notice(NotOwnMessage)), db)
      else Outcome(Json(200, Notice(MessageDeleted)), db.(messages := RemoveMessage(db.messages, id)))
  }

  /** In a valid store, deleting one's own message at position `k` removes
      exactly that position. */
  lemma DeleteRemovesExactlyOne(db: Db, me: Id, k: nat)
    requires Valid(db) && k < |db.messages| && db.messages[k].senderId == me
    ensures DeleteMessage(db, me, db.messages[k].id)
         == Outcome(Json(200, Notice(MessageDeleted)),
                    db.(messages := db.messages[..k] + db.messages[k + 1..]))
  {
    RemoveMessageExactlyOne(db.messages, k);
  }

  /** After a successful delete, every conversation is what it was minus the
      deleted message; a refused delete leaves every conversation as it was. */
  lemma {:induction false} DeleteThenGetMessage(db: Db, me: Id, id: Id, a: Id, b: Id)
    ensures var o := DeleteMessage(db, me, id);
            && (o.response.status == 200 ==>
                  GetMessage(o.db, a, b).response.body.messages
                    == RemoveMessage(GetMessage(db, a, b).response.body.messages, id))
            && (o.response.status != 200 ==>
                  GetMessage(o.db, a, b).response == GetMessage(db, a, b).response)
  {
    HistoryAfterRemove(db.messages, id, a, b);
  }

  /** Deleting keeps ids unique and below `nextId`. */
  lemma DeletePreservesValid(db: Db, me: Id, id: Id)
    requires Valid(db)
    ensures Valid(DeleteMessage(db, me, id).db)
  {
    var o := DeleteMessage(db, me, id);
    if o.response.status == 200 {
      var m := FindMessage(db.messages, id).value;
      var k :| 0 <= k < |db.messages| && db.messages[k] == m;
      DeleteRemovesExactlyOne(db, me, k);
      DistinctRemoveAt(db.messages, MessageIdOf, k);
    }
  }
}
