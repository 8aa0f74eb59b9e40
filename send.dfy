/** The message handlers of backend/handlers/send.go: the one-shot assistant
    exchange, and saving and listing the messages of a session. */
module Send {
  import opened Types
  import opened Store

  // ----- saving one message of a session -----

  /** The body SessionMessageHandler decodes. */
  datatype MessageBody = MessageBody(sessionId: string, sender: string, text: string)

  /** The reply of SessionMessageHandler for a decoded body, and the message it
      stores when it accepts one. A body that did not decode, or any empty
      field, is refused; so is a session id that is not 24 hex digits. The
      session id is not looked up: a message for a session the store does not
      have is accepted. */
  function Accepted(body: Option<MessageBody>, now: int): (r: Result<Message>)
    ensures r.Ok? <==>
      body.Some? && body.value.sessionId != "" && body.value.sender != "" && body.value.text != "" &&
      ParseObjectId(body.value.sessionId).Some?
    ensures r.Err? ==> r.error == InvalidRequest || r.error == InvalidSessionId
    ensures r.Err? && r.error == InvalidSessionId ==> body.Some? && ParseObjectId(body.value.sessionId).None?
    ensures r.Ok? ==>
      && Some(r.value.sessionId) == ParseObjectId(body.value.sessionId)
      && r.value.sender == body.value.sender
      && r.value.text == body.value.text
      && r.value.timestamp == now
  {
    match body
    case None => Err(InvalidRequest)
    case Some(b) =>
      if b.sessionId == "" || b.sender == "" || b.text == "" then Err(InvalidRequest)
      else
        match ParseObjectId(b.sessionId)
        case None => Err(InvalidSessionId)
        case Some(id) => Ok(Message(id, b.sender, b.text, now))
  }

  /** SessionMessageHandler: an accepted message is appended to the messages
      collection; a refused one changes nothing. */
  method SessionMessage(db: Db, body: Option<MessageBody>, now: int) returns (r: Result<()>)
    modifies db`messages
    ensures r.Err? ==> db.messages == old(db.messages) && Accepted(body, now).Err? && r.error == Accepted(body, now).error
    ensures r.Ok? ==> Accepted(body, now).Ok? && db.messages == old(db.messages) + [Accepted(body, now).value]
    ensures r.Ok? <==> Accepted(body, now).Ok?
  {
    var a := Accepted(body, now);
    if a.Err? {
      return Err(a.error);
    }
    db.messages := db.messages + [a.value];
    r := Ok(());
  }

  /** Saving a message puts it at the end of its session's listing and leaves
      every other session's listing alone. */
  lemma {:induction false} SavedMessageListed(ms: seq<Message>, m: Message, id: ObjectId)
    ensures MessagesOf(ms + [m], m.sessionId) == MessagesOf(ms, m.sessionId) + [m]
    ensures id != m.sessionId ==> MessagesOf(ms + [m], id) == MessagesOf(ms, id)
  {
    assert (ms + [m])[..|ms + [m]| - 1] == ms;
  }

  // ----- listing the messages of a session -----

  /** SessionMessagesGetHandler: an empty id is refused, so is one that is not
      24 hex digits; otherwise the session's messages come back in store order
      (an id the store has no messages for lists nothing). */
  method SessionMessages(ms: seq<Message>, sessionId: string) returns (r: Result<seq<Message>>)
    ensures sessionId == "" ==> r == Err(InvalidRequest)
    ensures sessionId != "" && ParseObjectId(sessionId).None? ==> r == Err(InvalidSessionId)
    ensures sessionId != "" && ParseObjectId(sessionId).Some? ==>
      r == Ok(MessagesOf(ms, ParseObjectId(sessionId).value))
  {
    if sessionId == "" {
      return Err(InvalidRequest);
    }
    var parsed := ParseObjectId(sessionId);
    if parsed.None? {
      return Err(InvalidSessionId);
    }
    var id := parsed.value;
    var found: seq<Message> := [];
    for i := 0 to |ms|
      invariant found == MessagesOf(ms[..i], id)
    {
      assert ms[..i + 1] == ms[..i] + [ms[i]];
      SavedMessageListed(ms[..i], ms[i], id);
      if ms[i].sessionId == id {
        found := found + [ms[i]];
      }
    }
    assert ms[..|ms|] == ms;
    r := Ok(found);
  }

  /** What SessionMessage stores is what SessionMessages lists next, under
      either spelling of the session id. */
  lemma SaveThenList(ms: seq<Message>, body: MessageBody, now: int)
    requires Accepted(Some(body), now).Ok?
    ensures var m := Accepted(Some(body), now).value;
      MessagesOf(ms + [m], ParseObjectId(body.sessionId).value) == MessagesOf(ms, m.sessionId) + [m]
  {
    SavedMessageListed(ms, Accepted(Some(body), now).value, ZeroId);
  }

  // ----- the one-shot assistant exchange -----

  /** The body SendHandler decodes. */
  datatype SendBody = SendBody(message: string, userId: string)

  /** The dynamic type of the id the store reports for an insert. The store
      generates an object id for a document without one. */
  datatype InsertedId = ObjectIdValue(oid: ObjectId) | StringValue(text: string)

  /** What the client gets: the reply and the id of the stored record, or the
      handler dies on a failed type assertion and the client gets no reply. */
  datatype SendOutcome = Replied(reply: string, id: string) | Panicked

  /** The response as written at send.go:78: the reported id is asserted to be
      a string, which an object id is not. */
  function SendResponseAsWritten(reply: string, inserted: InsertedId): (o: SendOutcome)
    ensures o.Replied? <==> inserted.StringValue?
  {
    match inserted
    case StringValue(t) => Replied(reply, t)
    case ObjectIdValue(_) => Panicked
  }

  /** With the id the store generates, the handler as written always dies
      after storing the record: no client ever sees a reply. */
  lemma SendAlwaysPanics(reply: string, newId: ObjectId)
    ensures SendResponseAsWritten(reply, ObjectIdValue(newId)) == Panicked
  {
  }

  /** The response as intended, the way the session handlers report new ids:
      the object id's hex text. */
  function SendResponse(reply: string, inserted: InsertedId): (o: SendOutcome)
    ensures o.Replied? && o.reply == reply
    ensures inserted.ObjectIdValue? ==> ParseObjectId(o.id) == Some(inserted.oid)
  {
    match inserted
    case StringValue(t) => Replied(reply, t)
    case ObjectIdValue(oid) =>
      ParseCanonical(oid);
      Replied(reply, oid)
  }

  /** The record SendHandler stores under the user id of the body: the user's
      message stamped `now`, before the assistant is asked, and the reply and
      the record's lastActivity stamped `replyAt`, after it has answered. */
  function Exchange(newId: ObjectId, body: SendBody, reply: string, now: int, replyAt: int): (rec: SendRecord)
    ensures rec.id == newId && rec.userId == body.userId && rec.lastActivity == replyAt
    ensures |rec.entries| == 2
    ensures rec.entries[0] == ChatEntry("user", body.message, now)
    ensures rec.entries[1] == ChatEntry("ai", reply, replyAt)
  {
    SendRecord(newId, body.userId, [ChatEntry("user", body.message, now), ChatEntry("ai", reply, replyAt)], replyAt)
  }

  predicate IdFree(sends: seq<SendRecord>, id: ObjectId) {
    forall k :: 0 <= k < |sends| ==> sends[k].id != id
  }

  /** SendHandler with the response corrected. A body that does not decode is
      refused; the assistant is asked about the message alone, and when it
      fails nothing is stored. Otherwise the exchange is stored under `newId`,
      the id the store generates (an id already taken fails the insert), and
      the reply comes back with that id as hex text. */
  method SendToAssistant(db: Db, body: Option<SendBody>, now: int, replyAt: int, ask: string -> Option<string>, newId: ObjectId)
    returns (r: Result<SendOutcome>)
    modifies db`sends
    ensures body.None? ==> r == Err(InvalidRequest) && db.sends == old(db.sends)
    ensures body.Some? && ask(body.value.message).None? ==> r == Err(AiFailed) && db.sends == old(db.sends)
    ensures body.Some? && ask(body.value.message).Some? && !IdFree(old(db.sends), newId) ==>
      r == Err(InsertFailed) && db.sends == old(db.sends)
    ensures body.Some? && ask(body.value.message).Some? && IdFree(old(db.sends), newId) ==>
      var reply := ask(body.value.message).value;
      && r == Ok(SendResponse(reply, ObjectIdValue(newId)))
      && db.sends == old(db.sends) + [Exchange(newId, body.value, reply, now, replyAt)]
  {
    if body.None? {
      return Err(InvalidRequest);
    }
    var reply := ask(body.value.message);
    if reply.None? {
      return Err(AiFailed);
    }
    if !IdFree(db.sends, newId) {
      return Err(InsertFailed);
    }
    db.sends := db.sends + [Exchange(newId, body.value, reply.value, now, replyAt)];
    r := Ok(SendResponse(reply.value, ObjectIdValue(newId)));
  }

  /** The id in a corrected reply names the record just stored, and only it. */
  lemma ReplyNamesRecord(sends: seq<SendRecord>, newId: ObjectId, body: SendBody, reply: string, now: int, replyAt: int)
    requires IdFree(sends, newId)
    ensures var s1 := sends + [Exchange(newId, body, reply, now, replyAt)];
      var o := SendResponse(reply, ObjectIdValue(newId));
      forall k :: 0 <= k < |s1| ==> (Some(s1[k].id) == ParseObjectId(o.id) <==> k == |sends|)
  {
  }
}
