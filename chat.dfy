/** The stateless assistant chat of backend/handlers/chat.go: the client sends
    the whole conversation, the handler serialises it into a prompt, asks the
    assistant and stores the conversation with the reply appended. */
module Chat {
  import opened Types
  import opened Store

  /** One turn of the conversation in the request. */
  datatype Turn = Turn(sender: string, text: string)

  /** The prompt line of one entry. */
  function Line(e: ChatEntry): string {
    match e.sender
    case "user" => "User: " + e.text + "\n"
    case "agent" => "Support: " + e.text + "\n"
    case "ai" => "Assistant: " + e.text + "\n"
    case _ => ""
  }

  /** A fixed prefix per known sender, and nothing for any other sender. */
  lemma LinePrefixes(e: ChatEntry)
    ensures e.sender == "user" ==> Line(e) == "User: " + e.text + "\n"
    ensures e.sender == "agent" ==> Line(e) == "Support: " + e.text + "\n"
    ensures e.sender == "ai" ==> Line(e) == "Assistant: " + e.text + "\n"
    ensures !IsKnownSender(e.sender) <==> Line(e) == ""
  {
  }

  predicate IsKnownSender(sender: string) {
    sender == "user" || sender == "agent" || sender == "ai"
  }

  /** The lines of a history, in conversation order. */
  function Lines(h: seq<ChatEntry>): string {
    if h == [] then "" else Line(h[0]) + Lines(h[1..])
  }

  /** The whole prompt: the lines followed by the cue for the assistant. */
  function Prompt(h: seq<ChatEntry>): string {
    Lines(h) + "Assistant:"
  }

  const PromptSuffix := "Assistant:"

  /** Every prompt ends with the cue, whatever the history. */
  lemma PromptEndsWithCue(h: seq<ChatEntry>)
    ensures |Prompt(h)| >= |PromptSuffix|
    ensures Prompt(h)[|Prompt(h)| - |PromptSuffix|..] == PromptSuffix
    ensures Prompt(h)[..|Prompt(h)| - |PromptSuffix|] == Lines(h)
  {
  }

  /** The lines of two histories one after the other are the lines of each,
      in that order. */
  lemma {:induction false} LinesAppend(a: seq<ChatEntry>, b: seq<ChatEntry>)
    ensures Lines(a + b) == Lines(a) + Lines(b)
  {
    if a == [] {
      assert a + b == b;
    } else {
      assert (a + b)[1..] == a[1..] + b;
      LinesAppend(a[1..], b);
      assert (a + b)[0] == a[0];
    }
  }

  /** Appending an entry appends its line. */
  lemma LinesSnoc(h: seq<ChatEntry>, e: ChatEntry)
    ensures Lines(h + [e]) == Lines(h) + Line(e)
  {
    LinesAppend(h, [e]);
    assert [e][1..] == [];
  }

  /** The entries of known senders, in order. */
  function KnownOnly(h: seq<ChatEntry>): (k: seq<ChatEntry>)
    ensures |k| <= |h|
    ensures forall e :: e in k <==> e in h && IsKnownSender(e.sender)
  {
    if h == [] then []
    else
      assert h == [h[0]] + h[1..];
      (if IsKnownSender(h[0].sender) then [h[0]] else []) + KnownOnly(h[1..])
  }

  /** Entries of any other sender ("bot", "system", ...) contribute nothing. */
  lemma {:induction false} UnknownSendersIgnored(h: seq<ChatEntry>)
    ensures Lines(h) == Lines(KnownOnly(h))
  {
    if h != [] {
      var rest := KnownOnly(h[1..]);
      UnknownSendersIgnored(h[1..]);
      assert Lines(h) == Line(h[0]) + Lines(h[1..]);
      if IsKnownSender(h[0].sender) {
        assert KnownOnly(h) == [h[0]] + rest;
        assert ([h[0]] + rest)[1..] == rest;
      } else {
        assert KnownOnly(h) == rest;
        LinePrefixes(h[0]);
      }
    }
  }

  /** Each entry's line appears where its entry stands in the conversation. */
  lemma LineInPlace(a: seq<ChatEntry>, e: ChatEntry, b: seq<ChatEntry>)
    ensures Lines(a + [e] + b) == Lines(a) + Line(e) + Lines(b)
  {
    LinesAppend(a + [e], b);
    LinesSnoc(a, e);
  }

  /** The loop that copies the request into the history, stamping each entry
      with the current time. */
  method AssembleHistory(conv: seq<Turn>, now: int) returns (h: seq<ChatEntry>)
    ensures |h| == |conv|
    ensures forall k :: 0 <= k < |conv| ==> h[k] == ChatEntry(conv[k].sender, conv[k].text, now)
  {
    h := [];
    for i := 0 to |conv|
      invariant |h| == i
      invariant forall k :: 0 <= k < i ==> h[k] == ChatEntry(conv[k].sender, conv[k].text, now)
    {
      h := h + [ChatEntry(conv[i].sender, conv[i].text, now)];
    }
  }

  /** The strings.Builder loop that writes the prompt. */
  method WritePrompt(h: seq<ChatEntry>) returns (p: string)
    ensures p == Prompt(h)
  {
    p := "";
    for i := 0 to |h|
      invariant p == Lines(h[..i])
    {
      assert h[..i + 1] == h[..i] + [h[i]];
      LinesSnoc(h[..i], h[i]);
      p := p + Line(h[i]);
    }
    assert h[..|h|] == h;
    p := p + "Assistant:";
  }

  /** ChatHandler. A body that does not decode is refused. An empty
      conversation is refused before the assistant is asked and nothing is
      stored. A failed call is an error and nothing is stored. Otherwise one
      record is stored, holding the conversation in order with one final "ai"
      entry carrying the reply, and the reply is returned. The request's turns
      are stamped `now`; the reply entry and the record are stamped
      `replyAt`, the clock read once the assistant has answered. */
  method HandleChat(db: Db, req: Option<seq<Turn>>, now: int, replyAt: int, ask: string -> Option<string>) returns (r: Result<string>)
    modifies db`chats
    ensures req.None? ==> r == Err(InvalidRequest)
    ensures req == Some([]) ==> r == Err(EmptyConversation)
    ensures r.Err? ==> db.chats == old(db.chats)
    ensures req.Some? && req.value != [] ==>
      var conv := req.value;
      var h := seq(|conv|, k requires 0 <= k < |conv| => ChatEntry(conv[k].sender, conv[k].text, now));
      match ask(Prompt(h))
      case None => r == Err(AiFailed)
      case Some(reply) =>
        r == Ok(reply) && db.chats == old(db.chats) + [ChatRecord(h + [ChatEntry("ai", reply, replyAt)], replyAt)]
  {
    if req.None? {
      return Err(InvalidRequest);
    }
    var conv := req.value;
    var h := AssembleHistory(conv, now);
    ghost var spec := seq(|conv|, k requires 0 <= k < |conv| => ChatEntry(conv[k].sender, conv[k].text, now));
    assert h == spec;
    if |h| == 0 {
      return Err(EmptyConversation);
    }
    var prompt := WritePrompt(h);
    var reply := ask(prompt);
    if reply.None? {
      return Err(AiFailed);
    }
    var history := h + [ChatEntry("ai", reply.value, replyAt)];
    db.chats := db.chats + [ChatRecord(history, replyAt)];
    r := Ok(reply.value);
  }
}
