/** Records of the chat backend: sessions, agents, messages, users, and the
    24-digit hexadecimal object ids that name sessions and agents. */
module Types {

  datatype Option<+T> = None | Some(value: T)

  /** The error replies of the handlers, without HTTP status codes. */
  datatype Error =
    | InvalidRequest       // body could not be read, or a required field is empty
    | InvalidSessionId     // a session id that is not 24 hex digits
    | InvalidAgentId       // an agent id that is not 24 hex digits
    | AgentNotAvailable    // no agent with that id whose status is "available"
    | SessionNotFound
    | SessionNotActive
    | InsertFailed         // the store refused an insert (duplicate id)
    | EmptyConversation
    | AiFailed             // the assistant call returned an error
    | EmailTaken
    | UserNotFound
    | WrongPassword
    | InvalidCredentials

  datatype Result<T> = Ok(value: T) | Err(error: Error)

  // ----- object ids -----

  predicate IsHexDigit(c: char) {
    '0' <= c <= '9' || 'a' <= c <= 'f' || 'A' <= c <= 'F'
  }

  predicate IsLowerHexDigit(c: char) {
    '0' <= c <= '9' || 'a' <= c <= 'f'
  }

  /** The canonical text of an object id: 24 lower-case hex digits. */
  predicate IsCanonicalId(s: string) {
    |s| == 24 && forall i :: 0 <= i < |s| ==> IsLowerHexDigit(s[i])
  }

  type ObjectId = s: string | IsCanonicalId(s) witness "000000000000000000000000"

  /** The all-zero id, which is what the source gets when it ignores a parse error. */
  const ZeroId: ObjectId := "000000000000000000000000"

  function ToLowerHex(c: char): (d: char)
    requires IsHexDigit(c)
    ensures IsLowerHexDigit(d)
    ensures IsLowerHexDigit(c) ==> d == c
  {
    if 'A' <= c <= 'F' then (c as int - 'A' as int + 'a' as int) as char else c
  }

  /** Parsing an id from hex text: exactly 24 hex digits of either case. Two
      spellings that differ only in case name the same id. */
  function ParseObjectId(s: string): (r: Option<ObjectId>)
    ensures r.Some? <==> |s| == 24 && forall i :: 0 <= i < |s| ==> IsHexDigit(s[i])
    ensures r.Some? ==> forall i :: 0 <= i < 24 ==> r.value[i] == ToLowerHex(s[i])
  {
    if |s| == 24 && forall i :: 0 <= i < |s| ==> IsHexDigit(s[i]) then
      var t: ObjectId := seq(24, i requires 0 <= i < 24 => ToLowerHex(s[i]));
      Some(t)
    else
      None
  }

  /** `id, _ := ObjectIDFromHex(s)`: the parse error is dropped and the zero id used. */
  function ParseOrZero(s: string): ObjectId {
    match ParseObjectId(s)
    case Some(id) => id
    case None => ZeroId
  }

  /** The canonical text of an id parses back to that id. */
  lemma ParseCanonical(id: ObjectId)
    ensures ParseObjectId(id) == Some(id)
  {
    assert forall i :: 0 <= i < |id| ==> IsHexDigit(id[i]) by {
      forall i | 0 <= i < |id| ensures IsHexDigit(id[i]) {
        assert IsLowerHexDigit(id[i]);
      }
    }
    var t := ParseObjectId(id).value;
    assert |t| == |id| && forall i :: 0 <= i < 24 ==> t[i] == id[i];
    assert t == id;
  }

  // ----- the records -----

  datatype Mode = System | Human                        // "system" / "human"
  datatype Status = Active | WaitingForAgent | Completed // "active" / "waiting_for_agent" / "completed"

  function StatusName(s: Status): string {
    match s
    case Active => "active"
    case WaitingForAgent => "waiting_for_agent"
    case Completed => "completed"
  }

  /** The assignedAgent value of a session that no human agent owns. */
  const SystemAgent := "System"
  const AvailableStatus := "available"
  const BusyStatus := "busy"

  datatype Session = Session(
    userId: string,
    mode: Mode,
    status: Status,
    assignedAgent: string,
    createdAt: int,
    lastActivity: int)

  datatype Agent = Agent(email: string, passwordHash: string, status: string)

  datatype Message = Message(sessionId: ObjectId, sender: string, text: string, timestamp: int)

  datatype User = User(name: string, email: string, password: string)

  /** One entry of a conversation kept by the chat and send handlers. */
  datatype ChatEntry = ChatEntry(sender: string, text: string, timestamp: int)

  /** A conversation stored by the chat handler. */
  datatype ChatRecord = ChatRecord(conversation: seq<ChatEntry>, createdAt: int)

  /** The record stored by the send handler. */
  datatype SendRecord = SendRecord(id: ObjectId, userId: string, entries: seq<ChatEntry>, lastActivity: int)
}
