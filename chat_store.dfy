/**
 * The chat routes as operations on two tables, the sessions and their
 * messages: POST /session, POST /:sessionId (one retrieval-augmented turn),
 * GET /:sessionId/messages, PATCH /message/:messageId, DELETE /:sessionId and
 * GET /all/sessions. A session belongs to one user; a message belongs to the
 * user who owns its session.
 */
module ChatStore {
  import opened Wrappers
  import opened Seqs
  import opened Memories
  import opened ChatPipeline

  /** A row of the session table. */
  datatype Session = Session(id: SessionId, userId: UserId, title: string, createdAt: nat)

  /** The body of a successful turn: the reply text and the memories the context was built from. */
  datatype ChatReply = ChatReply(reply: string, relevantMemories: seq<Memory>)

  /** A session as GET /all/sessions lists it: with at most its latest message. */
  datatype SessionOverview = SessionOverview(session: Session, latest: seq<ChatMessage>)

  /** The title a session gets when the request carries none. */
  const DefaultSessionTitle: string := "New Chat"

  function SessionIdOf(s: Session): int { s.id }
  function SessionCreatedAt(s: Session): int { s.createdAt }
  function OverviewCreatedAt(o: SessionOverview): int { o.session.createdAt }
  function MessageIdOf(m: ChatMessage): int { m.id }
  function MessageCreatedAt(m: ChatMessage): int { m.createdAt }

  /** `title || "New Chat"`: a missing or empty title falls back to the default. */
  function SessionTitle(title: Option<string>): (t: string)
    ensures t != ""
    ensures title.Some? && title.value != "" ==> t == title.value
    ensures title.None? || title.value == "" ==> t == DefaultSessionTitle
  {
    if title.Some? && title.value != "" then title.value else DefaultSessionTitle
  }

  /** Some session with that id belongs to the user: the filter `{ id: sessionId, userId }`. */
  ghost predicate OwnsSession(sessions: seq<Session>, sid: SessionId, user: UserId) {
    exists s :: s in sessions && s.id == sid && s.userId == user
  }

  /** Some session with that id exists: what a message's foreign key refers to. */
  ghost predicate HasSession(sessions: seq<Session>, sid: SessionId) {
    exists s :: s in sessions && s.id == sid
  }

  /** `chatSession.findFirst({ where: { id: sessionId, userId } })`. */
  function FindSession(sessions: seq<Session>, sid: SessionId, user: UserId): (r: Option<Session>)
    ensures r.Some? ==> r.value in sessions && r.value.id == sid && r.value.userId == user
    ensures r.None? <==> !OwnsSession(sessions, sid, user)
  {
    if sessions == [] then None
    else if sessions[0].id == sid && sessions[0].userId == user then Some(sessions[0])
    else
      assert forall s :: s in sessions[1..] ==> s in sessions;
      assert forall s :: s in sessions && s != sessions[0] ==> s in sessions[1..];
      FindSession(sessions[1..], sid, user)
  }

  /** The messages of one session, in table order: `include: { messages: true }` and the `where: { sessionId }` filters. */
  function SessionMessages(messages: seq<ChatMessage>, sid: SessionId): (r: seq<ChatMessage>)
    ensures forall m :: m in r <==> m in messages && m.sessionId == sid
    ensures IsSubsequence(r, messages)
  {
    Filter(messages, (m: ChatMessage) => m.sessionId == sid)
  }

  /** `chatMessage.findFirst({ where: { id: messageId, session: { userId } } })`. */
  function FindOwnedMessage(sessions: seq<Session>, messages: seq<ChatMessage>, mid: MessageId, user: UserId): (r: Option<ChatMessage>)
    ensures r.Some? ==> r.value in messages && r.value.id == mid && OwnsSession(sessions, r.value.sessionId, user)
    ensures r.None? <==> forall m :: m in messages && m.id == mid ==> !OwnsSession(sessions, m.sessionId, user)
  {
    if messages == [] then None
    else if messages[0].id == mid && FindSession(sessions, messages[0].sessionId, user).Some? then Some(messages[0])
    else
      assert forall m :: m in messages[1..] ==> m in messages;
      assert forall m :: m in messages && m != messages[0] ==> m in messages[1..];
      FindOwnedMessage(sessions, messages[1..], mid, user)
  }

  /**
   * `chatMessage.update({ where: { id: messageId }, data: { content } })`: the
   * message with that id gets the new content; a `content` the body left out
   * is `undefined`, which the ORM leaves untouched.
   */
  function SetContent(messages: seq<ChatMessage>, mid: MessageId, content: Option<string>): (r: seq<ChatMessage>)
    ensures |r| == |messages|
    ensures forall k :: 0 <= k < |messages| && messages[k].id != mid ==> r[k] == messages[k]
    ensures forall k :: 0 <= k < |messages| && messages[k].id == mid ==>
      r[k] == messages[k].(content := content.GetOr(messages[k].content))
  {
    seq(|messages|, k requires 0 <= k < |messages| =>
      if messages[k].id == mid then messages[k].(content := content.GetOr(messages[k].content)) else messages[k])
  }

  /** `chatMessage.deleteMany({ where: { sessionId } })`. */
  function WithoutSession(messages: seq<ChatMessage>, sid: SessionId): (r: seq<ChatMessage>)
    ensures forall m :: m in r <==> m in messages && m.sessionId != sid
    ensures IsSubsequence(r, messages)
  {
    Filter(messages, (m: ChatMessage) => m.sessionId != sid)
  }

  /** `chatSession.delete({ where: { id: sessionId } })`. */
  function RemoveSession(sessions: seq<Session>, sid: SessionId): (r: seq<Session>)
    ensures forall s :: s in r <==> s in sessions && s.id != sid
    ensures IsSubsequence(r, sessions)
  {
    Filter(sessions, (s: Session) => s.id != sid)
  }

  /** `findMany({ where: { userId }, orderBy: { createdAt: "desc" } })` on the session table kept in insertion order. */
  function OwnedSessions(sessions: seq<Session>, user: UserId): (r: seq<Session>)
    requires StrictlyIncreasing(sessions, SessionCreatedAt)
    ensures forall s :: s in r <==> s in sessions && s.userId == user
    ensures StrictlyDecreasing(r, SessionCreatedAt)
  {
    var owned := Filter(sessions, (s: Session) => s.userId == user);
    FilterIncreasing(sessions, (s: Session) => s.userId == user, SessionCreatedAt);
    ReverseDecreasing(owned, SessionCreatedAt);
    Reverse(owned)
  }

  /** `messages: { take: 1, orderBy: { createdAt: "desc" } }` on a session's messages kept in insertion order. */
  function LatestMessage(msgs: seq<ChatMessage>): (r: seq<ChatMessage>)
    ensures |r| <= 1
    ensures r == [] <==> msgs == []
    ensures r != [] ==> r[0] in msgs
  {
    if msgs == [] then [] else [msgs[|msgs| - 1]]
  }

  /** The message `LatestMessage` picks is the newest one of the session. */
  lemma LatestIsNewest(msgs: seq<ChatMessage>)
    requires StrictlyIncreasing(msgs, MessageCreatedAt)
    ensures LatestMessage(msgs) != [] ==>
      forall m :: m in msgs ==> m.createdAt <= LatestMessage(msgs)[0].createdAt
  {
    forall m | m in msgs ensures m.createdAt <= msgs[|msgs| - 1].createdAt {
      var k :| 0 <= k < |msgs| && msgs[k] == m;
      if k < |msgs| - 1 {
        assert MessageCreatedAt(msgs[k]) < MessageCreatedAt(msgs[|msgs| - 1]);
      }
    }
  }

  /**
   * Turns appended for one session join the end of that session's history
   * and leave every other session's history as it was.
   */
  lemma TurnsJoinOnlyTheirSession(messages: seq<ChatMessage>, turns: seq<ChatMessage>, sid: SessionId, other: SessionId)
    requires forall t :: t in turns ==> t.sessionId == sid
    ensures SessionMessages(messages + turns, sid) == SessionMessages(messages, sid) + turns
    ensures other != sid ==> SessionMessages(messages + turns, other) == SessionMessages(messages, other)
  {
    FilterConcat(messages, turns, (m: ChatMessage) => m.sessionId == sid);
    FilterConcat(messages, turns, (m: ChatMessage) => m.sessionId == other);
    FilterAll(turns, (m: ChatMessage) => m.sessionId == sid);
    if other != sid {
      FilterNone(turns, (m: ChatMessage) => m.sessionId == other);
    }
  }

  /** A filter every element passes keeps everything. */
  lemma {:induction false} FilterAll<T(!new)>(xs: seq<T>, p: T -> bool)
    requires forall x :: x in xs ==> p(x)
    ensures Filter(xs, p) == xs
  {
    if xs != [] {
      FilterAll(xs[1..], p);
    }
  }

  /** A filter no element passes keeps nothing. */
  lemma FilterNone<T(!new)>(xs: seq<T>, p: T -> bool)
    requires forall x :: x in xs ==> !p(x)
    ensures Filter(xs, p) == []
  {
    if Filter(xs, p) != [] {
      assert Filter(xs, p)[0] in Filter(xs, p);
    }
  }

  /** Deleting a session's messages empties its history and leaves every other session's history as it was. */
  lemma {:induction false} WithoutSessionHistories(messages: seq<ChatMessage>, sid: SessionId, other: SessionId)
    ensures SessionMessages(WithoutSession(messages, sid), sid) == []
    ensures other != sid ==> SessionMessages(WithoutSession(messages, sid), other) == SessionMessages(messages, other)
  {
    FilterNone(WithoutSession(messages, sid), (m: ChatMessage) => m.sessionId == sid);
    if messages != [] {
      WithoutSessionHistories(messages[1..], sid, other);
    }
  }

  /**
   * The turns just saved are the newest entries of the window the next turn
   * puts into its prompt, so a follow-up question sees the previous exchange.
   */
  lemma WindowEndsWithLatest(history: seq<ChatMessage>, turns: seq<ChatMessage>)
    requires |turns| <= HistoryWindow
    ensures var w := Window(history + turns);
      |w| >= |turns| && w[|w| - |turns|..] == turns
  {
    var all := history + turns;
    var w := Window(all);
    assert w == all[|all| - |w|..];
    assert all[|all| - |turns|..] == turns;
  }

  /**
   * The invariant of the two tables: both are kept in insertion order, every
   * id and timestamp is below its counter, and every message's session exists.
   */
  ghost predicate Consistent(sessions: seq<Session>, messages: seq<ChatMessage>, nextId: nat, clock: nat) {
    && StrictlyIncreasing(sessions, SessionIdOf)
    && StrictlyIncreasing(sessions, SessionCreatedAt)
    && StrictlyIncreasing(messages, MessageIdOf)
    && StrictlyIncreasing(messages, MessageCreatedAt)
    && (forall s :: s in sessions ==> s.id < nextId && s.createdAt < clock)
    && (forall m :: m in messages ==> m.id < nextId && m.createdAt < clock)
    && (forall m :: m in messages ==> HasSession(sessions, m.sessionId))
  }

  /** Editing contents keeps the invariant: ids, timestamps and sessions of the messages stay as they were. */
  lemma SetContentConsistent(sessions: seq<Session>, messages: seq<ChatMessage>, nextId: nat, clock: nat,
                             mid: MessageId, content: Option<string>)
    requires Consistent(sessions, messages, nextId, clock)
    ensures Consistent(sessions, SetContent(messages, mid, content), nextId, clock)
  {
    var updated := SetContent(messages, mid, content);
    forall i, j | 0 <= i < j < |updated|
      ensures MessageIdOf(updated[i]) < MessageIdOf(updated[j])
      ensures MessageCreatedAt(updated[i]) < MessageCreatedAt(updated[j])
    {
      assert MessageIdOf(messages[i]) < MessageIdOf(messages[j]);
      assert MessageCreatedAt(messages[i]) < MessageCreatedAt(messages[j]);
    }
    forall m | m in updated
      ensures m.id < nextId && m.createdAt < clock && HasSession(sessions, m.sessionId)
    {
      var i :| 0 <= i < |updated| && updated[i] == m;
      assert messages[i] in messages;
    }
  }

  /** Deleting a session together with its messages keeps the invariant: no message is left without its session. */
  lemma DeleteSessionConsistent(sessions: seq<Session>, messages: seq<ChatMessage>, nextId: nat, clock: nat, sid: SessionId)
    requires Consistent(sessions, messages, nextId, clock)
    ensures Consistent(RemoveSession(sessions, sid), WithoutSession(messages, sid), nextId, clock)
  {
    var keepMessage := (m: ChatMessage) => m.sessionId != sid;
    var keepSession := (s: Session) => s.id != sid;
    FilterIncreasing(messages, keepMessage, MessageIdOf);
    FilterIncreasing(messages, keepMessage, MessageCreatedAt);
    FilterIncreasing(sessions, keepSession, SessionIdOf);
    FilterIncreasing(sessions, keepSession, SessionCreatedAt);
    var remaining := RemoveSession(sessions, sid);
    forall m | m in WithoutSession(messages, sid) ensures HasSession(remaining, m.sessionId) {
      var s :| s in sessions && s.id == m.sessionId;
      assert s in remaining;
    }
  }

  /** The session and message tables with the counters the database keeps: the next id and a logical clock. */
  class ChatStore {
    var sessions: seq<Session>
    var messages: seq<ChatMessage>
    var nextId: nat
    var clock: nat

    /** The store's invariant, on its fields. */
    ghost predicate Valid()
      reads this
    {
      Consistent(sessions, messages, nextId, clock)
    }

    constructor ()
      ensures Valid() && sessions == [] && messages == []
    {
      sessions, messages, nextId, clock := [], [], 0, 0;
    }

    /** POST /session: a new session owned by the caller, titled `title || "New Chat"`. */
    method CreateSession(user: UserId, title: Option<string>) returns (s: Session)
      requires Valid()
      modifies this
      ensures Valid()
      ensures s == Session(old(nextId), user, SessionTitle(title), old(clock))
      ensures forall t :: t in old(sessions) ==> t.id != s.id
      ensures sessions == old(sessions) + [s] && messages == old(messages)
    {
      s := Session(nextId, user, SessionTitle(title), clock);
      AppendIncreasing(sessions, s, SessionIdOf);
      AppendIncreasing(sessions, s, SessionCreatedAt);
      sessions := sessions + [s];
      nextId, clock := nextId + 1, clock + 1;
    }

    /** `chatMessage.create({ data: { sessionId, role, content } })` for a session that exists. */
    method AddMessage(sid: SessionId, role: string, content: string) returns (m: ChatMessage)
      requires Valid() && HasSession(sessions, sid)
      modifies this
      ensures Valid()
      ensures m == ChatMessage(old(nextId), sid, role, content, old(clock))
      ensures forall x :: x in old(messages) ==> x.id != m.id
      ensures messages == old(messages) + [m] && sessions == old(sessions)
      ensures nextId == old(nextId) + 1 && clock == old(clock) + 1
    {
      m := ChatMessage(nextId, sid, role, content, clock);
      AppendIncreasing(messages, m, MessageIdOf);
      AppendIncreasing(messages, m, MessageCreatedAt);
      messages := messages + [m];
      nextId, clock := nextId + 1, clock + 1;
    }

    /**
     * POST /:sessionId. A session the caller does not own is a 404 that
     * changes nothing. Otherwise the user turn is saved first; the prompt is
     * built from the history loaded before that save, from the search `hits`
     * and from the memory table `rows`; an invalid stored role then fails the
     * turn with the user turn already saved; else the reply of `complete` is
     * normalised, saved as the assistant turn and returned with the memories
     * used.
     */
    method SendMessage(user: UserId, sid: SessionId, message: string, hits: seq<Hit>, rows: seq<Memory>,
                       complete: (string, seq<PromptMessage>) -> Completion) returns (r: Result<ChatReply, ChatError>)
      requires Valid()
      modifies this
      ensures Valid()
      ensures sessions == old(sessions)
      ensures !OwnsSession(old(sessions), sid, user) ==>
        r == Err(SessionNotFound) && messages == old(messages) && nextId == old(nextId) && clock == old(clock)
      ensures OwnsSession(old(sessions), sid, user) ==>
        var prepared := PreparePrompt(SessionMessages(old(messages), sid), message, hits, rows, user);
        var userTurn := ChatMessage(old(nextId), sid, "user", message, old(clock));
        if prepared.Err? then
          r == Err(prepared.error) && messages == old(messages) + [userTurn]
        else
          var reply := NormaliseReply(RawReply(complete(ModelName, prepared.value.prompt)));
          && r == Ok(ChatReply(reply, prepared.value.relevantMemories))
          && messages == old(messages) + [userTurn, ChatMessage(old(nextId) + 1, sid, "assistant", reply, old(clock) + 1)]
    {
      var session := FindSession(sessions, sid, user);
      if session.None? {
        return Err(SessionNotFound);
      }
      assert HasSession(sessions, sid) by { assert session.value in sessions; }
      var prepared := PreparePrompt(SessionMessages(messages, sid), message, hits, rows, user);
      r := SaveTurn(sid, message, prepared, complete);
    }

    /**
     * The turn in a session that exists, once the prompt is prepared: save the
     * user turn; on a prepared prompt, save and return the normalised reply.
     */
    method SaveTurn(sid: SessionId, message: string, prepared: Result<Prepared, ChatError>,
                    complete: (string, seq<PromptMessage>) -> Completion) returns (r: Result<ChatReply, ChatError>)
      requires Valid() && HasSession(sessions, sid)
      modifies this
      ensures Valid()
      ensures sessions == old(sessions)
      ensures prepared.Err? ==>
        r == Err(prepared.error) && messages == old(messages) + [ChatMessage(old(nextId), sid, "user", message, old(clock))]
      ensures prepared.Ok? ==>
        && r == Ok(ChatReply(NormaliseReply(RawReply(complete(ModelName, prepared.value.prompt))), prepared.value.relevantMemories))
        && messages == old(messages) + [ChatMessage(old(nextId), sid, "user", message, old(clock)),
                                        ChatMessage(old(nextId) + 1, sid, "assistant", r.value.reply, old(clock) + 1)]
    {
      var userTurn := AddMessage(sid, "user", message);
      if prepared.Err? {
        return Err(prepared.error);
      }
      var reply := NormaliseReply(RawReply(complete(ModelName, prepared.value.prompt)));
      var assistantTurn := AddMessage(sid, "assistant", reply);
      r := Ok(ChatReply(reply, prepared.value.relevantMemories));
    }

    /** GET /:sessionId/messages: the session's messages, oldest first, when the caller owns it; none otherwise. */
    method ListMessages(user: UserId, sid: SessionId) returns (r: seq<ChatMessage>)
      requires Valid()
      ensures forall m :: m in r <==> m in messages && m.sessionId == sid && OwnsSession(sessions, sid, user)
      ensures StrictlyIncreasing(r, MessageCreatedAt)
    {
      if FindSession(sessions, sid, user).Some? {
        r := SessionMessages(messages, sid);
        FilterIncreasing(messages, (m: ChatMessage) => m.sessionId == sid, MessageCreatedAt);
      } else {
        r := [];
      }
    }

    /**
     * PATCH /message/:messageId: replaces the content of a message whose
     * session the caller owns and returns the updated message; a 404 that
     * changes nothing otherwise.
     */
    method EditMessage(user: UserId, mid: MessageId, content: Option<string>) returns (r: Result<ChatMessage, ChatError>)
      requires Valid()
      modifies this
      ensures Valid()
      ensures sessions == old(sessions) && nextId == old(nextId) && clock == old(clock)
      ensures var found := FindOwnedMessage(old(sessions), old(messages), mid, user);
        && (found.None? ==> r == Err(MessageNotFound) && messages == old(messages))
        && (found.Some? ==>
          && r == Ok(found.value.(content := content.GetOr(found.value.content)))
          && messages == SetContent(old(messages), mid, content))
      ensures r.Ok? ==> r.value in messages && r.value.id == mid
    {
      var found := FindOwnedMessage(sessions, messages, mid, user);
      if found.None? {
        return Err(MessageNotFound);
      }
      var edited := found.value.(content := content.GetOr(found.value.content));
      var k :| 0 <= k < |messages| && messages[k] == found.value;
      var updated := SetContent(messages, mid, content);
      SetContentConsistent(sessions, messages, nextId, clock, mid, content);
      assert updated[k] == edited;
      messages := updated;
      r := Ok(edited);
    }

    /**
     * DELETE /:sessionId: removes the caller's session and all its messages,
     * the messages first; a 404 that changes nothing for a session the caller
     * does not own.
     */
    method DeleteSession(user: UserId, sid: SessionId) returns (r: Result<(), ChatError>)
      requires Valid()
      modifies this
      ensures Valid()
      ensures nextId == old(nextId) && clock == old(clock)
      ensures !OwnsSession(old(sessions), sid, user) ==>
        r == Err(SessionNotFoundOrUnauthorized) && sessions == old(sessions) && messages == old(messages)
      ensures OwnsSession(old(sessions), sid, user) ==>
        && r == Ok(())
        && messages == WithoutSession(old(messages), sid)
        && sessions == RemoveSession(old(sessions), sid)
      ensures r.Ok? ==> !HasSession(sessions, sid) && forall m :: m in messages ==> m.sessionId != sid
    {
      var session := FindSession(sessions, sid, user);
      if session.None? {
        return Err(SessionNotFoundOrUnauthorized);
      }
      DeleteSessionConsistent(sessions, messages, nextId, clock, sid);
      var remaining := RemoveSession(sessions, sid);
      messages := WithoutSession(messages, sid);
      sessions := remaining;
      r := Ok(());
    }

    /** GET /all/sessions: the caller's sessions, newest first, each with at most its latest message. */
    method ListSessions(user: UserId) returns (r: seq<SessionOverview>)
      requires Valid()
      ensures forall s :: s in sessions && s.userId == user <==> exists k :: 0 <= k < |r| && r[k].session == s
      ensures StrictlyDecreasing(r, OverviewCreatedAt)
      ensures forall k :: 0 <= k < |r| ==> r[k].latest == LatestMessage(SessionMessages(messages, r[k].session.id))
      ensures forall k :: 0 <= k < |r| ==>
        forall m :: m in messages && m.sessionId == r[k].session.id ==> |r[k].latest| == 1 && m.createdAt <= r[k].latest[0].createdAt
    {
      var owned, table := OwnedSessions(sessions, user), messages;
      r := seq(|owned|, k requires 0 <= k < |owned| =>
        SessionOverview(owned[k], LatestMessage(SessionMessages(table, owned[k].id))));
      forall s | s in sessions && s.userId == user ensures exists k :: 0 <= k < |r| && r[k].session == s {
        var k :| 0 <= k < |owned| && owned[k] == s;
        assert r[k].session == s;
      }
      forall i, j | 0 <= i < j < |r| ensures OverviewCreatedAt(r[i]) > OverviewCreatedAt(r[j]) {
        assert SessionCreatedAt(owned[i]) > SessionCreatedAt(owned[j]);
      }
      forall k | 0 <= k < |r|
        ensures forall m :: m in messages && m.sessionId == r[k].session.id ==> |r[k].latest| == 1 && m.createdAt <= r[k].latest[0].createdAt
      {
        var history := SessionMessages(messages, owned[k].id);
        FilterIncreasing(messages, (m: ChatMessage) => m.sessionId == owned[k].id, MessageCreatedAt);
        LatestIsNewest(history);
      }
    }
  }
}
