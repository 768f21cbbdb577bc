/**
 * The pure steps of POST /chats/:sessionId, the retrieval-augmented chat
 * turn: keep the vector hits above the relevance floor, join them to the
 * caller's memory rows, render those rows as context text, take the recent
 * history window with its roles checked, assemble the prompt, and turn the
 * completion's reply into text. The vector search and the completion call are
 * services outside the model: their results come in as values.
 */
module ChatPipeline {
  import opened Wrappers
  import opened Seqs
  import opened Strings
  import opened Memories

  type SessionId = nat
  type MessageId = nat

  /** The relevance floor: hits scoring below it are discarded. */
  const ScoreFloor: real := 0.2

  /** How many stored messages of the session go into the prompt. */
  const HistoryWindow: nat := 10

  /** The completion model the prompt is sent to. */
  const ModelName: string := "mistral-large-latest"

  const SystemPromptText: string :=
    "You are a helpful assistant. Use the provided context and recent chat history to answer follow-up questions.\n"
    + "Resolve pronouns and references based on earlier conversation.\n"
    + "Use the memory context carefully to support your answer."

  /** The reply used when the completion's content is neither a string nor a list of chunks. */
  const FallbackReply: string := "I don't know how to respond."

  /** A hit of the reranked vector search: the memory id it was indexed under and its score, if any. */
  datatype Hit = Hit(id: MemoryId, score: Option<real>)

  /** The closed set of roles a prompt message may carry. */
  datatype Role = User | Assistant | System | Tool

  /** A stored chat message. Its role is whatever text the table holds. */
  datatype ChatMessage = ChatMessage(id: MessageId, sessionId: SessionId, role: string, content: string, createdAt: nat)

  /** A message of the prompt sent to the completion model. */
  datatype PromptMessage = PromptMessage(role: Role, content: string)

  /** The failures of the chat routes: the three 404s and the invalid stored role (an exception, so a 500). */
  datatype ChatError = SessionNotFound | SessionNotFoundOrUnauthorized | MessageNotFound | InvalidMessageRole(role: string)

  /** The prefix of the exception text thrown for an invalid stored role. */
  const InvalidRolePrefix: string := "Invalid message role: "

  /** The response text of each chat failure: the 404 bodies and the exception message. */
  function ErrorMessage(e: ChatError): (msg: string)
    ensures msg != ""
    ensures e.InvalidMessageRole? <==> InvalidRolePrefix <= msg
    ensures e.InvalidMessageRole? ==> msg[|InvalidRolePrefix|..] == e.role
  {
    assert InvalidRolePrefix[0] == 'I';
    match e
    case SessionNotFound => assert "Session not found"[0] == 'S'; "Session not found"
    case SessionNotFoundOrUnauthorized => assert "Session not found or unauthorized"[0] == 'S'; "Session not found or unauthorized"
    case MessageNotFound => assert "Message not found or unauthorized"[0] == 'M'; "Message not found or unauthorized"
    case InvalidMessageRole(role) => InvalidRolePrefix + role
  }

  /** Distinct failures have distinct texts, and the exception text names the role that failed. */
  lemma ErrorMessageInjective(a: ChatError, b: ChatError)
    ensures ErrorMessage(a) == ErrorMessage(b) ==> a == b
  {
    if ErrorMessage(a) == ErrorMessage(b) && a.InvalidMessageRole? {
      assert b.InvalidMessageRole?;
      assert a.role == ErrorMessage(a)[|InvalidRolePrefix|..] == b.role;
    }
  }

  // ----- Step 2: filtering the hits -----

  /** `hit._score && hit._score >= 0.2`: a score must be present (and, being at least 0.2, is never the falsy 0). */
  predicate IsRelevant(h: Hit) {
    h.score.Some? && h.score.value >= ScoreFloor
  }

  /** `hits.filter(...)`: the relevant hits in their rank order. */
  function FilterHits(hits: seq<Hit>): (r: seq<Hit>)
    ensures |r| <= |hits|
    ensures forall h :: h in r <==> h in hits && IsRelevant(h)
    ensures IsSubsequence(r, hits)
  {
    Filter(hits, IsRelevant)
  }

  /** The floor is applied hit by hit: filtering a ranking split in two filters each part. */
  lemma FilterHitsConcat(a: seq<Hit>, b: seq<Hit>)
    ensures FilterHits(a + b) == FilterHits(a) + FilterHits(b)
  {
    FilterConcat(a, b, IsRelevant);
  }

  /** `relevantHits.map((hit) => hit._id)`: the ids the hits were indexed under, in rank order. */
  function HitIds(hits: seq<Hit>): (ids: seq<MemoryId>)
    ensures |ids| == |hits| && forall k :: 0 <= k < |hits| ==> ids[k] == hits[k].id
  {
    seq(|hits|, k requires 0 <= k < |hits| => hits[k].id)
  }

  /**
   * The ids of hydrated memory rows, the same projection as `HitIds` on the
   * other record type, so that hit order and row order can be compared.
   */
  function MemoryIds(ms: seq<Memory>): (ids: seq<MemoryId>)
    ensures |ids| == |ms| && forall k :: 0 <= k < |ms| ==> ids[k] == ms[k].id
  {
    seq(|ms|, k requires 0 <= k < |ms| => ms[k].id)
  }

  // ----- Step 2b: hydrating the hits -----

  /** `findMany({ where: { id: { in: ids }, userId } })`: the caller's rows whose ids were hit. */
  function OwnedRecords(rows: seq<Memory>, ids: seq<MemoryId>, user: UserId): (r: seq<Memory>)
    ensures forall m :: m in r <==> m in rows && m.id in ids && m.userId == user
  {
    Filter(rows, (m: Memory) => m.id in ids && m.userId == user)
  }

  /** `new Map(records.map((m) => [m.id, m])).get(id)`: a later entry under the same key wins. */
  function MapGet(records: seq<Memory>, id: MemoryId): (r: Option<Memory>)
    ensures r.Some? ==> r.value in records && r.value.id == id
    ensures r.None? <==> forall m :: m in records ==> m.id != id
  {
    if records == [] then None
    else
      var init, last := records[..|records| - 1], records[|records| - 1];
      assert records == init + [last];
      if last.id == id then Some(last) else MapGet(init, id)
  }

  /** `hits.map((hit) => memoryMap.get(hit._id)).filter(Boolean)`: one record per hit that has one, in hit order. */
  function Hydrate(hits: seq<Hit>, records: seq<Memory>): (r: seq<Memory>)
    ensures |r| <= |hits|
    ensures forall m :: m in r ==> m in records
    ensures IsSubsequence(MemoryIds(r), HitIds(hits))
  {
    if hits == [] then []
    else
      var rest := Hydrate(hits[1..], records);
      assert HitIds(hits)[1..] == HitIds(hits[1..]);
      match MapGet(records, hits[0].id)
      case None => rest
      case Some(m) =>
        assert MemoryIds([m] + rest)[1..] == MemoryIds(rest);
        [m] + rest
  }

  /** A hit whose id has a record contributes that id to the result; a hit without one is dropped without error. */
  lemma {:induction false} HydrateKeepsFoundHits(hits: seq<Hit>, records: seq<Memory>)
    ensures forall k :: 0 <= k < |hits| && (exists m :: m in records && m.id == hits[k].id) ==>
      hits[k].id in MemoryIds(Hydrate(hits, records))
    ensures (forall k :: 0 <= k < |hits| ==> forall m :: m in records ==> m.id != hits[k].id) ==>
      Hydrate(hits, records) == []
  {
    if hits != [] {
      HydrateKeepsFoundHits(hits[1..], records);
      var rest := Hydrate(hits[1..], records);
      var r := Hydrate(hits, records);
      assert forall k :: 0 < k < |hits| ==> hits[k] == hits[1..][k - 1];
      assert forall i :: 0 <= i < |rest| ==> rest[i] in r ==> MemoryIds(rest)[i] in MemoryIds(r) by {
        forall i | 0 <= i < |rest| && rest[i] in r ensures MemoryIds(rest)[i] in MemoryIds(r) {
          var j :| 0 <= j < |r| && r[j] == rest[i];
          assert MemoryIds(r)[j] == rest[i].id;
        }
      }
      match MapGet(records, hits[0].id)
      case None =>
      case Some(m) =>
        assert r == [m] + rest;
        assert MemoryIds(r)[0] == hits[0].id;
        forall i | 0 <= i < |rest| ensures rest[i] in r {
          assert r[i + 1] == rest[i];
        }
    }
  }

  /** A record stands behind the hit: `memoryMap.get(hit._id)` is truthy. */
  predicate HasRecord(records: seq<Memory>, h: Hit) {
    exists m :: m in records && m.id == h.id
  }

  /**
   * The ids of the hydrated records are exactly the ids of the hits that have
   * a record, one per such hit and in hit order, so a repeated hit id yields
   * its record once per occurrence.
   */
  lemma {:induction false} HydrateIds(hits: seq<Hit>, records: seq<Memory>)
    ensures MemoryIds(Hydrate(hits, records)) == HitIds(Filter(hits, (h: Hit) => HasRecord(records, h)))
  {
    if hits != [] {
      HydrateIds(hits[1..], records);
      var rest := Hydrate(hits[1..], records);
      var found := Filter(hits[1..], (h: Hit) => HasRecord(records, h));
      match MapGet(records, hits[0].id)
      case None =>
        assert !HasRecord(records, hits[0]);
      case Some(m) =>
        assert HasRecord(records, hits[0]);
        assert MemoryIds([m] + rest) == [m.id] + MemoryIds(rest);
        assert HitIds([hits[0]] + found) == [hits[0].id] + HitIds(found);
    }
  }

  /** `relevantMemories`: the caller's memories behind the relevant hits, in hit order. */
  function RelevantMemories(hits: seq<Hit>, rows: seq<Memory>, user: UserId): (r: seq<Memory>)
    ensures |r| <= |FilterHits(hits)| <= |hits|
    ensures forall m :: m in r ==> m in rows && m.userId == user
    ensures forall m :: m in r ==> exists h :: h in hits && IsRelevant(h) && h.id == m.id
    ensures IsSubsequence(MemoryIds(r), HitIds(FilterHits(hits)))
  {
    var relevant := FilterHits(hits);
    var ids := HitIds(relevant);
    var records := OwnedRecords(rows, ids, user);
    var r := Hydrate(relevant, records);
    assert forall m :: m in r ==> m.id in ids;
    r
  }

  /** Every relevant hit with an owned row behind it yields that memory; hits below the floor, and hits without an owned row, yield nothing. */
  lemma RelevantMemoriesComplete(hits: seq<Hit>, rows: seq<Memory>, user: UserId)
    ensures forall h :: h in hits && IsRelevant(h) && (exists m :: m in rows && m.id == h.id && m.userId == user) ==>
      h.id in MemoryIds(RelevantMemories(hits, rows, user))
    ensures (forall h :: h in hits ==> !IsRelevant(h)) ==> RelevantMemories(hits, rows, user) == []
  {
    var relevant := FilterHits(hits);
    var ids := HitIds(relevant);
    var records := OwnedRecords(rows, ids, user);
    HydrateKeepsFoundHits(relevant, records);
    forall h | h in hits && IsRelevant(h) && (exists m :: m in rows && m.id == h.id && m.userId == user)
      ensures h.id in MemoryIds(RelevantMemories(hits, rows, user))
    {
      var k :| 0 <= k < |relevant| && relevant[k] == h;
      var m :| m in rows && m.id == h.id && m.userId == user;
      assert ids[k] == h.id;
      assert m in records;
    }
    if forall h :: h in hits ==> !IsRelevant(h) {
      assert relevant == [];
    }
  }

  // ----- Step 2c: the context text -----

  /** `m.title || "Untitled"`: a missing or empty title shows as "Untitled". */
  function DisplayTitle(m: Memory): (t: string)
    ensures t != ""
    ensures m.title.None? || m.title.value == "" ==> t == "Untitled"
    ensures m.title.Some? && m.title.value != "" ==> t == m.title.value
  {
    if m.title.None? || m.title.value == "" then "Untitled" else m.title.value
  }

  /** `- {title}: {content}`. */
  function ContextLine(m: Memory): (l: string)
    ensures "- " + DisplayTitle(m) + ": " <= l
    ensures |m.content| <= |l| && l[|l| - |m.content|..] == m.content
  {
    "- " + DisplayTitle(m) + ": " + m.content
  }

  function ContextLines(ms: seq<Memory>): (lines: seq<string>)
    ensures |lines| == |ms| && forall k :: 0 <= k < |ms| ==> lines[k] == ContextLine(ms[k])
  {
    seq(|ms|, k requires 0 <= k < |ms| => ContextLine(ms[k]))
  }

  /** `relevantMemories.map(...).join("\n")`: empty exactly when there are no memories, and otherwise starting with the first memory's line. */
  function ContextText(ms: seq<Memory>): (t: string)
    ensures t == "" <==> ms == []
    ensures ms != [] ==> ContextLine(ms[0]) <= t
  {
    var lines := ContextLines(ms);
    if ms == [] then ""
    else
      assert lines[0] == ContextLine(ms[0]);
      assert |ContextLine(ms[0])| > 0;
      Join(lines, "\n")
  }

  /** Neither the title nor the content holds a line break. */
  predicate IsSingleLine(m: Memory) {
    '\n' !in DisplayTitle(m) && '\n' !in m.content
  }

  /**
   * The context text has exactly one line per memory, in order, each
   * `- {title or "Untitled"}: {content}`, when no memory holds a line break of
   * its own; no memories give the empty text.
   */
  lemma ContextTextLines(ms: seq<Memory>)
    requires forall k :: 0 <= k < |ms| ==> IsSingleLine(ms[k])
    ensures ms == [] ==> ContextText(ms) == ""
    ensures ms != [] ==> Split(ContextText(ms), '\n') == ContextLines(ms)
  {
    if ms != [] {
      var lines := ContextLines(ms);
      forall k | 0 <= k < |lines| ensures '\n' !in lines[k] {
        var m := ms[k];
        assert lines[k] == "- " + DisplayTitle(m) + ": " + m.content;
        assert '\n' !in "- " + DisplayTitle(m) + ": ";
      }
      SplitJoin(lines, '\n');
    }
  }

  // ----- Step 3: the prompt -----

  /** What the final user turn starts with: the message under its heading, then the memories heading. */
  function PromptHeader(message: string): string {
    "## USER MESSAGE\n" + message + "\n\n## CONTEXTUAL USER MEMORIES"
  }

  /** The template's leading line break is the only leading whitespace. */
  lemma TemplateTrimStart(message: string, rest: string)
    ensures TrimStart("\n" + PromptHeader(message) + rest) == PromptHeader(message) + rest
  {
    var body := PromptHeader(message) + rest;
    assert "\n" + PromptHeader(message) + rest == "\n" + body;
    assert ("\n" + body)[1..] == body;
    assert body[0] == "## USER MESSAGE\n"[0];
  }

  /** The whitespace the trim removes at the end lies after the memories heading. */
  lemma TemplateTrimEnd(message: string, tail: string)
    ensures TrimEnd(PromptHeader(message) + tail) == PromptHeader(message) + TrimEnd(tail)
  {
    var header := PromptHeader(message);
    var b := "\n\n## CONTEXTUAL USER MEMORIES";
    assert header == ("## USER MESSAGE\n" + message) + b;
    assert header[|header| - 1] == b[|b| - 1];
    if IsBlank(tail) {
      TrimEndBlankSuffix(header, tail);
    } else {
      TrimEndKeepsPrefix(header, tail);
    }
  }

  /**
   * The content of the final user turn: the template
   * `\n## USER MESSAGE\n{message}\n\n## CONTEXTUAL USER MEMORIES\n{contextText}\n`
   * filled in, then `.trim()`. The trim takes only the template's own leading
   * line break and the whitespace at the end: the message is kept verbatim,
   * and the context text follows the headings with its trailing whitespace
   * removed.
   */
  function ContextPromptContent(message: string, contextText: string): (r: string)
    ensures r == PromptHeader(message) + TrimEnd("\n" + contextText)
    ensures contextText == "" ==> r == PromptHeader(message)
  {
    var header := PromptHeader(message);
    var tail := "\n" + contextText + "\n";
    assert "\n" + header + "\n" + contextText + "\n" == "\n" + header + tail;
    TemplateTrimStart(message, tail);
    TemplateTrimEnd(message, tail);
    TrimEndBlankSuffix("\n" + contextText, "\n");
    assert contextText == "" ==> "\n" + contextText == "\n" && TrimEnd("\n") == TrimEnd("");
    Trim("\n" + header + "\n" + contextText + "\n")
  }

  /** Role names as stored and as sent. */
  function RoleName(r: Role): string {
    match r
    case User => "user"
    case Assistant => "assistant"
    case System => "system"
    case Tool => "tool"
  }

  /** The role check of the history mapping: the four names, and nothing else. */
  function ParseRole(s: string): (r: Option<Role>)
    ensures r.Some? ==> RoleName(r.value) == s
    ensures r.None? <==> forall role: Role :: RoleName(role) != s
  {
    if s == "user" then Some(User)
    else if s == "assistant" then Some(Assistant)
    else if s == "system" then Some(System)
    else if s == "tool" then Some(Tool)
    else None
  }

  /** Every role survives the round trip through its stored name. */
  lemma ParseRoleName(r: Role)
    ensures ParseRole(RoleName(r)) == Some(r)
  {
  }

  /** `session.messages.slice(-10)`: the last ten messages, or all of them when there are fewer. */
  function Window(msgs: seq<ChatMessage>): (w: seq<ChatMessage>)
    ensures |w| == if |msgs| < HistoryWindow then |msgs| else HistoryWindow
    ensures w == msgs[|msgs| - |w|..]
  {
    if |msgs| <= HistoryWindow then msgs else msgs[|msgs| - HistoryWindow..]
  }

  /**
   * `.map(...)` with the role check: every message keeps its content and gets
   * its role; the first message whose role is not one of the four names makes
   * the whole mapping throw.
   */
  function ToPromptHistory(w: seq<ChatMessage>): (r: Result<seq<PromptMessage>, ChatError>)
    ensures r.Ok? <==> forall k :: 0 <= k < |w| ==> ParseRole(w[k].role).Some?
    ensures r.Ok? ==> |r.value| == |w| && forall k :: 0 <= k < |w| ==>
      RoleName(r.value[k].role) == w[k].role && r.value[k].content == w[k].content
    ensures r.Err? ==> exists k :: (0 <= k < |w| && r.error == InvalidMessageRole(w[k].role)
      && ParseRole(w[k].role).None? && forall j :: 0 <= j < k ==> ParseRole(w[j].role).Some?)
  {
    if w == [] then Ok([])
    else
      assert forall k :: 0 < k < |w| ==> w[k] == w[1..][k - 1];
      match ParseRole(w[0].role)
      case None => Err(InvalidMessageRole(w[0].role))
      case Some(role) =>
        var rest := ToPromptHistory(w[1..]);
        if rest.Err? then
          var k :| 0 <= k < |w[1..]| && rest.error == InvalidMessageRole(w[1..][k].role)
            && ParseRole(w[1..][k].role).None? && forall j :: 0 <= j < k ==> ParseRole(w[1..][j].role).Some?;
          assert forall j :: 0 <= j < k + 1 ==> ParseRole(w[j].role).Some? by {
            forall j | 0 < j < k + 1 ensures ParseRole(w[j].role).Some? {
              assert w[j] == w[1..][j - 1];
            }
          }
          Err(rest.error)
        else
          Ok([PromptMessage(role, w[0].content)] + rest.value)
  }

  /** `[systemPrompt, ...history, contextPrompt]`. */
  function AssemblePrompt(history: seq<PromptMessage>, contextContent: string): (p: seq<PromptMessage>)
    ensures |p| == |history| + 2
    ensures p[0] == PromptMessage(System, SystemPromptText) && p[|p| - 1] == PromptMessage(User, contextContent)
    ensures p[1..|p| - 1] == history
  {
    [PromptMessage(System, SystemPromptText)] + history + [PromptMessage(User, contextContent)]
  }

  /** What the turn computes before the completion call. */
  datatype Prepared = Prepared(relevantMemories: seq<Memory>, contextText: string, prompt: seq<PromptMessage>)

  /**
   * Steps 2 and 3 of the turn. `sessionMessages` are the session's messages as
   * loaded before the new user turn was saved, so the new message reaches the
   * prompt only through its final user turn.
   */
  function PreparePrompt(sessionMessages: seq<ChatMessage>, message: string, hits: seq<Hit>,
                         rows: seq<Memory>, user: UserId): (r: Result<Prepared, ChatError>)
    ensures r.Err? ==> ToPromptHistory(Window(sessionMessages)).Err? && r.error.InvalidMessageRole?
    ensures r.Ok? ==> r.value.contextText == ContextText(r.value.relevantMemories)
    ensures r.Ok? ==> forall m :: m in r.value.relevantMemories ==> m in rows && m.userId == user
    ensures r.Ok? ==> |r.value.prompt| == |Window(sessionMessages)| + 2
    ensures r.Ok? ==> r.value.prompt[0] == PromptMessage(System, SystemPromptText)
    ensures r.Ok? ==> r.value.prompt[|r.value.prompt| - 1] == PromptMessage(User, ContextPromptContent(message, r.value.contextText))
  {
    var relevant := RelevantMemories(hits, rows, user);
    var contextText := ContextText(relevant);
    match ToPromptHistory(Window(sessionMessages))
    case Err(e) => Err(e)
    case Ok(history) => Ok(Prepared(relevant, contextText, AssemblePrompt(history, ContextPromptContent(message, contextText))))
  }

  /**
   * The prompt of a turn: the fixed system instruction, then the last
   * `min(10, n)` stored messages in order with their roles and contents, then
   * one user turn holding the message and the context; it fails exactly when
   * one of those stored messages has a role outside the four names.
   */
  lemma PreparePromptShape(sessionMessages: seq<ChatMessage>, message: string, hits: seq<Hit>,
                           rows: seq<Memory>, user: UserId)
    ensures var r := PreparePrompt(sessionMessages, message, hits, rows, user);
      var w := Window(sessionMessages);
      && (r.Err? <==> exists k :: 0 <= k < |w| && ParseRole(w[k].role).None?)
      && (r.Ok? ==>
        var p := r.value.prompt;
        && |p| == |w| + 2
        && p[0] == PromptMessage(System, SystemPromptText)
        && (forall k :: 1 <= k < |p| - 1 ==> RoleName(p[k].role) == w[k - 1].role && p[k].content == w[k - 1].content)
        && p[|p| - 1] == PromptMessage(User, ContextPromptContent(message, ContextText(r.value.relevantMemories)))
        && r.value.relevantMemories == RelevantMemories(hits, rows, user))
  {
    var r := PreparePrompt(sessionMessages, message, hits, rows, user);
    var w := Window(sessionMessages);
    var h := ToPromptHistory(w);
    if h.Ok? {
      var p := r.value.prompt;
      assert p == [PromptMessage(System, SystemPromptText)] + h.value + [PromptMessage(User, ContextPromptContent(message, ContextText(r.value.relevantMemories)))];
      forall k | 1 <= k < |p| - 1 ensures RoleName(p[k].role) == w[k - 1].role && p[k].content == w[k - 1].content {
        assert p[k] == h.value[k - 1];
      }
    }
  }

  /**
   * A turn whose hits all fall below the floor still gets a prompt: the context
   * is empty, and the final user turn is the message under its headings.
   */
  lemma LowScoresGiveEmptyContext(sessionMessages: seq<ChatMessage>, message: string, hits: seq<Hit>,
                                  rows: seq<Memory>, user: UserId)
    requires forall h :: h in hits ==> !IsRelevant(h)
    requires forall k :: 0 <= k < |sessionMessages| ==> ParseRole(sessionMessages[k].role).Some?
    ensures var r := PreparePrompt(sessionMessages, message, hits, rows, user);
      && r.Ok? && r.value.relevantMemories == [] && r.value.contextText == ""
      && r.value.prompt[|r.value.prompt| - 1] == PromptMessage(User, PromptHeader(message))
  {
    var w := Window(sessionMessages);
    forall k | 0 <= k < |w| ensures ParseRole(w[k].role).Some? {
      assert w[k] == sessionMessages[|sessionMessages| - |w| + k];
    }
    var h := ToPromptHistory(w);
    assert h.Ok?;
    RelevantMemoriesComplete(hits, rows, user);
    assert RelevantMemories(hits, rows, user) == [];
    assert ContextText([]) == "";
  }

  // ----- Step 4: normalising the reply -----

  /** The `text` property of a content chunk: missing, a string, or some other value. */
  datatype ChunkText = NoText | StringText(text: string) | NonStringText

  datatype Chunk = Chunk(kind: string, text: ChunkText)

  /** The shapes `message.content` can take: a string, a list of chunks, or anything else (including null and undefined). */
  datatype Content = StringContent(s: string) | ChunkContent(chunks: seq<Chunk>) | OtherContent

  datatype AssistantMessage = AssistantMessage(content: Content)
  datatype Choice = Choice(message: Option<AssistantMessage>)

  /** The completion response, as far as the turn reads it. */
  datatype Completion = Completion(choices: Option<seq<Choice>>)

  /** `aiResponse.choices?.[0]?.message?.content`: a missing link anywhere gives `undefined`. */
  function RawReply(c: Completion): (r: Content)
    ensures c.choices.None? || c.choices.value == [] || c.choices.value[0].message.None? ==> r == OtherContent
    ensures c.choices.Some? && c.choices.value != [] && c.choices.value[0].message.Some? ==>
      r == c.choices.value[0].message.value.content
  {
    if c.choices.None? || c.choices.value == [] || c.choices.value[0].message.None? then OtherContent
    else c.choices.value[0].message.value.content
  }

  /** `.filter((chunk) => "text" in chunk && typeof chunk.text === "string").map((chunk) => chunk.text)`. */
  function ChunkTexts(chunks: seq<Chunk>): (texts: seq<string>)
    ensures |texts| <= |chunks|
    ensures forall t :: t in texts <==> exists k :: 0 <= k < |chunks| && chunks[k].text == StringText(t)
  {
    if chunks == [] then []
    else (if chunks[0].text.StringText? then [chunks[0].text.text] else []) + ChunkTexts(chunks[1..])
  }

  lemma {:induction false} ChunkTextsConcat(a: seq<Chunk>, b: seq<Chunk>)
    ensures ChunkTexts(a + b) == ChunkTexts(a) + ChunkTexts(b)
  {
    if a == [] {
      assert a + b == b;
    } else {
      var head := if a[0].text.StringText? then [a[0].text.text] else [];
      assert (a + b)[0] == a[0] && (a + b)[1..] == a[1..] + b;
      assert ChunkTexts(a + b) == head + ChunkTexts(a[1..] + b);
      ChunkTextsConcat(a[1..], b);
      assert ChunkTexts(a) == head + ChunkTexts(a[1..]);
    }
  }

  /** The ternary that turns the reply content into the text that is stored and returned. */
  function NormaliseReply(c: Content): (r: string)
    ensures c.StringContent? ==> r == c.s
    ensures c.OtherContent? ==> r == FallbackReply
  {
    match c
    case StringContent(s) => s
    case ChunkContent(chunks) => Join(ChunkTexts(chunks), "")
    case OtherContent => FallbackReply
  }

  /**
   * A chunk list turns into the in-order concatenation of its string texts:
   * the reply of a list split in two is the two replies concatenated, a chunk
   * with a string `text` contributes exactly that text, and any other chunk
   * contributes nothing.
   */
  lemma NormaliseChunks(a: seq<Chunk>, b: seq<Chunk>, ch: Chunk)
    ensures NormaliseReply(ChunkContent(a + b)) == NormaliseReply(ChunkContent(a)) + NormaliseReply(ChunkContent(b))
    ensures NormaliseReply(ChunkContent([ch])) == if ch.text.StringText? then ch.text.text else ""
  {
    ChunkTextsConcat(a, b);
    ConcatAppend(ChunkTexts(a), ChunkTexts(b));
    assert [ch][1..] == [];
  }

  /** Four reply shapes: `"hello"`, the chunks `"a"` and `"b"`, an empty string, and a completion without choices. */
  lemma NormaliseExamples()
    ensures NormaliseReply(StringContent("hello")) == "hello"
    ensures NormaliseReply(StringContent("")) == ""
    ensures NormaliseReply(ChunkContent([Chunk("text", StringText("a")), Chunk("text", StringText("b"))])) == "ab"
    ensures NormaliseReply(RawReply(Completion(None))) == FallbackReply
  {
    var a, b := Chunk("text", StringText("a")), Chunk("text", StringText("b"));
    NormaliseChunks([a], [b], a);
    NormaliseChunks([], [b], b);
    assert [a] + [b] == [a, b];
  }
}
