# second-brain-server: a Dafny model of its chat, tag and memory routes

second-brain-server is a note-taking backend. Users store "memories": a title,
free text, tags, an optional URL and a favourite flag. They can list those
memories by tag. They can also chat with a language model that is given the
memories relevant to each message as context. Most of the code forwards
requests to a database, to a hosted vector index and to a hosted completion
model. This project models the deterministic logic between those calls and
proves properties of that model:

- **The chat turn** (`POST /chats/:sessionId`). The model keeps the vector
  hits whose score is at least 0.2. It joins those hits to the caller's own
  memory rows, in hit order. It renders the memories as `- title: content`
  lines. It takes the last ten stored messages of the session and checks
  each one's role. It assembles the prompt `[system] ++ history ++
  [context]` and normalises the model's polymorphic reply into text
  (module `ChatPipeline`).
- **The chat session store.** A class holds the session table and the
  message table. Its methods cover creating a session, running a turn (the
  user message is saved first, the assistant reply after), listing a
  session's messages, editing a message, deleting a session with its
  messages, and listing the caller's sessions with each one's latest
  message (module `ChatStore`).
- **The tag routes.** `GET /tags/me/all` returns the caller's tags,
  deduplicated in first-occurrence order. `GET /tags/search?q=` parses a
  comma-separated tag list, has two distinct 400 errors, and keeps the
  memories that carry any of the parsed tags (module `Tags`).
- **The memory routes.** A class over the memory table implements create,
  list, get, `PUT` and `DELETE` (module `Memories`). Create appends a row
  with defaults. List keeps the caller's rows, newest first. Get looks up
  the row matching the pair (id, owner) and is a 404 when there is none.
  `PUT` and `DELETE` act on every row matching (id, owner) and turn an
  affected-row count of 0 into a 404.

Supporting modules:
- `Wrappers` holds `Option` and `Result`.
- `Seqs` holds `filter`, the order a `Set` gives, the reversal that
  realises `orderBy: { createdAt: "desc" }` on a table kept in insertion
  order, and subsequence facts.
- `Strings` holds JavaScript's `trim`, `split` on one character, and `join`.

External services become inputs:
- The vector search result is a `seq<Hit>` of ids with optional real
  scores.
- The memory table the chat turn reads is a `seq<Memory>`.
- The completion call is a function parameter `complete(model, prompt)`
  that returns a `Completion`.
- Database ids are natural numbers from a counter in each store.
- Timestamps are readings of a logical clock in each store. The memory
  store's clock advances on every insert and on `PUT`. The chat store's
  clock advances on every session or message insert. Editing a message and
  deleting rows leave the clock where it is. Ordering by `createdAt` is
  therefore table order.

On these points the model follows the live code:
- Memories have no `PATCH` route. `PUT` re-applies the defaults
  `tags || []` and `isFavorite ?? false`. It does not keep omitted tags.
- The ORM ignores a field whose value is `undefined`. So a `PUT` body that
  leaves out `url` or `metadata` keeps the stored value, and a `PATCH`
  message body without `content` leaves the content unchanged.
- The live memory routes make no vector upsert or delete calls, so the
  vector index is not part of the memory model.
- The chat history window is 10 messages.
- A chunk contributes to the reply when its `text` is a string. Its `type`
  is never looked at.
- An empty string reply is kept as it is. It is not replaced by the
  fallback text.
- A stored role outside the four names throws after the user turn has
  been saved. The user turn stays stored and no assistant turn is added.

## Model

| member | source | states |
|---|---|---|
| ChatPipeline.ErrorMessage | src/routes/chat/index.ts:146-326 | The texts of the chat failures: "Session not found" (line 146), the exception text for an invalid role (line 231), "Message not found or unauthorized" (line 305) and "Session not found or unauthorized" (line 326). A text is non-empty, starts with "Invalid message role: " exactly for the role failure, and then ends with the role. |
| ChatPipeline.ErrorMessageInjective | src/routes/chat/index.ts:146-326 | Distinct failures give distinct texts, so two role failures with the same text name the same role. |
| ChatPipeline.FilterHits | src/routes/chat/index.ts:172-174 | Keeps exactly the hits that have a score of at least 0.2, in their original order. The result is never longer than the input. |
| ChatPipeline.FilterHitsConcat | src/routes/chat/index.ts:172-174 | The floor is applied hit by hit: filtering a ranking split in two gives the two filtered parts concatenated. |
| ChatPipeline.HitIds | src/routes/chat/index.ts:176 | One id per hit, the hit's own id at the same position. |
| ChatPipeline.OwnedRecords | src/routes/chat/index.ts:178-183 | The rows fetched are exactly the caller's rows whose id is among the relevant hit ids. |
| ChatPipeline.MapGet | src/routes/chat/index.ts:185 | A map lookup by id returns a record with that id. It finds nothing exactly when no record has the id. |
| ChatPipeline.Hydrate | src/routes/chat/index.ts:187-189 | Gives at most one record per hit, each one fetched, with their ids a subsequence of the hit ids (hit order). |
| ChatPipeline.HydrateKeepsFoundHits | src/routes/chat/index.ts:187-189 | Every hit whose id has a record contributes that id. Hits with no record are dropped without error, and no records at all give an empty result. |
| ChatPipeline.HydrateIds | src/routes/chat/index.ts:187-189 | The ids of the hydrated records are exactly the ids of the hits that have a record. There is one per such hit, in hit order, so a repeated hit id yields its record once per occurrence. |
| ChatPipeline.RelevantMemories | src/routes/chat/index.ts:172-189 | Every returned memory belongs to the caller, is a stored row, and has a relevant hit behind it. Their ids follow the order of the filtered hits. |
| ChatPipeline.RelevantMemoriesComplete | src/routes/chat/index.ts:172-189 | Every relevant hit whose id has an owned row yields that memory. When every hit is below the floor, the result is empty. |
| ChatPipeline.DisplayTitle | src/routes/chat/index.ts:192 | A missing or empty title shows as "Untitled". Any other title is kept, and the result is never empty. |
| ChatPipeline.ContextLine | src/routes/chat/index.ts:192 | A memory's line starts with "- ", the displayed title and ": ", and ends with the memory's content. |
| ChatPipeline.ContextText | src/routes/chat/index.ts:191-193 | The context text is empty exactly when there are no memories. Otherwise it starts with the first memory's `- title: content` line. |
| ChatPipeline.ContextTextLines | src/routes/chat/index.ts:191-193 | No memories give the empty text. Otherwise, for memories without line breaks, splitting the text on "\n" gives exactly one `- {title}: {content}` line per memory, in order. |
| ChatPipeline.TemplateTrimStart | src/routes/chat/index.ts:203-212 | Trimming the start of the context template removes only its leading line break. |
| ChatPipeline.TemplateTrimEnd | src/routes/chat/index.ts:203-212 | Trimming the end of the context template never reaches past the memories heading. |
| ChatPipeline.ContextPromptContent | src/routes/chat/index.ts:203-212 | The final user turn is the message kept verbatim under its heading, then the memories heading and the context text without trailing whitespace. An empty context leaves just the headers. |
| ChatPipeline.ParseRole | src/routes/chat/index.ts:215-221 | Accepts exactly the four names user, assistant, system and tool, each mapping back to its own name. Every other string is rejected. |
| ChatPipeline.ParseRoleName | src/routes/chat/index.ts:215-221 | Every role survives the round trip through its stored name. |
| ChatPipeline.Window | src/routes/chat/index.ts:214 | `slice(-10)` keeps the last min(10, n) messages, in order. |
| ChatPipeline.ToPromptHistory | src/routes/chat/index.ts:214-232 | Succeeds exactly when every role is one of the four names, keeping each message's role and content. Otherwise it fails with the first invalid role; a role is never coerced. |
| ChatPipeline.AssemblePrompt | src/routes/chat/index.ts:234-239 | The prompt is the system turn with the fixed system text, then the history unchanged, then the user turn with the context content. Its length is the history's plus 2. |
| ChatPipeline.PreparePrompt | src/routes/chat/index.ts:172-239 | Fails only when the history window has an invalid stored role, and then with InvalidMessageRole. On success the memories used are the caller's stored rows, the context text is rendered from them, and the prompt is the system turn, the window, and the user turn with the message and that context. |
| ChatPipeline.PreparePromptShape | src/routes/chat/index.ts:140-143 | The prompt is the fixed system text, then the last min(10, n) messages loaded before the new turn was saved, then one user turn with the message and the context. It fails exactly when one of those messages has an invalid role. |
| ChatPipeline.LowScoresGiveEmptyContext | src/routes/chat/index.ts:172-212 | When every hit is below the floor and every role is valid, the turn still gets a prompt. It has no memories and an empty context, and the final turn is the message under its headings. |
| ChatPipeline.RawReply | src/routes/chat/index.ts:247 | A missing `choices`, an empty one, or a first choice without `message` gives content that is neither a string nor a list. Otherwise the result is the first choice's content. |
| ChatPipeline.NormaliseReply | src/routes/chat/index.ts:247-256 | A string reply is returned unchanged, including "". Any content that is neither a string nor a chunk list becomes "I don't know how to respond.". |
| ChatPipeline.ChunkTexts | src/routes/chat/index.ts:253-254 | A text is selected exactly when some chunk has it as a string `text`, and there are never more texts than chunks. |
| ChatPipeline.NormaliseChunks | src/routes/chat/index.ts:251-255 | A chunk list becomes the in-order concatenation of its string texts. A chunk with a string `text` contributes exactly that text; any other chunk contributes nothing. |
| ChatPipeline.ChunkTextsConcat | src/routes/chat/index.ts:253-254 | Selecting the string texts distributes over concatenating chunk lists. |
| ChatPipeline.NormaliseExamples | src/routes/chat/index.ts:247-256 | "hello" stays "hello", "" stays "", the chunks "a" and "b" give "ab", and a completion without choices gives the fallback text. |
| ChatStore.SessionTitle | src/routes/chat/index.ts:15 | A missing or empty title becomes "New Chat". Any other title is kept, and the result is never empty. |
| ChatStore.FindSession | src/routes/chat/index.ts:140-143 | Returns a stored session with that id owned by the caller. It finds nothing exactly when the caller owns no such session. |
| ChatStore.SessionMessages | src/routes/chat/index.ts:142 | Exactly the messages of that session, in table order. |
| ChatStore.FindOwnedMessage | src/routes/chat/index.ts:297-302 | Returns a stored message with that id whose session the caller owns. It finds nothing exactly when no such message exists. |
| ChatStore.SetContent | src/routes/chat/index.ts:308-311 | The message with that id gets the new content, or keeps its content when none was sent. Every other message is unchanged. |
| ChatStore.WithoutSession | src/routes/chat/index.ts:329 | Exactly the messages of every other session remain, in order. |
| ChatStore.RemoveSession | src/routes/chat/index.ts:330 | Exactly the sessions with another id remain, in order. |
| ChatStore.OwnedSessions | src/routes/chat/index.ts:338-340 | Exactly the caller's sessions, newest first. |
| ChatStore.LatestMessage | src/routes/chat/index.ts:341-346 | At most one message, taken from the session's messages, and empty only when the session has none. |
| ChatStore.LatestIsNewest | src/routes/chat/index.ts:343-344 | The message picked is the newest of its session. |
| ChatStore.TurnsJoinOnlyTheirSession | src/routes/chat/index.ts:150-156 | Turns saved for one session join the end of that session's history and leave every other session's history unchanged. |
| ChatStore.WithoutSessionHistories | src/routes/chat/index.ts:329 | Deleting a session's messages empties that session's history and leaves every other session's history unchanged. |
| ChatStore.WindowEndsWithLatest | src/routes/chat/index.ts:214 | The turns just saved are the newest entries of the next turn's history window. |
| ChatStore.SetContentConsistent | src/routes/chat/index.ts:308-311 | Editing a message's content keeps the store invariant: tables in insertion order, ids and times below their counters, no message without its session. |
| ChatStore.DeleteSessionConsistent | src/routes/chat/index.ts:329-330 | Deleting the messages and then the session keeps the store invariant, so no message is left without its session. |
| ChatStore.ChatStore.constructor | src/routes/chat/index.ts:1 | The store starts with no sessions and no messages. The empty tables have no source line of their own; the line cited is the import of the database client that holds them. |
| ChatStore.ChatStore.CreateSession | src/routes/chat/index.ts:12-17 | Appends a session owned by the caller, titled `title` or "New Chat", with a new id. No message changes. |
| ChatStore.ChatStore.AddMessage | src/routes/chat/index.ts:150-156 | Appends one message with a new id and the next timestamp to an existing session. No session changes. |
| ChatStore.ChatStore.SendMessage | src/routes/chat/index.ts:135-273 | For a session the caller does not own: SessionNotFound and no change. Otherwise it appends exactly one user turn, and builds the prompt from the history as it was before that turn. An invalid stored role then fails with only the user turn saved. Else exactly one assistant turn with the normalised reply follows, and the reply and the memories used are returned. |
| ChatStore.ChatStore.SaveTurn | src/routes/chat/index.ts:150-265 | Appends exactly one user turn. A failed prompt then returns its error with only that turn saved. A prepared prompt appends exactly one assistant turn holding the normalised reply of `complete` on that prompt, and returns the reply with the memories used. |
| ChatStore.ChatStore.ListMessages | src/routes/chat/index.ts:280-286 | Exactly the messages of that session when the caller owns it, none otherwise, oldest first. |
| ChatStore.ChatStore.EditMessage | src/routes/chat/index.ts:297-313 | A message not reachable through a session the caller owns gives MessageNotFound and no change. Otherwise its content is replaced, every other message is unchanged, and the stored updated message is returned. |
| ChatStore.ChatStore.DeleteSession | src/routes/chat/index.ts:321-332 | A session the caller does not own gives SessionNotFoundOrUnauthorized and no change. Otherwise exactly that session's messages and the session itself are removed, and nothing else. |
| ChatStore.ChatStore.ListSessions | src/routes/chat/index.ts:338-349 | Exactly the caller's sessions, newest first, each with its latest message, which is newer than or as new as all its others. |
| Tags.ErrorMessage | src/routes/tag/index.ts:37-43 | The `message` of each 400 response: "Query parameter 'q' is required." and "No valid tags provided.", never empty. |
| Tags.ErrorMessagesDistinct | src/routes/tag/index.ts:37-43 | The two 400 responses carry different texts. |
| Tags.OwnedTags | src/routes/tag/index.ts:9-20 | A tag is in the flattened list exactly when some memory of the caller carries it. |
| Tags.AllTags | src/routes/tag/index.ts:9-27 | The tags have no duplicates, a tag is listed exactly when some memory of the caller carries it, and `count` is the number of tags. |
| Tags.AllTagsFirstOccurrenceOrder | src/routes/tag/index.ts:19-21 | The tags appear in the order of their first occurrence in the caller's memories. |
| Tags.TrimAll | src/routes/tag/index.ts:40 | `map((tag) => tag.trim())`: one trimmed piece per piece, empty exactly when the piece was blank, and clean (non-empty, no surrounding whitespace) otherwise. |
| Tags.ParseTags | src/routes/tag/index.ts:40 | No parsed tag is empty or has leading or trailing whitespace, and there is at most one more tag than `q` has commas. |
| Tags.ParseTagsEmpty | src/routes/tag/index.ts:40-44 | Parsing yields no tag exactly when `q` holds nothing but commas and whitespace. |
| Tags.SplitAllBlank | src/routes/tag/index.ts:40 | Every piece of the split is blank exactly when `q` holds nothing but commas and whitespace. |
| Tags.HasSome | src/routes/tag/index.ts:50 | `hasSome`: a memory's tags contain at least one of the listed tags. Both lists are then non-empty. |
| Tags.SearchByTags | src/routes/tag/index.ts:32-60 | A missing or blank `q` gives "Query parameter 'q' is required.". Otherwise a `q` holding only commas and whitespace gives "No valid tags provided.". Otherwise the results are exactly the caller's memories sharing a tag with the parsed list, and `count` is their number. The model lists them in table order, since the query has no `orderBy`. |
| Tags.OnlyCommasIsNoValidTags | src/routes/tag/index.ts:36-44 | `q = ",,"` passes the first check and fails the second. |
| Memories.NewRow | src/routes/memories/index.ts:130-140 | The new row is owned by the caller and carries the body's title, content, url and metadata. Its tags are the body's or [], and its favourite flag is the body's or false. |
| Memories.Overwrite | src/routes/memories/index.ts:179-189 | Title and content are replaced, tags become the body's or [], and the favourite flag the body's or false. The url and metadata are replaced only when sent. Id, owner and creation time stay the same. |
| Memories.FindOwned | src/routes/memories/index.ts:162-169 | Returns a stored row matching both id and owner. It finds nothing exactly when no row matches both, so another user's row is not found. |
| Memories.CountMatching | src/routes/memories/index.ts:191 | The count is 0 exactly when no row matches (id, caller). |
| Memories.UpdateMatching | src/routes/memories/index.ts:179-189 | Every row matching (id, caller) is overwritten, and every other row is unchanged. |
| Memories.DeleteMatching | src/routes/memories/index.ts:201-203 | Exactly the rows matching (id, caller) disappear, and the others keep their order. |
| Memories.ListOwned | src/routes/memories/index.ts:149-152 | Exactly the caller's memories, with creation times strictly decreasing. |
| Memories.FindOwnedAppend | src/routes/memories/index.ts:130-140 | Appending a row changes no lookup that already found something, and finds the new row by its own id and owner. |
| Memories.GetAfterCreate | src/routes/memories/index.ts:130-170 | A memory just created is what get returns to its owner, and it is not found for any other user. |
| Memories.PutThenGet | src/routes/memories/index.ts:179-193 | After `PUT`, get returns the overwritten row, with tags and favourite flag from the body or the defaults, whatever the row held before. |
| Memories.UpdateNoMatchUnchanged | src/routes/memories/index.ts:179-191 | A `PUT` that matches no row changes no row. |
| Memories.DeleteNoMatchUnchanged | src/routes/memories/index.ts:201-205 | A `DELETE` that matches no row removes no row. |
| Memories.DeleteIsFilter | src/routes/memories/index.ts:201-203 | `deleteMany` is the filter that keeps the rows that do not match. |
| Memories.UpdateKeepsTableValid | src/routes/memories/index.ts:179-189 | An update stamped with the current clock keeps the table invariant. |
| Memories.MemoryStore.constructor | src/routes/memories/index.ts:123 | The table starts empty. The empty table has no source line of its own; the line cited declares the route group that works on it. |
| Memories.MemoryStore.Create | src/routes/memories/index.ts:126-143 | Appends the new row with its defaults and a new id, and returns it. |
| Memories.MemoryStore.List | src/routes/memories/index.ts:146-155 | Exactly the caller's memories, newest first. |
| Memories.MemoryStore.Get | src/routes/memories/index.ts:158-171 | The row with that id when the caller owns it, otherwise not found. |
| Memories.MemoryStore.Put | src/routes/memories/index.ts:174-194 | Not found exactly when no row matches (id, caller), and then the table is unchanged. Otherwise the matching row is overwritten. |
| Memories.MemoryStore.Delete | src/routes/memories/index.ts:197-208 | Not found exactly when no row matches (id, caller), and then the table is unchanged. Otherwise exactly the matching row is removed. |
| Seqs.Filter | src/routes/tag/index.ts:40 | `Array.prototype.filter`: the elements satisfying the test, as a subsequence of the input. |
| Seqs.FilterConcat | src/routes/chat/index.ts:172-174 | Filtering distributes over concatenation. |
| Seqs.FilterIncreasing | src/routes/memories/index.ts:149-152 | Filtering keeps a strictly increasing key strictly increasing. |
| Seqs.ReverseDecreasing | src/routes/memories/index.ts:151 | Reversing turns a strictly increasing key into a strictly decreasing one. |
| Seqs.Dedupe | src/routes/tag/index.ts:19-21 | `Array.from(new Set(xs))` has no duplicates, the same elements as `xs`, and is no longer than `xs`. |
| Seqs.DedupeFirstOccurrenceOrder | src/routes/tag/index.ts:19-21 | Deduplicated elements appear in the order of their first occurrence. |
| Seqs.DedupeOfDistinct | src/routes/tag/index.ts:19-21 | A sequence without duplicates is its own deduplication. |
| Seqs.DedupeIdempotent | src/routes/tag/index.ts:19-21 | Deduplicating twice is deduplicating once. |
| Strings.Trim | src/routes/tag/index.ts:36 | `String.prototype.trim` is empty exactly when the string is blank. Otherwise it starts and ends with a non-whitespace character. |
| Strings.TrimIdempotent | src/routes/tag/index.ts:40 | Trimming a trimmed string changes nothing. |
| Strings.Split | src/routes/tag/index.ts:40 | `split(",")` gives one more piece than there are commas, and no piece contains a comma. |
| Strings.JoinSplit | src/routes/tag/index.ts:40 | Rejoining the pieces with the separator gives back the original string. |
| Strings.Join | src/routes/chat/index.ts:193 | `join(sep)`, used with "\n" here and with "" at line 255. No elements give "", one element gives itself, and otherwise the result starts with the first element. |
| Strings.SplitJoin | src/routes/chat/index.ts:191-193 | Splitting a join whose elements do not contain the separator gives back the elements. |
| Strings.ConcatAppend | src/routes/chat/index.ts:255 | `join("")` distributes over concatenating the lists. |

## Left out

- Vector search and reranking (`searchRecords` with topK 20 and topN 5 in the user's namespace): a hosted service. Its ranked hits are an input.
- The completion call: a hosted service, modelled as the parameter `complete`. That it is called with `mistral-large-latest` and the assembled prompt is stated; what it answers is not.
- Failures of the database, the vector index or the completion service, which surface as 500s: not modelled. Only the invalid-role exception is.
- Scores are `real` with the floor 0.2. Floating-point rounding is not modelled.
- The request schema of the memory routes and JSON parsing: bodies arrive already validated, with `title` and `content` present. Non-string values where strings are expected, such as a numeric chat title, are not modelled. `metadata` is an opaque string.
- Database-generated string ids and timestamps: ids are natural numbers from a counter, and times are a logical clock that advances on inserts and on `PUT`.
- Three queries have no `orderBy`, and the model returns their rows in table order: `include: { messages: true }` for the session history (src/routes/chat/index.ts:140-143), the tag query of `/me/all` (src/routes/tag/index.ts:9-16), which fixes the first-occurrence order of the tags, and the `/search` query (src/routes/tag/index.ts:46-53), which fixes the order of the results. The database may return any order.
- Authentication, the session middleware, CORS, routing, server start-up and the profile route: plumbing outside the model. The caller's user id is a parameter.
- The retrieval-only chat route, the keyword search route and the single-memory route: not part of this model. The last duplicates `Memories.MemoryStore.Get`.
- The commented-out earlier versions of the chat turn and the memory routes, which are not live code.
- A content chunk that is not an object, such as null or a bare string, would make `"text" in chunk` throw (src/routes/chat/index.ts:253). The model's `Chunk` always has a `text` field that may be missing, so it cannot express such a chunk; the completion client's types rule it out.
- Concurrent requests and their interleaving: each operation is one atomic step on the store.
- ChatStore.ChatStore.SendMessage: the two tables are separate stores. The memory table the turn reads is a snapshot passed in, not a `Memories.MemoryStore` shared with the memory routes.
- ChatPipeline.ContextTextLines: the one-line-per-memory reading is proved only for titles and contents without line breaks, since a line break inside a memory makes more lines.
