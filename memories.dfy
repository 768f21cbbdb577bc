/**
 * The live memory routes (POST /, GET /, GET /:id, PUT /:id, DELETE /:id) as
 * operations on the memory table. Every lookup, update and delete filters on
 * the pair (id, owner), so a row of another user behaves exactly like a
 * missing row.
 */
module Memories {
  import opened Wrappers
  import opened Seqs

  type UserId = string
  type MemoryId = nat

  /**
   * A row of the memory table. `title` may be null in the table; `metadata`
   * stands for an opaque JSON value. `createdAt` and `updatedAt` are readings
   * of the store's logical clock.
   */
  datatype Memory = Memory(
    id: MemoryId,
    userId: UserId,
    title: Option<string>,
    content: string,
    tags: seq<string>,
    url: Option<string>,
    metadata: Option<string>,
    isFavorite: bool,
    createdAt: nat,
    updatedAt: nat)

  /**
   * The JSON body of POST / and PUT /:id once it has passed the request
   * schema: `title` and `content` are present; `None` is a field the client
   * left out.
   */
  datatype MemoryBody = MemoryBody(
    title: string,
    content: string,
    tags: Option<seq<string>>,
    url: Option<string>,
    metadata: Option<string>,
    isFavorite: Option<bool>)

  /** The outcome of PUT and DELETE: `{ success: true }`, or a 404. */
  datatype Status = Done | NotFound

  function CreatedAt(m: Memory): int { m.createdAt }
  function IdOf(m: Memory): int { m.id }

  /** The `where: { id, userId }` filter of the single-row handlers. */
  predicate Matches(m: Memory, id: MemoryId, user: UserId) {
    m.id == id && m.userId == user
  }

  /** The row that create inserts: the caller as owner and the two defaults `tags || []` and `isFavorite ?? false`. */
  function NewRow(id: MemoryId, user: UserId, body: MemoryBody, now: nat): (m: Memory)
    ensures m.userId == user && m.id == id && m.content == body.content && m.title == Some(body.title)
    ensures m.tags == (if body.tags.Some? then body.tags.value else [])
    ensures m.isFavorite <==> body.isFavorite == Some(true)
    ensures m.url == body.url && m.metadata == body.metadata
  {
    Memory(id, user, Some(body.title), body.content, body.tags.GetOr([]), body.url,
           body.metadata, body.isFavorite.GetOr(false), now, now)
  }

  /**
   * What `updateMany` does to one matching row. The fields written with a
   * default (`tags`, `isFavorite`) and the required ones (`title`, `content`)
   * are always replaced; `url` and `metadata` are passed through from the body,
   * and the ORM leaves a field whose value is `undefined` untouched.
   */
  function Overwrite(m: Memory, body: MemoryBody, now: nat): (r: Memory)
    ensures r.id == m.id && r.userId == m.userId && r.createdAt == m.createdAt && r.updatedAt == now
    ensures r.content == body.content && r.title == Some(body.title)
    ensures r.tags == (if body.tags.Some? then body.tags.value else [])
    ensures r.isFavorite <==> body.isFavorite == Some(true)
    ensures r.url == (if body.url.Some? then body.url else m.url)
    ensures r.metadata == (if body.metadata.Some? then body.metadata else m.metadata)
  {
    m.(title := Some(body.title), content := body.content, tags := body.tags.GetOr([]),
       url := if body.url.Some? then body.url else m.url,
       metadata := if body.metadata.Some? then body.metadata else m.metadata,
       isFavorite := body.isFavorite.GetOr(false), updatedAt := now)
  }

  /** `findFirst({ where: { id, userId } })`. */
  function FindOwned(rows: seq<Memory>, id: MemoryId, user: UserId): (r: Option<Memory>)
    ensures r.Some? ==> r.value in rows && Matches(r.value, id, user)
    ensures r.None? <==> forall m :: m in rows ==> !Matches(m, id, user)
  {
    if rows == [] then None
    else if Matches(rows[0], id, user) then Some(rows[0])
    else FindOwned(rows[1..], id, user)
  }

  /** The `count` that `updateMany` and `deleteMany` report for the filter (id, owner). */
  function CountMatching(rows: seq<Memory>, id: MemoryId, user: UserId): (n: nat)
    ensures n <= |rows|
    ensures n == 0 <==> FindOwned(rows, id, user).None?
  {
    if rows == [] then 0
    else (if Matches(rows[0], id, user) then 1 else 0) + CountMatching(rows[1..], id, user)
  }

  /** `updateMany({ where: { id, userId }, data })`: every matching row overwritten, every other row untouched. */
  function UpdateMatching(rows: seq<Memory>, id: MemoryId, user: UserId, body: MemoryBody, now: nat): (r: seq<Memory>)
    ensures |r| == |rows|
    ensures forall k :: 0 <= k < |rows| && !Matches(rows[k], id, user) ==> r[k] == rows[k]
    ensures forall k :: 0 <= k < |rows| && Matches(rows[k], id, user) ==> r[k] == Overwrite(rows[k], body, now)
  {
    if rows == [] then []
    else
      [if Matches(rows[0], id, user) then Overwrite(rows[0], body, now) else rows[0]]
      + UpdateMatching(rows[1..], id, user, body, now)
  }

  /** `deleteMany({ where: { id, userId } })`: exactly the matching rows disappear. */
  function DeleteMatching(rows: seq<Memory>, id: MemoryId, user: UserId): (r: seq<Memory>)
    ensures forall m :: m in r <==> m in rows && !Matches(m, id, user)
    ensures |r| == |rows| - CountMatching(rows, id, user)
    ensures IsSubsequence(r, rows)
  {
    if rows == [] then []
    else
      assert rows == [rows[0]] + rows[1..];
      if Matches(rows[0], id, user) then DeleteMatching(rows[1..], id, user)
      else [rows[0]] + DeleteMatching(rows[1..], id, user)
  }

  /** `findMany({ where: { userId }, orderBy: { createdAt: "desc" } })`, for a table kept in insertion order. */
  function ListOwned(rows: seq<Memory>, user: UserId): (r: seq<Memory>)
    requires StrictlyIncreasing(rows, CreatedAt)
    ensures forall m :: m in r <==> m in rows && m.userId == user
    ensures StrictlyDecreasing(r, CreatedAt)
  {
    var owned := Filter(rows, (m: Memory) => m.userId == user);
    FilterIncreasing(rows, (m: Memory) => m.userId == user, CreatedAt);
    ReverseDecreasing(owned, CreatedAt);
    Reverse(owned)
  }

  /** Appending a row whose id is new does not change what a lookup of another id finds, and finds the new row by its own id and owner. */
  lemma {:induction false} FindOwnedAppend(rows: seq<Memory>, m: Memory, id: MemoryId, user: UserId)
    ensures FindOwned(rows + [m], id, user) ==
      if FindOwned(rows, id, user).Some? then FindOwned(rows, id, user)
      else if Matches(m, id, user) then Some(m) else None
  {
    if rows == [] {
      assert rows + [m] == [m];
    } else {
      assert (rows + [m])[0] == rows[0] && (rows + [m])[1..] == rows[1..] + [m];
      FindOwnedAppend(rows[1..], m, id, user);
    }
  }

  /** Round trip: a memory just created is what GET /:id returns to its owner, with its defaults applied, and nothing to anybody else. */
  lemma GetAfterCreate(rows: seq<Memory>, id: MemoryId, user: UserId, other: UserId, body: MemoryBody, now: nat)
    requires forall m :: m in rows ==> m.id != id
    requires other != user
    ensures FindOwned(rows + [NewRow(id, user, body, now)], id, user) == Some(NewRow(id, user, body, now))
    ensures FindOwned(rows + [NewRow(id, user, body, now)], id, other).None?
  {
    FindOwnedAppend(rows, NewRow(id, user, body, now), id, user);
    FindOwnedAppend(rows, NewRow(id, user, body, now), id, other);
  }

  /** PUT on an (id, owner) pair that matches no row changes no row. */
  lemma {:induction false} UpdateNoMatchUnchanged(rows: seq<Memory>, id: MemoryId, user: UserId, body: MemoryBody, now: nat)
    requires CountMatching(rows, id, user) == 0
    ensures UpdateMatching(rows, id, user, body, now) == rows
  {
  }

  /** DELETE on an (id, owner) pair that matches no row removes no row. */
  lemma {:induction false} DeleteNoMatchUnchanged(rows: seq<Memory>, id: MemoryId, user: UserId)
    requires CountMatching(rows, id, user) == 0
    ensures DeleteMatching(rows, id, user) == rows
  {
    if rows != [] {
      DeleteNoMatchUnchanged(rows[1..], id, user);
    }
  }

  /**
   * PUT is a full overwrite: after it the owner's row carries the body's
   * title and content, the body's tags or `[]`, and the body's favourite flag
   * or `false`, whatever the row held before.
   */
  lemma PutThenGet(rows: seq<Memory>, id: MemoryId, user: UserId, body: MemoryBody, now: nat)
    requires StrictlyIncreasing(rows, IdOf)
    requires FindOwned(rows, id, user).Some?
    ensures var r := FindOwned(UpdateMatching(rows, id, user, body, now), id, user);
      && r == Some(Overwrite(FindOwned(rows, id, user).value, body, now))
      && r.value.tags == (if body.tags.Some? then body.tags.value else [])
      && (r.value.isFavorite <==> body.isFavorite == Some(true))
  {
    var old_ := FindOwned(rows, id, user).value;
    var k :| 0 <= k < |rows| && rows[k] == old_;
    var updated := UpdateMatching(rows, id, user, body, now);
    forall j | 0 <= j < |rows| && j != k ensures !Matches(updated[j], id, user) {
      assert rows[j].id != rows[k].id by {
        if j < k { assert IdOf(rows[j]) < IdOf(rows[k]); } else { assert IdOf(rows[k]) < IdOf(rows[j]); }
      }
    }
    FindOwnedAt(updated, k, id, user);
  }

  /** Lookup finds the only matching row. */
  lemma {:induction false} FindOwnedAt(rows: seq<Memory>, k: nat, id: MemoryId, user: UserId)
    requires k < |rows| && Matches(rows[k], id, user)
    requires forall j :: 0 <= j < |rows| && j != k ==> !Matches(rows[j], id, user)
    ensures FindOwned(rows, id, user) == Some(rows[k])
  {
    if k > 0 {
      FindOwnedAt(rows[1..], k - 1, id, user);
    }
  }

  /** Rows are kept in insertion order: ids and creation times strictly increase, and all are below their counters. */
  ghost predicate TableValid(rows: seq<Memory>, nextId: nat, clock: nat) {
    && StrictlyIncreasing(rows, IdOf)
    && StrictlyIncreasing(rows, CreatedAt)
    && forall m :: m in rows ==> m.id < nextId && m.createdAt <= m.updatedAt < clock
  }

  /** An update stamped with the current clock keeps the table invariant once the clock has ticked. */
  lemma UpdateKeepsTableValid(rows: seq<Memory>, nextId: nat, clock: nat, id: MemoryId, user: UserId, body: MemoryBody)
    requires TableValid(rows, nextId, clock)
    ensures TableValid(UpdateMatching(rows, id, user, body, clock), nextId, clock + 1)
  {
    var r := UpdateMatching(rows, id, user, body, clock);
    forall i, j | 0 <= i < j < |r| ensures IdOf(r[i]) < IdOf(r[j]) && CreatedAt(r[i]) < CreatedAt(r[j]) {
      assert IdOf(rows[i]) < IdOf(rows[j]) && CreatedAt(rows[i]) < CreatedAt(rows[j]);
    }
    forall m | m in r ensures m.id < nextId && m.createdAt <= m.updatedAt < clock + 1 {
      var k :| 0 <= k < |r| && r[k] == m;
      assert rows[k] in rows;
    }
  }

  /** The in-memory memory table with the counters the database keeps: the next id and a logical clock for the timestamps. */
  class MemoryStore {
    var rows: seq<Memory>
    var nextId: nat
    var clock: nat

    /** The table invariant, on the store's fields. */
    ghost predicate Valid()
      reads this
    {
      TableValid(rows, nextId, clock)
    }

    constructor ()
      ensures Valid() && rows == []
    {
      rows, nextId, clock := [], 0, 0;
    }

    /** POST /: stores a new row owned by the caller, with the defaults applied, and returns it. */
    method Create(user: UserId, body: MemoryBody) returns (m: Memory)
      requires Valid()
      modifies this
      ensures Valid()
      ensures m == NewRow(old(nextId), user, body, old(clock))
      ensures forall r :: r in old(rows) ==> r.id != m.id
      ensures rows == old(rows) + [m]
    {
      m := NewRow(nextId, user, body, clock);
      rows := rows + [m];
      nextId, clock := nextId + 1, clock + 1;
    }

    /** GET /: exactly the caller's memories, newest first. */
    method List(user: UserId) returns (r: seq<Memory>)
      requires Valid()
      ensures forall m :: m in r <==> m in rows && m.userId == user
      ensures StrictlyDecreasing(r, CreatedAt)
    {
      r := ListOwned(rows, user);
    }

    /** GET /:id: the row with that id when the caller owns it; `None` (a 404) otherwise. */
    method Get(user: UserId, id: MemoryId) returns (r: Option<Memory>)
      ensures r.Some? ==> r.value in rows && r.value.id == id && r.value.userId == user
      ensures r.None? <==> forall m :: m in rows ==> !(m.id == id && m.userId == user)
    {
      r := FindOwned(rows, id, user);
    }

    /** PUT /:id: overwrites the caller's row; 404 and no change when (id, caller) matches no row. */
    method Put(user: UserId, id: MemoryId, body: MemoryBody) returns (s: Status)
      requires Valid()
      modifies this
      ensures Valid()
      ensures s == NotFound <==> FindOwned(old(rows), id, user).None?
      ensures rows == UpdateMatching(old(rows), id, user, body, old(clock))
      ensures s == NotFound ==> rows == old(rows)
      ensures nextId == old(nextId)
    {
      var count := CountMatching(rows, id, user);
      if count == 0 {
        UpdateNoMatchUnchanged(rows, id, user, body, clock);
      }
      UpdateKeepsTableValid(rows, nextId, clock, id, user, body);
      rows := UpdateMatching(rows, id, user, body, clock);
      clock := clock + 1;
      s := if count == 0 then NotFound else Done;
    }

    /** DELETE /:id: removes the caller's row and nothing else; 404 and no change when (id, caller) matches no row. */
    method Delete(user: UserId, id: MemoryId) returns (s: Status)
      requires Valid()
      modifies this
      ensures Valid()
      ensures s == NotFound <==> FindOwned(old(rows), id, user).None?
      ensures rows == DeleteMatching(old(rows), id, user)
      ensures s == NotFound ==> rows == old(rows)
      ensures nextId == old(nextId) && clock == old(clock)
    {
      var count := CountMatching(rows, id, user);
      if count == 0 {
        DeleteNoMatchUnchanged(rows, id, user);
      }
      var keep := (m: Memory) => !Matches(m, id, user);
      FilterIncreasing(rows, keep, IdOf);
      FilterIncreasing(rows, keep, CreatedAt);
      DeleteIsFilter(rows, id, user);
      rows := DeleteMatching(rows, id, user);
      s := if count == 0 then NotFound else Done;
    }
  }

  /** `deleteMany` is the filter that keeps the non-matching rows. */
  lemma {:induction false} DeleteIsFilter(rows: seq<Memory>, id: MemoryId, user: UserId)
    ensures DeleteMatching(rows, id, user) == Filter(rows, (m: Memory) => !Matches(m, id, user))
  {
    if rows != [] {
      DeleteIsFilter(rows[1..], id, user);
    }
  }
}
