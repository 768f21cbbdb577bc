/**
 * The tag routes: GET /me/all (every tag the caller has used, once each) and
 * GET /search?q= (the caller's memories that carry any of a comma-separated
 * list of tags).
 */
module Tags {
  import opened Wrappers
  import opened Seqs
  import opened Strings
  import opened Memories

  /** The response of GET /me/all. */
  datatype TagSummary = TagSummary(tags: seq<string>, count: nat)

  /** The response of GET /search. */
  datatype TagSearch = TagSearch(tags: seq<string>, count: nat, results: seq<Memory>)

  /** The two 400 responses of GET /search. */
  datatype TagError = QueryRequired | NoValidTags

  /** The `message` of each 400 response. */
  function ErrorMessage(e: TagError): (msg: string)
    ensures msg != ""
  {
    match e
    case QueryRequired => "Query parameter 'q' is required."
    case NoValidTags => "No valid tags provided."
  }

  /** The two 400 responses carry different texts, so a client can tell them apart. */
  lemma ErrorMessagesDistinct(a: TagError, b: TagError)
    ensures ErrorMessage(a) == ErrorMessage(b) ==> a == b
  {
    assert ErrorMessage(QueryRequired)[0] == 'Q' && ErrorMessage(NoValidTags)[0] == 'N';
  }

  /** `memories.flatMap(m => m.tags || [])` over the caller's rows, in table order. */
  function OwnedTags(rows: seq<Memory>, user: UserId): (r: seq<string>)
    ensures forall t :: t in r <==> exists m :: m in rows && m.userId == user && t in m.tags
  {
    if rows == [] then []
    else
      assert rows == [rows[0]] + rows[1..];
      (if rows[0].userId == user then rows[0].tags else []) + OwnedTags(rows[1..], user)
  }

  /** GET /me/all: the caller's tags with duplicates removed, and their number. */
  function AllTags(rows: seq<Memory>, user: UserId): (r: TagSummary)
    ensures NoDuplicates(r.tags)
    ensures forall t :: t in r.tags <==> exists m :: m in rows && m.userId == user && t in m.tags
    ensures r.count == |r.tags|
  {
    var tags := Dedupe(OwnedTags(rows, user));
    TagSummary(tags, |tags|)
  }

  /** The tags of GET /me/all are listed in the order in which they first occur in the caller's memories. */
  lemma AllTagsFirstOccurrenceOrder(rows: seq<Memory>, user: UserId)
    ensures var flat, r := OwnedTags(rows, user), AllTags(rows, user).tags;
      forall i, j :: 0 <= i < j < |r| ==> FirstIndex(flat, r[i]) < FirstIndex(flat, r[j])
  {
    DedupeFirstOccurrenceOrder(OwnedTags(rows, user));
  }

  /** `.map((tag) => tag.trim())`: each piece trimmed in place, so every piece is empty or clean, and empty exactly when it was blank. */
  function TrimAll(xs: seq<string>): (r: seq<string>)
    ensures |r| == |xs| && forall k :: 0 <= k < |xs| ==> r[k] == Trim(xs[k])
    ensures forall k :: 0 <= k < |xs| ==> (r[k] == [] <==> IsBlank(xs[k]))
    ensures forall k :: 0 <= k < |xs| ==> r[k] == [] || IsCleanTag(r[k])
  {
    seq(|xs|, k requires 0 <= k < |xs| => Trim(xs[k]))
  }

  /** A non-empty tag that starts and ends with a non-whitespace character. */
  predicate IsCleanTag(t: string) {
    t != "" && !IsWhitespace(t[0]) && !IsWhitespace(t[|t| - 1])
  }

  /** `q.split(",").map((tag) => tag.trim()).filter(Boolean)`. */
  function ParseTags(q: string): (tags: seq<string>)
    ensures |tags| <= Count(q, ',') + 1
    ensures forall k :: 0 <= k < |tags| ==> IsCleanTag(tags[k])
  {
    var trimmed := TrimAll(Split(q, ','));
    NonEmptyTrimmedAreClean(trimmed, Split(q, ','));
    Filter(trimmed, (t: string) => t != "")
  }

  /** A trimmed piece that is not empty is a clean tag. */
  lemma NonEmptyTrimmedAreClean(trimmed: seq<string>, pieces: seq<string>)
    requires trimmed == TrimAll(pieces)
    ensures forall t :: t in Filter(trimmed, (t: string) => t != "") ==> IsCleanTag(t)
  {
    assert forall j :: 0 <= j < |trimmed| ==> trimmed[j] == [] || IsCleanTag(trimmed[j]);
  }

  /** Every character is a comma or whitespace. */
  predicate OnlyCommasAndWhitespace(q: string) {
    forall k :: 0 <= k < |q| ==> q[k] == ',' || IsWhitespace(q[k])
  }

  /** Every piece is blank. */
  predicate AllBlank(xs: seq<string>) {
    forall k :: 0 <= k < |xs| ==> IsBlank(xs[k])
  }

  lemma BlankConcat(a: string, b: string)
    ensures IsBlank(a + b) <==> IsBlank(a) && IsBlank(b)
  {
    if IsBlank(a) && IsBlank(b) {
      forall k | 0 <= k < |a + b| ensures IsWhitespace((a + b)[k]) {
        if k >= |a| { assert (a + b)[k] == b[k - |a|]; }
      }
    }
    if IsBlank(a + b) {
      forall k | 0 <= k < |a| ensures IsWhitespace(a[k]) {
        assert (a + b)[k] == a[k];
      }
      forall k | 0 <= k < |b| ensures IsWhitespace(b[k]) {
        assert (a + b)[|a| + k] == b[k];
      }
    }
  }

  lemma AllBlankCons(x: string, xs: seq<string>)
    ensures AllBlank([x] + xs) <==> IsBlank(x) && AllBlank(xs)
  {
    if IsBlank(x) && AllBlank(xs) {
      forall k | 0 <= k < |[x] + xs| ensures IsBlank(([x] + xs)[k]) {
        if k > 0 { assert ([x] + xs)[k] == xs[k - 1]; }
      }
    }
    if AllBlank([x] + xs) {
      forall k | 0 <= k < |xs| ensures IsBlank(xs[k]) {
        assert ([x] + xs)[k + 1] == xs[k];
      }
      assert ([x] + xs)[0] == x;
    }
  }

  lemma OnlyCommasCons(c: char, q: string)
    ensures OnlyCommasAndWhitespace([c] + q) <==> (c == ',' || IsWhitespace(c)) && OnlyCommasAndWhitespace(q)
  {
    var s := [c] + q;
    assert forall k :: 0 <= k < |q| ==> s[k + 1] == q[k];
    assert s[0] == c;
    if (c == ',' || IsWhitespace(c)) && OnlyCommasAndWhitespace(q) {
      forall k | 0 <= k < |s| ensures s[k] == ',' || IsWhitespace(s[k]) {
        if k > 0 { assert s[k] == q[k - 1]; }
      }
    }
  }

  /** The pieces of a split are all blank exactly when the string holds nothing but separators and whitespace. */
  lemma {:induction false} SplitAllBlank(q: string)
    ensures AllBlank(Split(q, ',')) <==> OnlyCommasAndWhitespace(q)
    decreases |q|
  {
    if q != [] {
      SplitAllBlank(q[1..]);
      var rest := Split(q[1..], ',');
      assert q == [q[0]] + q[1..];
      OnlyCommasCons(q[0], q[1..]);
      assert rest == [rest[0]] + rest[1..];
      AllBlankCons(rest[0], rest[1..]);
      if q[0] != ',' {
        BlankConcat([q[0]], rest[0]);
        AllBlankCons([q[0]] + rest[0], rest[1..]);
      } else {
        AllBlankCons("", rest);
      }
    }
  }

  /** Parsing yields no tag exactly when the query holds nothing but commas and whitespace (`",,"`, `" , "`, ...). */
  lemma ParseTagsEmpty(q: string)
    ensures ParseTags(q) == [] <==> OnlyCommasAndWhitespace(q)
  {
    SplitAllBlank(q);
    var pieces := Split(q, ',');
    var trimmed := TrimAll(pieces);
    if ParseTags(q) == [] {
      forall k | 0 <= k < |pieces| ensures IsBlank(pieces[k]) {
        assert trimmed[k] in trimmed;
      }
    } else {
      var t := ParseTags(q)[0];
      assert t in trimmed;
    }
  }

  /** "Has some tag": `tags: { hasSome: tags }`. */
  function HasSome(memoryTags: seq<string>, tags: seq<string>): (b: bool)
    ensures b <==> exists k :: 0 <= k < |tags| && tags[k] in memoryTags
    ensures b ==> memoryTags != [] && tags != []
  {
    exists t :: t in memoryTags && t in tags
  }

  /** GET /search?q=: the two 400 cases, or the caller's memories sharing a tag with the parsed list. */
  function SearchByTags(rows: seq<Memory>, user: UserId, q: Option<string>): (r: Result<TagSearch, TagError>)
    ensures r == Err(QueryRequired) <==> q.None? || IsBlank(q.value)
    ensures r == Err(NoValidTags) <==> q.Some? && !IsBlank(q.value) && OnlyCommasAndWhitespace(q.value)
    ensures r.Ok? ==> q.Some? && r.value.tags == ParseTags(q.value) && r.value.tags != []
    ensures r.Ok? ==> r.value.count == |r.value.results|
    ensures r.Ok? ==> forall m :: m in r.value.results <==> m in rows && m.userId == user && HasSome(m.tags, r.value.tags)
    ensures r.Ok? ==> IsSubsequence(r.value.results, rows)
  {
    if q.None? || Trim(q.value) == "" then Err(QueryRequired)
    else
      var tags := ParseTags(q.value);
      ParseTagsEmpty(q.value);
      if tags == [] then Err(NoValidTags)
      else
        var results := Filter(rows, (m: Memory) => m.userId == user && HasSome(m.tags, tags));
        Ok(TagSearch(tags, |results|, results))
  }

  /** `q = ",,"` passes the first check but yields no tags. */
  lemma OnlyCommasIsNoValidTags(rows: seq<Memory>, user: UserId)
    ensures SearchByTags(rows, user, Some(",,")) == Err(NoValidTags)
  {
    var q := ",,";
    assert |q| == 2 && q[0] == ',' && q[1] == ',';
    assert !IsBlank(q) by { assert !IsWhitespace(q[0]); }
    assert OnlyCommasAndWhitespace(q);
  }
}
