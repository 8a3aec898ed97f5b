/** The post data rules of the database layer (src/lib/prisma.ts): the
    `published_at` rules of `createPost` and `updatePost`, the conditional
    update of `updatePost`, the tag statistics of `getTags`, the id check of
    `incrementViews`, the `skip`/`take` paging and the not-found answers.
    The database is a value (a list or map of rows) or a class holding one;
    the ORM's own behaviour is not part of this model. */
module Posts {
  import opened Common
  import opened Text
  import Sorting

  const PostNotFound: Str := "Post not found"
  const InvalidPostId: Str := "Invalid post ID"

  /** A row of the `posts` table.  Dates are kept as the text they were
      given; `now` is an argument wherever the code reads the clock. */
  datatype Row = Row(
    id: int,
    title: Str,
    content: Str,
    slug: Str,
    authorId: Str,
    categoryId: Option<int>,
    publishedAt: Option<Str>,
    isPublished: bool,
    tags: seq<Str>,
    views: int,
    imageUrl: Option<Str>,
    altText: Option<Str>)

  /** A JavaScript string used as a condition: absent and empty are falsy. */
  predicate Truthy(s: Option<Str>) {
    s.Some? && s.value != []
  }

  /** Every published row has a publication date. */
  predicate Dated(r: Row) {
    r.isPublished ==> r.publishedAt.Some?
  }

  // ================================================================ create

  /** `createPost`: a published post without a date is dated now; otherwise
      the given date, or none. */
  function CreatePublishedAt(isPublished: bool, given: Option<Str>, now: Str): (r: Option<Str>)
    ensures isPublished ==> r.Some?
    ensures Truthy(given) ==> r == given
    ensures !Truthy(given) ==> (r.Some? <==> isPublished) && (isPublished ==> r == Some(now))
  {
    if isPublished && !Truthy(given) then Some(now)
    else if Truthy(given) then given
    else None
  }

  // ================================================================ update

  /** `Partial<Post>`: `None` is a field left out (`undefined`); for the
      nullable fields `Some(None)` is an explicit `null`. */
  datatype Updates = Updates(
    title: Option<Str>,
    content: Option<Str>,
    slug: Option<Str>,
    authorId: Option<Str>,
    categoryId: Option<Option<int>>,
    publishedAt: Option<Option<Str>>,
    isPublished: Option<bool>,
    tags: Option<seq<Str>>,
    imageUrl: Option<Option<Str>>,
    altText: Option<Option<Str>>)

  /** Whether an update publishes a post that has never been dated. */
  predicate FirstPublication(existing: Row, updates: Updates) {
    updates.isPublished == Some(true) && !existing.isPublished && existing.publishedAt.None?
  }

  /** Whether an update takes a published post offline. */
  predicate Unpublication(existing: Row, updates: Updates) {
    updates.isPublished == Some(false) && existing.isPublished
  }

  /** The `published_at` an update writes: `None` leaves the column alone,
      `Some(d)` writes `d` (`Some(None)` writes `null`).  An explicit date
      is kept when truthy and becomes `null` otherwise. */
  function PublishedAtWrite(existing: Row, updates: Updates, now: Str): Option<Option<Str>> {
    if Unpublication(existing, updates) then Some(None)
    else if FirstPublication(existing, updates) && updates.publishedAt.None? then Some(Some(now))
    else match updates.publishedAt
         case None => None
         case Some(d) => Some(if Truthy(d) then d else None)
  }

  /** The statement sequence of `updatePost` that computes the column. */
  method UpdatePublishedAt(existing: Row, updates: Updates, now: Str) returns (publishedAt: Option<Option<Str>>)
    ensures publishedAt == PublishedAtWrite(existing, updates, now)
    ensures Unpublication(existing, updates) ==> publishedAt == Some(None)
    ensures FirstPublication(existing, updates) && updates.publishedAt.None? ==> publishedAt == Some(Some(now))
    ensures !Unpublication(existing, updates) && !(FirstPublication(existing, updates) && updates.publishedAt.None?) ==>
              publishedAt == (match updates.publishedAt
                              case None => None
                              case Some(d) => Some(if Truthy(d) then d else None))
    ensures updates.publishedAt.None? && updates.isPublished.None? ==> publishedAt.None?
  {
    if updates.publishedAt.Some? {
      publishedAt := Some(if Truthy(updates.publishedAt.value) then updates.publishedAt.value else None);
    } else {
      publishedAt := None;
    }
    if updates.isPublished == Some(true) && !existing.isPublished && existing.publishedAt.None? && publishedAt.None? {
      publishedAt := Some(Some(now));
    }
    if updates.isPublished == Some(false) && existing.isPublished {
      publishedAt := Some(None);
    }
  }

  /** The spread of `updatePost`'s data: title, content, slug and author
      only when truthy; tags whenever given (an empty array is truthy); the
      nullable fields whenever not `undefined`. */
  function ApplyUpdate(row: Row, updates: Updates, publishedAt: Option<Option<Str>>): (r: Row)
    ensures r.id == row.id && r.views == row.views
    ensures r.title == (if Truthy(updates.title) then updates.title.value else row.title)
    ensures r.content == (if Truthy(updates.content) then updates.content.value else row.content)
    ensures r.slug == (if Truthy(updates.slug) then updates.slug.value else row.slug)
    ensures r.authorId == (if Truthy(updates.authorId) then updates.authorId.value else row.authorId)
    ensures r.categoryId == (if updates.categoryId.Some? then updates.categoryId.value else row.categoryId)
    ensures r.publishedAt == (if publishedAt.Some? then publishedAt.value else row.publishedAt)
    ensures r.isPublished == (if updates.isPublished.Some? then updates.isPublished.value else row.isPublished)
    ensures r.tags == (if updates.tags.Some? then updates.tags.value else row.tags)
    ensures r.imageUrl == (if updates.imageUrl.Some? then updates.imageUrl.value else row.imageUrl)
    ensures r.altText == (if updates.altText.Some? then updates.altText.value else row.altText)
  {
    Row(row.id,
        IfTruthy(updates.title, row.title),
        IfTruthy(updates.content, row.content),
        IfTruthy(updates.slug, row.slug),
        IfTruthy(updates.authorId, row.authorId),
        IfGiven(updates.categoryId, row.categoryId),
        IfGiven(publishedAt, row.publishedAt),
        IfGiven(updates.isPublished, row.isPublished),
        IfGiven(updates.tags, row.tags),
        row.views,
        IfGiven(updates.imageUrl, row.imageUrl),
        IfGiven(updates.altText, row.altText))
  }

  /** `...(field && { field })` for a text field: kept only when truthy. */
  function IfTruthy(given: Option<Str>, current: Str): Str
  {
    if Truthy(given) then given.value else current
  }

  /** A field of the spread that is written whenever it is not `undefined`. */
  function IfGiven<T>(given: Option<T>, current: T): T
  {
    if given.Some? then given.value else current
  }

  /** Sending the same update twice leaves the row as the first time. */
  lemma ApplyUpdateIdempotent(row: Row, updates: Updates, publishedAt: Option<Option<Str>>)
    ensures var once := ApplyUpdate(row, updates, publishedAt);
            ApplyUpdate(once, updates, publishedAt) == once
  {
  }

  /** An empty update changes nothing. */
  lemma EmptyUpdateIsIdentity(row: Row)
    ensures ApplyUpdate(row, Updates(None, None, None, None, None, None, None, None, None, None), None) == row
  {
  }

  // ================================================================ lookups

  /** The `findUnique` lookup of `getPostBySlug`: the published row with
      that slug. */
  function FindPublishedBySlug(rows: seq<Row>, slug: Str): (r: Result<Row>)
    ensures r.Err? <==> forall i :: 0 <= i < |rows| ==> !(rows[i].slug == slug && rows[i].isPublished)
    ensures r.Err? ==> r.message == PostNotFound
    ensures r.Ok? ==> r.value in rows && r.value.slug == slug && r.value.isPublished
  {
    if rows == [] then Err(PostNotFound)
    else if rows[0].slug == slug && rows[0].isPublished then Ok(rows[0])
    else FindPublishedBySlug(rows[1..], slug)
  }

  /** `getPostBySlug`: a query that throws answers with its message (`dbFailure`);
      otherwise the lookup's answer. */
  function GetPostBySlug(rows: seq<Row>, slug: Str, dbFailure: Option<Str>): (r: Result<Row>)
    ensures dbFailure.Some? ==> r == Err(dbFailure.value)
    ensures dbFailure.None? ==>
              (r.Err? <==> forall i :: 0 <= i < |rows| ==> !(rows[i].slug == slug && rows[i].isPublished))
    ensures dbFailure.None? && r.Err? ==> r.message == PostNotFound
    ensures r.Ok? ==> dbFailure.None? && r.value in rows && r.value.slug == slug && r.value.isPublished
  {
    if dbFailure.Some? then Err(dbFailure.value) else FindPublishedBySlug(rows, slug)
  }

  /** A JavaScript value passed as a post id. */
  datatype IdArg = IntegerId(n: int) | FractionalId | NaNId | NotANumber

  /** `!postId || typeof postId !== 'number' || !Number.isInteger(postId) || postId <= 0` */
  predicate ValidPostId(arg: IdArg) {
    arg.IntegerId? && arg.n > 0
  }

  // ================================================================ paging

  /** `skip: (page - 1) * limit` */
  function Skip(page: int, limit: int): (r: int)
    ensures page == 1 ==> r == 0
    ensures page >= 1 && limit >= 0 ==> r >= 0
  {
    (page - 1) * limit
  }

  /** The rows a query with `skip` and `take: limit` returns. */
  function PageOf<T>(rows: seq<T>, page: int, limit: nat): (r: seq<T>)
    requires page >= 1
    ensures |r| <= limit
    ensures Skip(page, limit) <= |rows| ==> r == Take(rows[Skip(page, limit)..], limit)
    ensures Skip(page, limit) > |rows| ==> r == []
  {
    var skip := Skip(page, limit);
    if skip <= |rows| then Take(rows[skip..], limit) else []
  }

  /** Pages 1..n, read in order, are the first `n * limit` rows: paging
      neither skips nor repeats a row. */
  lemma {:induction false} PagesTile<T>(rows: seq<T>, n: nat, limit: nat)
    ensures Pages(rows, n, limit) == Take(rows, n * limit)
  {
    if n > 0 {
      PagesTile(rows, n - 1, limit);
      var m: nat := (n - 1) * limit;
      MulStep(n, limit);
      assert Pages(rows, n, limit) == Take(rows, m) + PageOf(rows, n, limit);
      if m <= |rows| {
        TakeThenTake(rows, m, limit);
      } else {
        assert Take(rows, m) == rows && PageOf(rows, n, limit) == [];
      }
    }
  }

  /** Two consecutive windows make one. */
  lemma TakeThenTake<T>(rows: seq<T>, m: nat, l: nat)
    requires m <= |rows|
    ensures Take(rows, m) + Take(rows[m..], l) == Take(rows, m + l)
  {
    if m + l <= |rows| {
      assert rows[..m] + rows[m..][..l] == rows[..m + l];
    } else {
      assert rows[..m] + rows[m..] == rows;
    }
  }

  /** The first `n` pages concatenated. */
  function Pages<T>(rows: seq<T>, n: nat, limit: nat): seq<T>
  {
    if n == 0 then [] else Pages(rows, n - 1, limit) + PageOf(rows, n, limit)
  }

  // ================================================================ tags

  datatype TagCount = TagCount(name: Str, count: nat)

  function CountKey(t: TagCount): int {
    t.count
  }

  /** All tags of the rows, in order. */
  function Flatten(tagLists: seq<seq<Str>>): (r: seq<Str>)
    decreases |tagLists|
  {
    if tagLists == [] then [] else Flatten(tagLists[..|tagLists| - 1]) + tagLists[|tagLists| - 1]
  }

  /** How often `t` occurs. */
  function Occ(s: seq<Str>, t: Str): nat
    decreases |s|
  {
    if s == [] then 0 else Occ(s[..|s| - 1], t) + (if s[|s| - 1] == t then 1 else 0)
  }

  predicate Distinct(names: seq<Str>) {
    forall i, j :: 0 <= i < j < |names| ==> names[i] != names[j]
  }

  /** The distinct tags in order of first occurrence, the key order of the
      `tagCount` object. */
  function FirstSeen(s: seq<Str>): (r: seq<Str>)
    ensures forall t :: t in r <==> t in s
    ensures Distinct(r)
    decreases |s|
  {
    if s == [] then []
    else
      var p := FirstSeen(s[..|s| - 1]);
      assert s == s[..|s| - 1] + [s[|s| - 1]];
      if s[|s| - 1] in p then p else p + [s[|s| - 1]]
  }

  /** `Object.entries(tagCount).map(([name, count]) => ({ name, count }))` */
  function Counted(names: seq<Str>, s: seq<Str>): (r: seq<TagCount>)
    ensures |r| == |names|
    ensures forall k :: 0 <= k < |r| ==> r[k] == TagCount(names[k], Occ(s, names[k]))
  {
    if names == [] then [] else [TagCount(names[0], Occ(s, names[0]))] + Counted(names[1..], s)
  }

  /** The tag statistics before sorting. */
  function TagCounts(tagLists: seq<seq<Str>>): seq<TagCount> {
    var all := Flatten(tagLists);
    Counted(FirstSeen(all), all)
  }

  lemma {:induction false} OccAbsent(s: seq<Str>, t: Str)
    requires t !in s
    ensures Occ(s, t) == 0
    decreases |s|
  {
    if s != [] {
      assert s[..|s| - 1] + [s[|s| - 1]] == s;
      OccAbsent(s[..|s| - 1], t);
    }
  }

  lemma OccSnoc(s: seq<Str>, x: Str, t: Str)
    ensures Occ(s + [x], t) == Occ(s, t) + (if x == t then 1 else 0)
  {
    assert (s + [x])[..|s|] == s;
  }

  lemma FirstSeenSnoc(s: seq<Str>, x: Str)
    ensures FirstSeen(s + [x]) == if x in FirstSeen(s) then FirstSeen(s) else FirstSeen(s) + [x]
  {
    assert (s + [x])[..|s|] == s;
  }

  lemma FlattenSnoc(tagLists: seq<seq<Str>>, i: nat)
    requires i < |tagLists|
    ensures Flatten(tagLists[..i + 1]) == Flatten(tagLists[..i]) + tagLists[i]
  {
    assert tagLists[..i + 1][..i] == tagLists[..i];
  }

  /** `Object.entries(tagCount).map(([name, count]) => ({ name, count }))` */
  function Entries(counts: map<Str, nat>, order: seq<Str>): (r: seq<TagCount>)
    requires forall t :: t in order ==> t in counts
    ensures |r| == |order|
    ensures forall k :: 0 <= k < |r| ==> r[k].name == order[k] && r[k].count == counts[order[k]]
  {
    seq(|order|, k requires 0 <= k < |order| => TagCount(order[k], counts[order[k]]))
  }

  /** The entries of a tally are the counted distinct tags. */
  lemma EntriesCounted(counts: map<Str, nat>, order: seq<Str>, s: seq<Str>)
    requires Tally(counts, order, s)
    ensures forall t :: t in order ==> t in counts
    ensures Entries(counts, order) == Counted(FirstSeen(s), s)
  {
  }

  /** `counts` and `order` hold the `tagCount` record after the tags `s`:
      the keys in insertion order, each with its number of occurrences. */
  ghost predicate Tally(counts: map<Str, nat>, order: seq<Str>, s: seq<Str>) {
    order == FirstSeen(s) &&
    (forall t :: t in counts <==> t in order) &&
    (forall t :: t in counts ==> counts[t] == Occ(s, t))
  }

  /** `tagCount[tag] = (tagCount[tag] || 0) + 1` keeps the tally. */
  lemma TallyStep(counts: map<Str, nat>, order: seq<Str>, s: seq<Str>, tag: Str)
    requires Tally(counts, order, s)
    ensures tag !in counts ==> Tally(counts[tag := 1], order + [tag], s + [tag])
    ensures tag in counts ==> Tally(counts[tag := counts[tag] + 1], order, s + [tag])
  {
    if tag !in counts {
      TallyNew(counts, order, s, tag);
    } else {
      TallyOld(counts, order, s, tag);
    }
  }

  /** A tag seen for the first time gets count 1 and goes last. */
  lemma TallyNew(counts: map<Str, nat>, order: seq<Str>, s: seq<Str>, tag: Str)
    requires Tally(counts, order, s) && tag !in counts
    ensures Tally(counts[tag := 1], order + [tag], s + [tag])
  {
    FirstSeenSnoc(s, tag);
    var c := counts[tag := 1];
    forall t | t in c ensures c[t] == Occ(s + [tag], t) {
      OccSnoc(s, tag, t);
      if t == tag {
        OccAbsent(s, tag);
      }
    }
  }

  /** A tag seen before counts one more and keeps its place. */
  lemma TallyOld(counts: map<Str, nat>, order: seq<Str>, s: seq<Str>, tag: Str)
    requires Tally(counts, order, s) && tag in counts
    ensures Tally(counts[tag := counts[tag] + 1], order, s + [tag])
  {
    FirstSeenSnoc(s, tag);
    var c := counts[tag := counts[tag] + 1];
    forall t | t in c ensures c[t] == Occ(s + [tag], t) {
      OccSnoc(s, tag, t);
    }
  }

  /** The inner `post.tags.forEach(...)`: count one row's tags into the
      record. */
  method CountRow(counts: map<Str, nat>, order: seq<Str>, row: seq<Str>, ghost before: seq<Str>)
    returns (counts': map<Str, nat>, order': seq<Str>)
    requires Tally(counts, order, before)
    ensures Tally(counts', order', before + row)
  {
    counts', order' := counts, order;
    var j := 0;
    assert before + row[..0] == before;
    while j < |row|
      invariant 0 <= j <= |row|
      invariant Tally(counts', order', before + row[..j])
    {
      ghost var seen := before + row[..j];
      var tag := row[j];
      TallyStep(counts', order', seen, tag);
      SnocSlice(before, row, j);
      if tag !in counts' {
        order' := order' + [tag];
        counts' := counts'[tag := 1];
      } else {
        counts' := counts'[tag := counts'[tag] + 1];
      }
      j := j + 1;
    }
    assert row[..|row|] == row;
  }

  lemma SnocSlice(before: seq<Str>, row: seq<Str>, j: nat)
    requires j < |row|
    ensures before + row[..j] + [row[j]] == before + row[..j + 1]
  {
    assert row[..j + 1] == row[..j] + [row[j]];
  }

  /** `getTags`: count each tag over the rows' tag lists in a record, then
      sort the entries by count, largest first (stable). */
  method GetTags(tagLists: seq<seq<Str>>) returns (tags: seq<TagCount>)
    ensures tags == Sorting.Sort(TagCounts(tagLists), CountKey)
  {
    var counts: map<Str, nat> := map[];
    var order: seq<Str> := [];   // the record's key order
    var i := 0;
    while i < |tagLists|
      invariant 0 <= i <= |tagLists|
      invariant Tally(counts, order, Flatten(tagLists[..i]))
    {
      FlattenSnoc(tagLists, i);
      counts, order := CountRow(counts, order, tagLists[i], Flatten(tagLists[..i]));
      i := i + 1;
    }
    assert tagLists[..|tagLists|] == tagLists;
    EntriesCounted(counts, order, Flatten(tagLists));
    var entries := Entries(counts, order);
    tags := Sorting.Sort(entries, CountKey);
  }

  /** Each entry counts its tag's occurrences over all the rows, and every
      tag that occurs has exactly one entry. */
  lemma TagCountsCorrect(tagLists: seq<seq<Str>>, t: Str)
    ensures forall e :: e in Sorting.Sort(TagCounts(tagLists), CountKey) ==>
              e.count == Occ(Flatten(tagLists), e.name)
    ensures t in Flatten(tagLists) <==>
              exists e :: e in Sorting.Sort(TagCounts(tagLists), CountKey) && e.name == t
  {
    var all := Flatten(tagLists);
    var unsorted := TagCounts(tagLists);
    var sorted := Sorting.Sort(unsorted, CountKey);
    Sorting.SortPermutes(unsorted, CountKey);
    forall e | e in sorted ensures e.count == Occ(all, e.name) && e.name in all {
      assert e in multiset(sorted);
      assert e in multiset(unsorted);
      var k :| 0 <= k < |unsorted| && unsorted[k] == e;
    }
    if t in all {
      var names := FirstSeen(all);
      var k :| 0 <= k < |names| && names[k] == t;
      var e := unsorted[k];
      assert e in multiset(unsorted);
      assert e in multiset(sorted);
      assert e in sorted && e.name == t;
    }
  }

  /** The statistics are sorted by count, largest first. */
  lemma TagCountsSorted(tagLists: seq<seq<Str>>)
    ensures Sorting.SortedDesc(Sorting.Sort(TagCounts(tagLists), CountKey), CountKey)
  {
    Sorting.SortSorted(TagCounts(tagLists), CountKey);
  }

  /** The counts add up to the number of tag occurrences. */
  lemma TagCountsSum(tagLists: seq<seq<Str>>)
    ensures Sorting.SumKeys(Sorting.Sort(TagCounts(tagLists), CountKey), CountKey) == |Flatten(tagLists)|
  {
    Sorting.SortSumKeys(TagCounts(tagLists), CountKey);
    var all := Flatten(tagLists);
    FirstSeenSum(all);
    SumKeysCounted(FirstSeen(all), all);
  }

  function SumOcc(names: seq<Str>, s: seq<Str>): nat {
    if names == [] then 0 else Occ(s, names[0]) + SumOcc(names[1..], s)
  }

  lemma {:induction false} SumKeysCounted(names: seq<Str>, s: seq<Str>)
    ensures Sorting.SumKeys(Counted(names, s), CountKey) == SumOcc(names, s)
  {
    if names != [] {
      SumKeysCounted(names[1..], s);
      assert Counted(names, s)[1..] == Counted(names[1..], s);
    }
  }

  lemma {:induction false} SumOccSnoc(names: seq<Str>, s: seq<Str>, x: Str)
    requires Distinct(names)
    ensures SumOcc(names, s + [x]) == SumOcc(names, s) + (if x in names then 1 else 0)
  {
    if names != [] {
      OccSnoc(s, x, names[0]);
      SumOccSnoc(names[1..], s, x);
      if names[0] == x {
        assert x !in names[1..] by {
          forall k | 0 <= k < |names[1..]| ensures names[1..][k] != x {
            assert names[1..][k] == names[k + 1];
          }
        }
      }
    }
  }

  lemma {:induction false} SumOccAppendName(names: seq<Str>, y: Str, s: seq<Str>)
    ensures SumOcc(names + [y], s) == SumOcc(names, s) + Occ(s, y)
  {
    if names != [] {
      assert (names + [y])[1..] == names[1..] + [y];
      SumOccAppendName(names[1..], y, s);
    }
  }

  lemma {:induction false} FirstSeenSum(s: seq<Str>)
    ensures SumOcc(FirstSeen(s), s) == |s|
    decreases |s|
  {
    if s != [] {
      var p := s[..|s| - 1];
      var x := s[|s| - 1];
      assert s == p + [x];
      FirstSeenSum(p);
      FirstSeenSnoc(p, x);
      SumOccSnoc(FirstSeen(p), p, x);
      if x !in FirstSeen(p) {
        SumOccAppendName(FirstSeen(p), x, s);
        OccSnoc(p, x, x);
        OccAbsent(p, x);
      }
    }
  }

  // ================================================================ the store

  /** The `posts` table by id. */
  class PostStore {
    var rows: map<int, Row>

    constructor(rows: map<int, Row>)
      ensures this.rows == rows
    {
      this.rows := rows;
    }

    /** `incrementViews`: an invalid id is refused before the database is
        touched; a query that throws for any other reason (`dbFailure`)
        answers with its message and changes nothing; otherwise the
        published row's views go up by one, and a missing or unpublished
        row makes the ORM fail with `ormMessage`. */
    method IncrementViews(arg: IdArg, ormMessage: Str, dbFailure: Option<Str>) returns (r: Result<()>)
      modifies this
      ensures !ValidPostId(arg) ==> r == Err(InvalidPostId) && rows == old(rows)
      ensures ValidPostId(arg) && dbFailure.Some? ==> r == Err(dbFailure.value) && rows == old(rows)
      ensures ValidPostId(arg) && dbFailure.None? && !(arg.n in old(rows) && old(rows)[arg.n].isPublished) ==>
                r == Err(ormMessage) && rows == old(rows)
      ensures ValidPostId(arg) && dbFailure.None? && arg.n in old(rows) && old(rows)[arg.n].isPublished ==>
                r == Ok(()) && rows == old(rows)[arg.n := old(rows)[arg.n].(views := old(rows)[arg.n].views + 1)]
    {
      if !(arg.IntegerId? && arg.n > 0) {
        return Err(InvalidPostId);
      }
      if dbFailure.Some? {
        return Err(dbFailure.value);
      }
      var id := arg.n;
      if id in rows && rows[id].isPublished {
        rows := rows[id := rows[id].(views := rows[id].views + 1)];
        r := Ok(());
      } else {
        r := Err(ormMessage);
      }
    }

    /** `updatePost`: a query that throws answers with its message
        (`dbFailure`) and changes nothing; a missing id gives "Post not
        found"; otherwise the row is updated in place and returned. */
    method UpdatePost(id: int, updates: Updates, now: Str, dbFailure: Option<Str>) returns (r: Result<Row>)
      modifies this
      ensures dbFailure.Some? ==> r == Err(dbFailure.value) && rows == old(rows)
      ensures dbFailure.None? && id !in old(rows) ==> r == Err(PostNotFound) && rows == old(rows)
      ensures dbFailure.None? && id in old(rows) ==> r.Ok? && id in rows && rows == old(rows)[id := r.value]
      ensures dbFailure.None? && id in old(rows) ==>
                r.value == ApplyUpdate(old(rows)[id], updates, PublishedAtWrite(old(rows)[id], updates, now))
      ensures (dbFailure.None? && id in old(rows) && Dated(old(rows)[id]) &&
               (updates.publishedAt.None? || Truthy(updates.publishedAt.value))) ==> Dated(r.value)
    {
      if dbFailure.Some? {
        return Err(dbFailure.value);
      }
      if id !in rows {
        return Err(PostNotFound);
      }
      var existing := rows[id];
      var publishedAt := UpdatePublishedAt(existing, updates, now);
      var updated := ApplyUpdate(existing, updates, publishedAt);
      rows := rows[id := updated];
      r := Ok(updated);
    }
  }
}
