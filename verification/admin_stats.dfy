/** The dashboard figures of the admin area (src/app/admin/page.tsx,
    `getStats`): post counts by state and the total of the view counters. */
module AdminStats {
  import opened Common
  import opened Posts

  datatype Stats = Stats(totalPosts: nat, publishedPosts: nat, draftPosts: nat, totalViews: int)

  const NoStats: Stats := Stats(0, 0, 0, 0)

  /** What `adminApi.getAllPosts()` gave: it threw, it reported failure, or
      it succeeded with (possibly missing) data. */
  datatype Fetch = Threw | Failed | Succeeded(data: Option<seq<Row>>)

  /** `posts.filter(post => post.is_published)` */
  function Published(posts: seq<Row>): (r: seq<Row>)
    ensures |r| <= |posts|
    ensures forall p :: p in r <==> p in posts && p.isPublished
  {
    if posts == [] then []
    else if posts[0].isPublished then [posts[0]] + Published(posts[1..])
    else Published(posts[1..])
  }

  /** `posts.filter(post => !post.is_published)` */
  function Drafts(posts: seq<Row>): (r: seq<Row>)
    ensures |r| <= |posts|
    ensures forall p :: p in r <==> p in posts && !p.isPublished
  {
    if posts == [] then []
    else if !posts[0].isPublished then [posts[0]] + Drafts(posts[1..])
    else Drafts(posts[1..])
  }

  /** `posts.reduce((sum, post) => sum + post.views, 0)` */
  function SumViews(posts: seq<Row>): int {
    if posts == [] then 0 else posts[0].views + SumViews(posts[1..])
  }

  /** Every post is either published or a draft, never both. */
  lemma {:induction false} PublishedPlusDrafts(posts: seq<Row>)
    ensures |Published(posts)| + |Drafts(posts)| == |posts|
    ensures SumViews(Published(posts)) + SumViews(Drafts(posts)) == SumViews(posts)
  {
    if posts != [] {
      PublishedPlusDrafts(posts[1..]);
    }
  }

  /** The published posts counted one by one. */
  function CountPublished(posts: seq<Row>): nat {
    if posts == [] then 0 else (if posts[0].isPublished then 1 else 0) + CountPublished(posts[1..])
  }

  lemma {:induction false} PublishedCount(posts: seq<Row>)
    ensures |Published(posts)| == CountPublished(posts)
  {
    if posts != [] {
      PublishedCount(posts[1..]);
    }
  }

  /** `getStats`: figures over the fetched posts; a failed or throwing fetch
      counts as no posts at all. */
  function GetStats(fetch: Fetch): (r: Stats)
    ensures fetch.Threw? || fetch.Failed? || fetch == Succeeded(None) ==> r == NoStats
    ensures fetch.Succeeded? && fetch.data.Some? ==>
              r.totalPosts == |fetch.data.value| &&
              r.publishedPosts == CountPublished(fetch.data.value) &&
              r.totalViews == SumViews(fetch.data.value)
    ensures r.publishedPosts + r.draftPosts == r.totalPosts
  {
    match fetch
    case Threw => NoStats
    case Failed => NoStats
    case Succeeded(data) =>
      var posts := if data.Some? then data.value else [];
      PublishedPlusDrafts(posts);
      PublishedCount(posts);
      Stats(|posts|, |Published(posts)|, |Drafts(posts)|, SumViews(posts))
  }

  /** Publishing a draft moves it from one count to the other and leaves the
      total and the views alone. */
  lemma PublishMovesOneCount(before: seq<Row>, i: nat)
    requires i < |before| && !before[i].isPublished
    ensures var after := before[i := before[i].(isPublished := true)];
            var s, t := GetStats(Succeeded(Some(before))), GetStats(Succeeded(Some(after)));
            t.publishedPosts == s.publishedPosts + 1 && t.draftPosts + 1 == s.draftPosts &&
            t.totalPosts == s.totalPosts && t.totalViews == s.totalViews
  {
    var after := before[i := before[i].(isPublished := true)];
    CountSplit(before, i);
    CountSplit(after, i);
    assert before[..i] == after[..i] && before[i + 1..] == after[i + 1..];
  }

  lemma {:induction false} CountSplit(posts: seq<Row>, i: nat)
    requires i < |posts|
    ensures CountPublished(posts) == CountPublished(posts[..i]) + (if posts[i].isPublished then 1 else 0)
                                     + CountPublished(posts[i + 1..])
    ensures SumViews(posts) == SumViews(posts[..i]) + posts[i].views + SumViews(posts[i + 1..])
  {
    if i > 0 {
      CountSplit(posts[1..], i - 1);
      assert posts[1..][..i - 1] == posts[..i][1..];
      assert posts[1..][i - 1 + 1..] == posts[i + 1..];
    } else {
      assert posts[1..] == posts[i + 1..];
    }
  }
}
