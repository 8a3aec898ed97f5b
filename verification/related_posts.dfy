/** The "Related Posts" box of the sidebar
    (src/components/custom/sidebar/related-posts.tsx): the other posts,
    ranked by how many tags they share with the current one, at most three.
    The list of candidate posts is an argument. */
module RelatedPosts {
  import opened Common
  import opened Text
  import Sorting

  const MaxRelated: nat := 3

  /** The fields of a post the ranking reads. */
  datatype Post = Post(id: Str, tags: seq<Str>)

  datatype Scored = Scored(post: Post, relevanceScore: nat)

  function ScoreKey(s: Scored): int {
    s.relevanceScore
  }

  /** `post.tags.filter(tag => currentPost.tags.includes(tag)).length` */
  function Overlap(tags: seq<Str>, currentTags: seq<Str>): (n: nat)
    ensures n <= |tags|
    ensures n == 0 <==> forall i :: 0 <= i < |tags| ==> tags[i] !in currentTags
    ensures n == |tags| <==> forall i :: 0 <= i < |tags| ==> tags[i] in currentTags
  {
    if tags == [] then 0
    else (if tags[0] in currentTags then 1 else 0) + Overlap(tags[1..], currentTags)
  }

  /** `.filter(post => post.id !== currentPost.id)` */
  function Others(posts: seq<Post>, current: Post): (r: seq<Post>)
    ensures |r| <= |posts|
    ensures forall p :: p in r <==> p in posts && p.id != current.id
  {
    if posts == [] then []
    else if posts[0].id != current.id then [posts[0]] + Others(posts[1..], current)
    else Others(posts[1..], current)
  }

  /** `.map(post => ({ ...post, relevanceScore }))` */
  function ScoreAll(posts: seq<Post>, current: Post): (r: seq<Scored>)
    ensures |r| == |posts|
    ensures forall i :: 0 <= i < |r| ==> r[i] == Scored(posts[i], Overlap(posts[i].tags, current.tags))
  {
    if posts == [] then [] else [Scored(posts[0], Overlap(posts[0].tags, current.tags))] + ScoreAll(posts[1..], current)
  }

  /** All other posts, ranked by relevance (stable, highest first). */
  function Ranked(posts: seq<Post>, current: Post): seq<Scored> {
    Sorting.Sort(ScoreAll(Others(posts, current), current), ScoreKey)
  }

  /** The posts the box shows, or `None` when it renders nothing. */
  function Related(posts: seq<Post>, current: Post): (r: Option<seq<Scored>>)
    ensures r.None? <==> Others(posts, current) == []
    ensures r.Some? ==> 1 <= |r.value| <= MaxRelated && |r.value| <= |Ranked(posts, current)|
    ensures r.Some? ==> r.value == Ranked(posts, current)[..|r.value|]
    ensures r.Some? && |Ranked(posts, current)| >= MaxRelated ==> |r.value| == MaxRelated
  {
    var shown := Take(Ranked(posts, current), MaxRelated);
    if |shown| == 0 then None else Some(shown)
  }

  /** Each shown post is another post, scored by its shared tags. */
  lemma RelatedAreOthers(posts: seq<Post>, current: Post)
    ensures var r := Related(posts, current);
            r.Some? ==> forall s :: s in r.value ==>
              s.post in posts && s.post.id != current.id && s.relevanceScore == Overlap(s.post.tags, current.tags)
  {
    var scored := ScoreAll(Others(posts, current), current);
    Sorting.SortPermutes(scored, ScoreKey);
    var r := Related(posts, current);
    if r.Some? {
      forall s | s in r.value
        ensures s.post in posts && s.post.id != current.id && s.relevanceScore == Overlap(s.post.tags, current.tags)
      {
        assert s in Ranked(posts, current);
        assert s in multiset(scored);
        var k :| 0 <= k < |scored| && scored[k] == s;
        assert s.post in Others(posts, current);
      }
    }
  }

  /** The shown posts are the most relevant: ordered by score, and no post
      left out scores higher than one shown. */
  lemma RelatedAreTopRanked(posts: seq<Post>, current: Post)
    ensures var r := Related(posts, current);
            r.Some? ==>
              Sorting.SortedDesc(r.value, ScoreKey) &&
              forall i, j :: 0 <= i < |r.value| <= j < |Ranked(posts, current)| ==>
                r.value[i].relevanceScore >= Ranked(posts, current)[j].relevanceScore
  {
    Sorting.SortSorted(ScoreAll(Others(posts, current), current), ScoreKey);
  }

  /** Every other post is ranked exactly once. */
  lemma RankedIsPermutation(posts: seq<Post>, current: Post)
    ensures multiset(Ranked(posts, current)) == multiset(ScoreAll(Others(posts, current), current))
  {
    Sorting.SortPermutes(ScoreAll(Others(posts, current), current), ScoreKey);
  }
}
