/** The category list of the sidebar
    (src/components/custom/sidebar/explore-posts.tsx): the fetched categories
    in the fixed `CATEGORY_ORDER`, the others after them. */
module ExplorePosts {
  import opened Common
  import opened Text
  import Sorting

  const CategoryOrder: seq<Str> := ["tech", "lifestyle", "review", "tutorial"]

  datatype Category = Category(name: Str, slug: Str, postCount: Option<int>)

  /** `xs.indexOf(x)`: the first index of `x`, or -1. */
  function IndexOf(xs: seq<Str>, x: Str): (r: int)
    ensures -1 <= r < |xs|
    ensures r == -1 <==> x !in xs
    ensures r >= 0 ==> xs[r] == x && x !in xs[..r]
  {
    if xs == [] then -1
    else if xs[0] == x then 0
    else
      var k := IndexOf(xs[1..], x);
      if k == -1 then -1 else (assert xs[..k + 1] == [xs[0]] + xs[1..][..k]; k + 1)
  }

  /** The position a category sorts at: its index in the order, and after
      all of them when it is not listed. */
  function Rank(c: Category): (r: int)
    ensures 0 <= r <= |CategoryOrder|
    ensures r == |CategoryOrder| <==> c.slug !in CategoryOrder
  {
    var i := IndexOf(CategoryOrder, c.slug);
    if i == -1 then |CategoryOrder| else i
  }

  /** The comparator sorts ascending by rank, i.e. descending by its
      negation; unlisted categories compare equal. */
  function OrderKey(c: Category): int {
    -Rank(c)
  }

  /** `categoriesData.sort(...)` */
  function SortCategories(categories: seq<Category>): seq<Category> {
    Sorting.Sort(categories, OrderKey)
  }

  /** The comparator of the source, as a sign. */
  function Compare(a: Category, b: Category): (r: int)
    ensures r < 0 <==> OrderKey(a) > OrderKey(b)
    ensures r == 0 <==> OrderKey(a) == OrderKey(b)
  {
    var ai := IndexOf(CategoryOrder, a.slug);
    var bi := IndexOf(CategoryOrder, b.slug);
    if ai == -1 && bi == -1 then 0
    else if ai == -1 then 1
    else if bi == -1 then -1
    else ai - bi
  }

  /** Listed categories come first, in the order's index order; the sort
      neither loses nor adds a category. */
  lemma SortedCategories(categories: seq<Category>)
    ensures var r := SortCategories(categories);
            multiset(r) == multiset(categories) &&
            (forall i, j :: 0 <= i < j < |r| && r[j].slug in CategoryOrder ==> r[i].slug in CategoryOrder) &&
            (forall i, j :: 0 <= i < j < |r| && r[j].slug in CategoryOrder ==> Rank(r[i]) <= Rank(r[j])) &&
            (forall i, j :: 0 <= i < j < |r| ==> Compare(r[i], r[j]) <= 0)
  {
    Sorting.SortPermutes(categories, OrderKey);
    Sorting.SortSorted(categories, OrderKey);
  }

  /** Unlisted categories keep the order they were fetched in. */
  lemma UnlistedKeepOrder(categories: seq<Category>)
    ensures Sorting.WithKey(SortCategories(categories), OrderKey, -|CategoryOrder|) ==
            Sorting.WithKey(categories, OrderKey, -|CategoryOrder|)
  {
    Sorting.SortStable(categories, OrderKey, -|CategoryOrder|);
  }

  /** What the list holds after the fetch: the sorted categories when the
      response is OK, nothing otherwise. */
  function Loaded(ok: bool, categories: seq<Category>): (r: seq<Category>)
    ensures !ok ==> r == []
    ensures ok ==> r == SortCategories(categories)
    ensures ok ==> multiset(r) == multiset(categories)
    ensures ok ==> forall i, j :: 0 <= i < j < |r| ==> Compare(r[i], r[j]) <= 0
  {
    SortedCategories(categories);
    if ok then SortCategories(categories) else []
  }

  /** `category.post_count || 0` */
  function PostCountShown(c: Category): (n: int)
    ensures c.postCount.None? ==> n == 0
    ensures c.postCount.Some? ==> n == c.postCount.value
  {
    if c.postCount.Some? && c.postCount.value != 0 then c.postCount.value else 0
  }
}
