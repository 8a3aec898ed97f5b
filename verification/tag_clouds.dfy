/** The tag cloud of the sidebar (src/components/custom/sidebar/tag-clouds.tsx):
    the badge size of each tag, the link of a tag, the total under the cloud,
    and when the empty message shows instead. */
module TagClouds {
  import opened Common
  import opened Text
  import Sorting
  import Posts

  datatype Size = Sm | Md | Lg

  datatype TagItem = TagItem(name: Str, count: nat, size: Size)

  const TagPathPrefix: Str := "/blog/tag/"

  /** `count >= 3 ? 'lg' : count >= 2 ? 'md' : 'sm'` */
  function SizeOf(count: int): (s: Size)
    ensures s == Lg <==> count >= 3
    ensures s == Md <==> count == 2
    ensures s == Sm <==> count <= 1
  {
    if count >= 3 then Lg else if count >= 2 then Md else Sm
  }

  /** `data.map(tag => ({ ...tag, size }))` */
  function Items(data: seq<Posts.TagCount>): (r: seq<TagItem>)
    ensures |r| == |data|
    ensures forall i :: 0 <= i < |r| ==>
              r[i].name == data[i].name && r[i].count == data[i].count && r[i].size == SizeOf(data[i].count)
  {
    if data == [] then [] else [TagItem(data[0].name, data[0].count, SizeOf(data[0].count))] + Items(data[1..])
  }

  /** `tags.reduce((sum, tag) => sum + tag.count, 0)` */
  function Total(items: seq<TagItem>): nat {
    if items == [] then 0 else items[0].count + Total(items[1..])
  }

  lemma {:induction false} TotalOfItems(data: seq<Posts.TagCount>)
    ensures Total(Items(data)) == Sorting.SumKeys(data, Posts.CountKey)
  {
    if data != [] {
      TotalOfItems(data[1..]);
      assert Items(data)[1..] == Items(data[1..]);
    }
  }

  /** `data && !error`: the tags shown, in the order and with the counts
      of the data. */
  function Cloud(data: Option<seq<Posts.TagCount>>, error: Option<Str>): (r: seq<TagItem>)
    ensures data.Some? && !(error.Some? && error.value != []) ==> r == Items(data.value)
    ensures data.None? || (error.Some? && error.value != []) ==> r == []
  {
    if data.Some? && !(error.Some? && error.value != []) then Items(data.value) else []
  }

  /** `error || tags.length === 0` selects the empty message. */
  predicate ShowsNoTags(items: seq<TagItem>, error: Option<Str>) {
    (error.Some? && error.value != []) || items == []
  }

  /** The cloud of `getTags`' answer counts every tag occurrence of the
      published posts once: the total under the cloud is their number. */
  lemma CloudTotalIsOccurrences(tagLists: seq<seq<Str>>)
    ensures var data := Sorting.Sort(Posts.TagCounts(tagLists), Posts.CountKey);
            Total(Cloud(Some(data), None)) == |Posts.Flatten(tagLists)|
  {
    var data := Sorting.Sort(Posts.TagCounts(tagLists), Posts.CountKey);
    TotalOfItems(data);
    Posts.TagCountsSum(tagLists);
  }

  /** The cloud lists the largest tags first, so badge sizes never grow
      along it. */
  lemma CloudSizesDescend(tagLists: seq<seq<Str>>)
    ensures var items := Cloud(Some(Sorting.Sort(Posts.TagCounts(tagLists), Posts.CountKey)), None);
            forall i, j :: 0 <= i < j < |items| ==> SizeRank(items[i].size) >= SizeRank(items[j].size)
  {
    Posts.TagCountsSorted(tagLists);
  }

  function SizeRank(s: Size): nat {
    match s
    case Sm => 0
    case Md => 1
    case Lg => 2
  }

  /** `/blog/tag/${name.toLowerCase().replace(/\s+/g, '-')}` */
  function TagPath(name: Str): (r: Str)
    ensures StartsWith(r, TagPathPrefix)
    ensures forall i :: |TagPathPrefix| <= i < |r| ==> !IsSpace(r[i]) && !IsUpperAscii(r[i])
  {
    PathParts(name);
    TagPathPrefix + CollapseRuns(Lower(name), IsSpace, '-')
  }

  lemma PathParts(name: Str)
    ensures var r := TagPathPrefix + CollapseRuns(Lower(name), IsSpace, '-');
            StartsWith(r, TagPathPrefix) &&
            forall i :: |TagPathPrefix| <= i < |r| ==> !IsSpace(r[i]) && !IsUpperAscii(r[i])
  {
    var lowered := Lower(name);
    var slug := CollapseRuns(lowered, IsSpace, '-');
    var r := TagPathPrefix + slug;
    CollapseRunsChars(lowered, IsSpace, '-');
    forall i | |TagPathPrefix| <= i < |r| ensures !IsSpace(r[i]) && !IsUpperAscii(r[i]) {
      var c := slug[i - |TagPathPrefix|];
      assert r[i] == c;
      if c != '-' {
        var k :| 0 <= k < |lowered| && lowered[k] == c;
      }
    }
  }

  /** Names that differ only in letter case share one path. */
  lemma TagPathFolds(name: Str)
    ensures TagPath(Lower(name)) == TagPath(name)
  {
    assert Lower(Lower(name)) == Lower(name);
  }
}
