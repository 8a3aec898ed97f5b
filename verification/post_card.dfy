/** What a post card (src/components/custom/blog-post-card.tsx) and the post
    page header (src/components/custom/post-detail-header.tsx) show besides
    the title: the reading time, the preview, the tag badges, the date and
    the view count.  Both components compute the reading time the same way;
    it is defined once here. */
module PostCard {
  import opened Common
  import opened Text
  import opened Display

  const WordsPerMinute: nat := 200

  /** `getPreview`'s default length. */
  const PreviewLength: nat := 120

  /** `content.split(' ').length`: pieces between single spaces, so runs of
      spaces count empty words and the empty text counts one. */
  function Words(content: Str): (n: nat)
    ensures n == CountChar(content, ' ') + 1
  {
    SplitCount(content, ' ');
    |Split(content, ' ')|
  }

  /** `Math.ceil(words / 200)` */
  function ReadTime(content: Str): (minutes: nat)
    ensures minutes >= 1
    ensures (minutes - 1) * WordsPerMinute < Words(content) <= minutes * WordsPerMinute
  {
    (Words(content) + WordsPerMinute - 1) / WordsPerMinute
  }

  /** Up to 200 words take one minute. */
  lemma ShortTextOneMinute(content: Str)
    ensures ReadTime(content) == 1 <==> Words(content) <= WordsPerMinute
  {
  }

  /** More words never take less time. */
  lemma ReadTimeMonotone(a: Str, b: Str)
    requires Words(a) <= Words(b)
    ensures ReadTime(a) <= ReadTime(b)
  {
  }

  /** Adding text never shortens the reading time. */
  lemma ReadTimeGrows(a: Str, b: Str)
    ensures ReadTime(a) <= ReadTime(a + b)
  {
    CountCharAppend(a, b, ' ');
    ReadTimeMonotone(a, a + b);
  }

  /** `getPreview(content)` */
  function CardPreview(content: Str): (r: Str)
    ensures |r| <= PreviewLength + |Ellipsis|
    ensures |content| <= PreviewLength ==> r == content
    ensures |content| > PreviewLength ==>
              |r| == PreviewLength + |Ellipsis| && StartsWith(content, r[..PreviewLength]) && r[PreviewLength..] == Ellipsis
  {
    Truncate(content, PreviewLength)
  }

  /** `post.published_at || post.created_at` */
  function DateShown(publishedAt: Option<Str>, createdAt: Str): Str
  {
    OrElse(publishedAt, createdAt)
  }

  /** `post.views || 0` */
  function ViewsShown(views: Option<int>): (r: int)
    ensures views.None? ==> r == 0
    ensures views.Some? ==> r == views.value
  {
    if views.Some? && views.value != 0 then views.value else 0
  }

  /** `post.tags && post.tags.length > 0 && <badges>` */
  function BadgeRow(tags: Option<seq<Str>>): (r: Option<TagBadges>)
    ensures r.None? <==> tags.None? || tags.value == []
    ensures r.Some? ==> r.value == TagOverflow(tags.value)
  {
    if tags.Some? && |tags.value| > 0 then Some(TagOverflow(tags.value)) else None
  }
}
