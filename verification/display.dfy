/** Rendering rules shared by the post cards and both search result views:
    the tag-badge overflow and the truncation of text with an ellipsis. */
module Display {
  import opened Common
  import opened Text

  /** Cards show at most this many tag badges. */
  const MaxTagBadges: nat := 3

  const Ellipsis: Str := "..."

  /** The badges of a tag list: the first three tags, then `+(n-3)` when
      there are more. */
  datatype TagBadges = TagBadges(shown: seq<Str>, more: Option<nat>)

  /** `tags.slice(0, 3)` plus `{tags.length > 3 && +{tags.length - 3}}` */
  function TagOverflow(tags: seq<Str>): (r: TagBadges)
    ensures |r.shown| <= MaxTagBadges && |r.shown| <= |tags| && r.shown == tags[..|r.shown|]
    ensures r.more.Some? <==> |tags| > MaxTagBadges
    ensures r.more.None? ==> r.shown == tags
    ensures |r.shown| + (if r.more.Some? then r.more.value else 0) == |tags|
  {
    if |tags| > MaxTagBadges then TagBadges(tags[..MaxTagBadges], Some(|tags| - MaxTagBadges))
    else TagBadges(tags, None)
  }

  /** `content.length <= max ? content : content.substring(0, max) + '...'` */
  function Truncate(content: Str, max: nat): (r: Str)
    ensures |content| <= max ==> r == content
    ensures |content| > max ==>
              |r| == max + |Ellipsis| && r[..max] == content[..max] && r[max..] == Ellipsis
    ensures |r| <= max + |Ellipsis|
  {
    if |content| <= max then content else content[..max] + Ellipsis
  }

  /** Truncation keeps a prefix: dropping the ellipsis from a truncated
      text gives the start of the original. */
  lemma TruncateIsPrefix(content: Str, max: nat)
    ensures var r := Truncate(content, max);
            r == content || (|content| > max && StartsWith(content, r[..|r| - |Ellipsis|]))
  {
  }

  /** `content.slice(0, max) + '...'`, ellipsis or not. */
  function Preview(content: Str, max: nat): (r: Str)
    ensures |r| == (if |content| <= max then |content| else max) + |Ellipsis|
    ensures StartsWith(content, r[..|r| - |Ellipsis|]) && r[|r| - |Ellipsis|..] == Ellipsis
  {
    Take(content, max) + Ellipsis
  }

  /** The unconditional preview differs from the conditional truncation
      exactly for short content. */
  lemma PreviewVersusTruncate(content: Str, max: nat)
    ensures Preview(content, max) == Truncate(content, max) <==> |content| > max
  {
    if |content| <= max {
      assert |Preview(content, max)| > |Truncate(content, max)|;
    }
  }
}
