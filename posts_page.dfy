/** The public posts page: only its `truncateContent` helper, which shortens
    each post's text for the listing. */
module PostsPage {

  const DefaultMaxLength: nat := 150
  const Ellipsis := "..."

  /** `truncateContent(content, maxLength = 150)`: content of at most
      `maxLength` characters comes back as it is; longer content is cut to its
      first `maxLength` characters and "..." is appended. */
  function TruncateContent(content: string, maxLength: nat := DefaultMaxLength): (r: string)
    ensures |r| <= maxLength + |Ellipsis|
    ensures |content| <= maxLength ==> r == content
    ensures |content| > maxLength ==>
      && |r| == maxLength + |Ellipsis|
      && r[..maxLength] == content[..maxLength]
      && r[maxLength..] == Ellipsis
  {
    if |content| <= maxLength then content else content[..maxLength] + Ellipsis
  }

  /** Whatever `TruncateContent` returns, the part before an appended "..."
      is a prefix of the content. */
  lemma TruncatedIsPrefix(content: string, maxLength: nat)
    ensures var r := TruncateContent(content, maxLength);
      if |content| <= maxLength then r <= content
      else r[..|r| - |Ellipsis|] <= content && r[|r| - |Ellipsis|..] == Ellipsis
  {
  }

  /** Ending in "..." does not mean the content was cut: short content that
      already ends in "..." comes back whole. */
  lemma ShortContentMayEndInEllipsis()
    ensures var r := TruncateContent("abc...");
      r == "abc..." && r[|r| - |Ellipsis|..] == Ellipsis && |"abc..."| <= DefaultMaxLength
  {
  }

  /** The listing calls `truncateContent(post.content)`, so with the default
      limit: every excerpt shown is at most 153 characters long, and text of
      at most 150 characters is shown whole. */
  function ListingExcerpt(content: string): (r: string)
    ensures |r| <= 153
    ensures |content| <= 150 ==> r == content
    ensures |content| > 150 ==> r == content[..150] + "..."
  {
    TruncateContent(content)
  }
}
