/**
 * The string templates of the FB2 converter: paragraph, listing, inline
 * quoted text, inline image and the markup of a nested section.  None of
 * them escapes anything: the node's string is spliced in verbatim.
 */
module Fb2Templates {
  import opened Wrappers
  import opened AsciidocTree

  /** `r` is exactly `open`, then `inner`, then `close`. */
  predicate Wraps(open: string, inner: string, close: string, r: string) {
    && |r| == |open| + |inner| + |close|
    && r[..|open|] == open
    && r[|open|..|open| + |inner|] == inner
    && r[|open| + |inner|..] == close
  }

  /** The inverse of the templates: the text between `open` and `close`, if `r` has both. */
  function Unwrap(open: string, close: string, r: string): (inner: Option<string>)
    ensures inner.Some? ==> Wraps(open, inner.value, close, r)
    ensures inner.Some? <==> exists s :: Wraps(open, s, close, r)
  {
    if |open| + |close| <= |r| && r[..|open|] == open && r[|r| - |close|..] == close
    then
      var inner := r[|open|..|r| - |close|];
      assert Wraps(open, inner, close, r);
      Some(inner)
    else None
  }

  /** Whatever a template wraps around a string, `Unwrap` gives that string back. */
  lemma UnwrapWraps(open: string, inner: string, close: string, r: string)
    requires Wraps(open, inner, close, r)
    ensures Unwrap(open, close, r) == Some(inner)
  {
  }

  /** `convert_inline_quoted`. */
  function ConvertInlineQuoted(node: Inline): string
    requires node.Quoted?
  {
    "<code>" + node.text + "</code>"
  }

  /** `convert_inline_image`. */
  function ConvertInlineImage(node: Inline): string
    requires node.Image?
  {
    "<img xlink:href=\"" + node.target + "\" />"
  }

  /**
   * A paragraph's `node.content`, as Asciidoctor computes it (not part of
   * this repository): its text with every inline node replaced by the
   * converter's output for that node.
   */
  function ParagraphContent(inlines: seq<Inline>): string {
    if inlines == [] then ""
    else
      var last := inlines[|inlines| - 1];
      ParagraphContent(inlines[..|inlines| - 1]) +
        match last
        case Plain(s) => s
        case Quoted(_, _) => ConvertInlineQuoted(last)
        case Image(_) => ConvertInlineImage(last)
  }

  /** `convert_paragraph`. */
  function ConvertParagraph(node: Block): string
    requires node.Paragraph?
  {
    "<p>" + ParagraphContent(node.inlines) + "</p>"
  }

  /** `convert_listing`. */
  function ConvertListing(node: Block): string
    requires node.Listing?
  {
    "<p><code>" + node.content + "</code></p>"
  }

  /** The markup `convert_section` gives a nested section. */
  function SectionMarkup(title: Option<string>, content: string): string {
    "<section><title>" + Text(title) + "</title>" + content + "</section>"
  }

  /** A paragraph is `<p>`, its content verbatim, `</p>`, and nothing else: no escaping, no separator. */
  lemma ParagraphTemplate(node: Block)
    requires node.Paragraph?
    ensures Wraps("<p>", ParagraphContent(node.inlines), "</p>", ConvertParagraph(node))
    ensures Unwrap("<p>", "</p>", ConvertParagraph(node)) == Some(ParagraphContent(node.inlines))
  {
  }

  /** A listing is one `<p><code>` block holding its whole content, line breaks included. */
  lemma ListingTemplate(node: Block)
    requires node.Listing?
    ensures Wraps("<p><code>", node.content, "</code></p>", ConvertListing(node))
    ensures Unwrap("<p><code>", "</code></p>", ConvertListing(node)) == Some(node.content)
  {
  }

  /** Inline quoted text is `<code>`, the text, `</code>`, whatever its quote type. */
  lemma InlineQuotedTemplate(node: Inline)
    requires node.Quoted?
    ensures Wraps("<code>", node.text, "</code>", ConvertInlineQuoted(node))
    ensures Unwrap("<code>", "</code>", ConvertInlineQuoted(node)) == Some(node.text)
    ensures forall t :: ConvertInlineQuoted(Quoted(t, node.text)) == ConvertInlineQuoted(node)
  {
  }

  /** An inline image is an `img` element whose `xlink:href` is the target, unchanged. */
  lemma InlineImageTemplate(node: Inline)
    requires node.Image?
    ensures Wraps("<img xlink:href=\"", node.target, "\" />", ConvertInlineImage(node))
    ensures Unwrap("<img xlink:href=\"", "\" />", ConvertInlineImage(node)) == Some(node.target)
  {
  }

  /** A nested section is its title inside `<section><title>`, then its content, then `</section>`. */
  lemma SectionTemplate(title: Option<string>, content: string)
    ensures Wraps("<section><title>" + Text(title) + "</title>", content, "</section>", SectionMarkup(title, content))
    ensures Unwrap("<section><title>" + Text(title) + "</title>", "</section>", SectionMarkup(title, content)) == Some(content)
  {
  }
}
