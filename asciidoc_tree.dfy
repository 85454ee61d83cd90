/**
 * The parsed AsciiDoc document as the converter sees it: only the node
 * kinds the converter has a handler for.  Asciidoctor's parser and its
 * substitutions are not part of this model: every string here is what the
 * node's accessor returns after substitution.
 */
module AsciidocTree {
  import opened Wrappers

  /** An author entry of the document header (`Asciidoctor::Document::AuthorInfo`). */
  datatype AuthorInfo = AuthorInfo(
    firstname: Option<string>,
    middlename: Option<string>,
    lastname: Option<string>,
    email: Option<string>)

  /** Inline nodes inside a paragraph, and the plain text between them. */
  datatype Inline =
    | Plain(text: string)
    | Quoted(quoteType: string, text: string)
    | Image(target: string)

  /** Block nodes.  `title` is `node.title`, nil when the node has none. */
  datatype Block =
    | Section(title: Option<string>, blocks: seq<Block>)
    | Preamble(title: Option<string>, blocks: seq<Block>)
    | Paragraph(inlines: seq<Inline>)
    | Listing(content: string)
  {
    /** The kinds that `add_chapter` may turn into a book body. */
    predicate IsChapter() { Section? || Preamble? }
  }

  /** The document root: `node.doctitle`, `node.authors` and its blocks. */
  datatype Document = Document(doctitle: Option<string>, authors: seq<AuthorInfo>, blocks: seq<Block>)

  /** Number of block nodes in a tree; used only to show that conversion terminates. */
  function Size(b: Block): (n: nat)
    ensures n >= 1
  {
    match b
    case Section(_, bs) => 1 + SizeAll(bs)
    case Preamble(_, bs) => 1 + SizeAll(bs)
    case _ => 1
  }

  function SizeAll(bs: seq<Block>): nat {
    if bs == [] then 0 else Size(bs[0]) + SizeAll(bs[1..])
  }

  /** A block of a sequence is no larger than the whole sequence. */
  lemma {:induction false} SizeAllBound(bs: seq<Block>, k: nat)
    requires k < |bs|
    ensures Size(bs[k]) <= SizeAll(bs)
  {
    if k > 0 {
      SizeAllBound(bs[1..], k - 1);
    }
  }
}
