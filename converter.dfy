/**
 * The FB2 converter: `Asciidoctor::FB2::Converter` with its `@book`
 * accumulator.  Converting a document creates a fresh book; converting a
 * section or preamble whose parent is the document appends one body to it
 * and renders to nil; everything else renders to a string.
 */
module Fb2Converter {
  import opened Wrappers
  import opened Fb2Book
  import opened AsciidocTree
  import opened Fb2Templates
  import opened Fb2Rendering

  /** The `FB2rb::Author` built for one document author: no nickname, no home pages, at most one email. */
  function NewAuthor(a: AuthorInfo): (r: Author)
    ensures r.firstName == a.firstname && r.middleName == a.middlename && r.lastName == a.lastname
    ensures r.nickname == None && r.homePages == []
    ensures |r.emails| <= 1 && (r.emails == [] <==> a.email.None?)
    ensures a.email.Some? ==> r.emails[0] == a.email.value
  {
    Author(a.firstname, a.middlename, a.lastname, None, [], if a.email.None? then [] else [a.email.value])
  }

  class Converter {
    /** `@book`: nil until the first document is converted. */
    var book: Book?

    /**
     * `convert_document`: a fresh book with the document's title and
     * authors; walking the content fills in its bodies, the content string
     * itself is dropped, and the book is the result.  A book from an earlier
     * conversion is left as it was.
     */
    method ConvertDocument(node: Document) returns (b: Book)
      modifies this
      ensures fresh(b) && book == b
      ensures b.bookTitle == node.doctitle
      ensures |b.authors| == |node.authors|
      ensures forall k :: 0 <= k < |node.authors| ==> b.authors[k] == NewAuthor(node.authors[k])
      ensures b.bodies == BodiesAll(node.blocks, true)
      ensures old(book) != null ==> unchanged(old(book))
    {
      book := new Book();
      book.bookTitle := node.doctitle;
      var i := 0;
      while i < |node.authors|
        invariant 0 <= i <= |node.authors|
        invariant fresh(book)
        invariant book.bookTitle == node.doctitle && book.bodies == []
        invariant |book.authors| == i
        invariant forall k :: 0 <= k < i ==> book.authors[k] == NewAuthor(node.authors[k])
      {
        book.authors := book.authors + [NewAuthor(node.authors[i])];
        i := i + 1;
      }
      var discarded := NodeContent(node.blocks, true);
      b := book;
    }

    /**
     * `add_chapter`: nil for a node whose parent is not the document;
     * otherwise appends a body named by the node's title and holding its
     * content to the book's bodies and returns them.
     */
    method AddChapter(node: Block, parentIsDocument: bool) returns (r: Option<seq<Body>>)
      requires node.IsChapter()
      requires parentIsDocument ==> book != null
      modifies book
      decreases Size(node), 0
      ensures r.Some? <==> parentIsDocument
      ensures book != null ==> book.bodies == old(book.bodies) + (if parentIsDocument then [ChapterBody(node)] else [])
      ensures book != null ==> book.authors == old(book.authors) && book.bookTitle == old(book.bookTitle)
      ensures r.Some? ==> r.value == book.bodies
    {
      if !parentIsDocument {
        return None;
      }
      var content := NodeContent(node.blocks, false);
      NestedAddsNoBodies(node.blocks);
      book.bodies := book.bodies + [Body(node.title, content)];
      r := Some(book.bodies);
    }

    /** `convert_preamble`: the preamble's content when nested, nil once it has become a body. */
    method ConvertPreamble(node: Block, parentIsDocument: bool) returns (r: Option<string>)
      requires node.Preamble?
      requires book != null
      modifies book
      decreases Size(node), 1
      ensures !parentIsDocument ==> r == Some(Content(node.blocks, false))
      ensures parentIsDocument ==> r == None
      ensures book.bodies == old(book.bodies) + (if parentIsDocument then [ChapterBody(node)] else [])
      ensures book.authors == old(book.authors) && book.bookTitle == old(book.bookTitle)
    {
      var added := AddChapter(node, parentIsDocument);
      if added.None? {
        var content := NodeContent(node.blocks, false);
        NestedAddsNoBodies(node.blocks);
        r := Some(content);
      } else {
        r := None;
      }
    }

    /** `convert_section`: `<section>` markup when nested, nil once it has become a body. */
    method ConvertSection(node: Block, parentIsDocument: bool) returns (r: Option<string>)
      requires node.Section?
      requires book != null
      modifies book
      decreases Size(node), 1
      ensures !parentIsDocument ==> r == Some(SectionMarkup(node.title, Content(node.blocks, false)))
      ensures parentIsDocument ==> r == None
      ensures book.bodies == old(book.bodies) + (if parentIsDocument then [ChapterBody(node)] else [])
      ensures book.authors == old(book.authors) && book.bookTitle == old(book.bookTitle)
    {
      var added := AddChapter(node, parentIsDocument);
      if added.None? {
        var content := NodeContent(node.blocks, false);
        NestedAddsNoBodies(node.blocks);
        r := Some(SectionMarkup(node.title, content));
      } else {
        r := None;
      }
    }

    /**
     * Asciidoctor's dispatch on the node name (not part of this
     * repository): the `convert_<name>` handler for the node.
     */
    method Convert(node: Block, parentIsDocument: bool) returns (r: Option<string>)
      requires book != null
      modifies book
      decreases Size(node), 2
      ensures r == Render(node, parentIsDocument)
      ensures book.bodies == old(book.bodies) + BodiesOf(node, parentIsDocument)
      ensures book.authors == old(book.authors) && book.bookTitle == old(book.bookTitle)
    {
      match node
      case Paragraph(_) => r := Some(ConvertParagraph(node));
      case Listing(_) => r := Some(ConvertListing(node));
      case Section(_, _) => r := ConvertSection(node, parentIsDocument);
      case Preamble(_, _) => r := ConvertPreamble(node, parentIsDocument);
    }

    /**
     * Asciidoctor's `node.content` for a container (not part of this
     * repository): each child converted in order, the results joined with
     * a line feed.
     */
    method NodeContent(blocks: seq<Block>, parentIsDocument: bool) returns (s: string)
      requires book != null
      modifies book
      decreases SizeAll(blocks), 3
      ensures s == Content(blocks, parentIsDocument)
      ensures book.bodies == old(book.bodies) + BodiesAll(blocks, parentIsDocument)
      ensures book.authors == old(book.authors) && book.bookTitle == old(book.bookTitle)
    {
      var parts: seq<Option<string>> := [];
      var i := 0;
      ghost var bodies0 := book.bodies;
      ghost var authors0 := book.authors;
      ghost var title0 := book.bookTitle;
      while i < |blocks|
        invariant 0 <= i <= |blocks|
        invariant parts == Renders(blocks[..i], parentIsDocument)
        invariant book.bodies == bodies0 + BodiesAll(blocks[..i], parentIsDocument)
        invariant book.authors == authors0 && book.bookTitle == title0
      {
        SizeAllBound(blocks, i);
        PrefixStep(blocks, i, parentIsDocument);
        var b := blocks[i];
        var r := Convert(b, parentIsDocument);
        parts := parts + [r];
        i := i + 1;
      }
      assert blocks[..i] == blocks;
      s := Join(parts);
    }
  }
}
