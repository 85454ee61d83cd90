/**
 * What converting a block produces, as functions: the fragment it renders
 * to (nil for a chapter placed at the document root) and the bodies it adds
 * to the book.  The imperative converter is proved to compute exactly these.
 *
 * A container's `node.content` is Asciidoctor's (not part of this
 * repository): each child is converted in order and the results are joined
 * with a line feed, a nil result joining as an empty string.
 */
module Fb2Rendering {
  import opened Wrappers
  import opened Fb2Book
  import opened AsciidocTree
  import opened Fb2Templates

  /** Ruby's `parts.join("\n")`. */
  function Join(parts: seq<Option<string>>): string {
    if |parts| == 0 then ""
    else if |parts| == 1 then Text(parts[0])
    else Join(parts[..|parts| - 1]) + "\n" + Text(parts[|parts| - 1])
  }

  /** The result of converting `b`; `parentIsDocument` holds when `node.parent == node.document`. */
  function Render(b: Block, parentIsDocument: bool): Option<string> {
    match b
    case Paragraph(_) => Some(ConvertParagraph(b))
    case Listing(_) => Some(ConvertListing(b))
    case Section(title, blocks) =>
      if parentIsDocument then None else Some(SectionMarkup(title, Join(Renders(blocks, false))))
    case Preamble(_, blocks) =>
      if parentIsDocument then None else Some(Join(Renders(blocks, false)))
  }

  /** The results of converting each of `bs`, in order. */
  function Renders(bs: seq<Block>, parentIsDocument: bool): (rs: seq<Option<string>>)
    ensures |rs| == |bs|
  {
    if bs == [] then []
    else Renders(bs[..|bs| - 1], parentIsDocument) + [Render(bs[|bs| - 1], parentIsDocument)]
  }

  /** The `k`-th result is the conversion of the `k`-th block. */
  lemma {:induction false} RendersAt(bs: seq<Block>, parentIsDocument: bool, k: nat)
    requires k < |bs|
    ensures Renders(bs, parentIsDocument)[k] == Render(bs[k], parentIsDocument)
  {
    if k < |bs| - 1 {
      RendersAt(bs[..|bs| - 1], parentIsDocument, k);
    }
  }

  /** `node.content` of a container whose children are `bs`. */
  function Content(bs: seq<Block>, parentIsDocument: bool): string {
    Join(Renders(bs, parentIsDocument))
  }

  /** The body `add_chapter` builds from a chapter: its title and its (nested) content. */
  function ChapterBody(b: Block): (body: Body)
    requires b.IsChapter()
  {
    Body(b.title, Content(b.blocks, false))
  }

  /** The bodies converting `b` appends to the book. */
  function BodiesOf(b: Block, parentIsDocument: bool): seq<Body> {
    if parentIsDocument && b.IsChapter() then [ChapterBody(b)] else []
  }

  /** The bodies converting each of `bs` in order appends to the book. */
  function BodiesAll(bs: seq<Block>, parentIsDocument: bool): seq<Body> {
    if bs == [] then []
    else BodiesAll(bs[..|bs| - 1], parentIsDocument) + BodiesOf(bs[|bs| - 1], parentIsDocument)
  }

  /** Converting one more block extends the results and the bodies of the blocks before it. */
  lemma PrefixStep(bs: seq<Block>, i: nat, parentIsDocument: bool)
    requires i < |bs|
    ensures Renders(bs[..i + 1], parentIsDocument) == Renders(bs[..i], parentIsDocument) + [Render(bs[i], parentIsDocument)]
    ensures BodiesAll(bs[..i + 1], parentIsDocument) == BodiesAll(bs[..i], parentIsDocument) + BodiesOf(bs[i], parentIsDocument)
  {
    assert bs[..i + 1][..i] == bs[..i];
  }

  /** The sections and preambles among `bs`, in order. */
  function TopLevel(bs: seq<Block>): seq<Block> {
    if bs == [] then []
    else TopLevel(bs[..|bs| - 1]) + (if bs[|bs| - 1].IsChapter() then [bs[|bs| - 1]] else [])
  }

  /** `x` occurs in `y` starting at index `i`. */
  predicate InfixAt(x: string, y: string, i: int) {
    0 <= i <= |y| - |x| && y[i..i + |x|] == x
  }

  /** `y` contains `x` as a contiguous piece. */
  ghost predicate Infix(x: string, y: string) {
    exists i :: InfixAt(x, y, i)
  }

  /**
   * The placement rule: a block renders to nil exactly when it is a chapter
   * whose parent is the document.  A nested chapter renders inline and adds
   * no body; a top-level one adds exactly its one body.
   */
  lemma PlacementRule(b: Block, parentIsDocument: bool)
    ensures Render(b, parentIsDocument).None? <==> parentIsDocument && b.IsChapter()
    ensures !parentIsDocument ==> BodiesOf(b, parentIsDocument) == []
    ensures parentIsDocument && b.IsChapter() ==> BodiesOf(b, parentIsDocument) == [ChapterBody(b)]
    ensures b.Section? && !parentIsDocument ==>
      Render(b, parentIsDocument) == Some(SectionMarkup(b.title, Content(b.blocks, false)))
    ensures b.Preamble? && !parentIsDocument ==> Render(b, parentIsDocument) == Some(Content(b.blocks, false))
  {
  }

  /** Below the document root nothing becomes a body. */
  lemma {:induction false} NestedAddsNoBodies(bs: seq<Block>)
    ensures BodiesAll(bs, false) == []
  {
    if bs != [] {
      NestedAddsNoBodies(bs[..|bs| - 1]);
    }
  }

  /**
   * The bodies a walk over the document's blocks produces are exactly its
   * top-level sections and preambles, one body each, in document order.
   */
  lemma {:induction false} BodiesAreTopLevelChapters(bs: seq<Block>)
    ensures |BodiesAll(bs, true)| == |TopLevel(bs)|
    ensures forall k :: 0 <= k < |TopLevel(bs)| ==>
      TopLevel(bs)[k].IsChapter() && BodiesAll(bs, true)[k] == ChapterBody(TopLevel(bs)[k])
  {
    if bs != [] {
      BodiesAreTopLevelChapters(bs[..|bs| - 1]);
    }
  }

  /** A document with no top-level section or preamble yields no body at all: its content is lost. */
  lemma {:induction false} NoChaptersNoBodies(bs: seq<Block>)
    requires forall k :: 0 <= k < |bs| ==> !bs[k].IsChapter()
    ensures BodiesAll(bs, true) == []
  {
    if bs != [] {
      NoChaptersNoBodies(bs[..|bs| - 1]);
    }
  }

  /** An infix of `a` is an infix of any extension of `a`. */
  lemma InfixExtend(x: string, a: string, b: string)
    requires Infix(x, a)
    ensures Infix(x, a + b)
  {
    var i :| InfixAt(x, a, i);
    assert (a + b)[i..i + |x|] == a[i..i + |x|];
    assert InfixAt(x, a + b, i);
  }

  /** `x` is an infix of anything ending in `x`. */
  lemma InfixEnd(x: string, a: string)
    ensures Infix(x, a + x)
  {
    assert (a + x)[|a|..|a| + |x|] == x;
    assert InfixAt(x, a + x, |a|);
  }

  /** Every non-nil part appears in the joined string. */
  lemma {:induction false} JoinIncludes(parts: seq<Option<string>>, k: nat)
    requires k < |parts| && parts[k].Some?
    ensures Infix(parts[k].value, Join(parts))
  {
    var x := parts[k].value;
    var n := |parts|;
    if n == 1 {
      assert Join(parts) == "" + x;
      InfixEnd(x, "");
    } else {
      var init := parts[..n - 1];
      var tail := "\n" + Text(parts[n - 1]);
      assert Join(parts) == Join(init) + tail;
      if k == n - 1 {
        assert Join(init) + tail == (Join(init) + "\n") + x;
        InfixEnd(x, Join(init) + "\n");
      } else {
        assert init[k] == parts[k];
        JoinIncludes(init, k);
        InfixExtend(x, Join(init), tail);
      }
    }
  }

  /** Occurrence is transitive: a piece of a piece of `z` is a piece of `z`. */
  lemma InfixTrans(x: string, y: string, z: string)
    requires Infix(x, y) && Infix(y, z)
    ensures Infix(x, z)
  {
    var i :| InfixAt(x, y, i);
    var j :| InfixAt(y, z, j);
    assert forall t :: 0 <= t < |x| ==> z[j + i + t] == y[i + t] == x[t];
    assert InfixAt(x, z, j + i);
  }

  /** The content of a section is part of its `<section>` markup. */
  lemma ContentInsideMarkup(title: Option<string>, content: string)
    ensures Infix(content, SectionMarkup(title, content))
  {
    var open := "<section><title>" + Text(title) + "</title>";
    InfixEnd(content, open);
    InfixExtend(content, open + content, "</section>");
    assert SectionMarkup(title, content) == open + content + "</section>";
  }

  /**
   * The block reached from `b` by following `path`, one child index per
   * step through sections and preambles; None if the path leaves the tree.
   */
  function Descendant(b: Block, path: seq<nat>): (d: Option<Block>)
    decreases |path|
  {
    if path == [] then Some(b)
    else if b.IsChapter() && path[0] < |b.blocks| then Descendant(b.blocks[path[0]], path[1..])
    else None
  }

  /** The `k`-th child's rendering is part of a container's content. */
  lemma ChildInsideContent(bs: seq<Block>, k: nat)
    requires k < |bs|
    ensures Render(bs[k], false).Some?
    ensures Infix(Render(bs[k], false).value, Content(bs, false))
  {
    RendersAt(bs, false, k);
    JoinIncludes(Renders(bs, false), k);
  }

  /** Below the document root, every descendant's rendering is part of its ancestor's. */
  lemma {:induction false} DescendantInsideRender(b: Block, path: seq<nat>)
    requires Descendant(b, path).Some?
    ensures Render(Descendant(b, path).value, false).Some?
    ensures Infix(Render(Descendant(b, path).value, false).value, Render(b, false).value)
    decreases |path|
  {
    var d := Descendant(b, path).value;
    if path == [] {
      var x := Render(b, false).value;
      assert x[0..|x|] == x;
      assert InfixAt(x, x, 0);
    } else {
      var c := b.blocks[path[0]];
      DescendantInsideRender(c, path[1..]);
      ChildInsideContent(b.blocks, path[0]);
      var inner := Content(b.blocks, false);
      if b.Section? {
        ContentInsideMarkup(b.title, inner);
        InfixTrans(Render(c, false).value, inner, Render(b, false).value);
      }
      InfixTrans(Render(d, false).value, Render(c, false).value, Render(b, false).value);
    }
  }

  /**
   * A section nested at any depth in a top-level chapter renders as
   * `<section>` markup, and that markup is part of the chapter's body.
   */
  lemma NestedSectionInsideBody(chapter: Block, path: seq<nat>)
    requires chapter.IsChapter() && |path| >= 1
    requires Descendant(chapter, path).Some? && Descendant(chapter, path).value.Section?
    ensures Render(Descendant(chapter, path).value, false)
      == Some(SectionMarkup(Descendant(chapter, path).value.title, Content(Descendant(chapter, path).value.blocks, false)))
    ensures Infix(Render(Descendant(chapter, path).value, false).value, ChapterBody(chapter).content)
  {
    var d := Descendant(chapter, path).value;
    var c := chapter.blocks[path[0]];
    assert Descendant(c, path[1..]) == Descendant(chapter, path);
    DescendantInsideRender(c, path[1..]);
    ChildInsideContent(chapter.blocks, path[0]);
    InfixTrans(Render(d, false).value, Render(c, false).value, ChapterBody(chapter).content);
  }

  /**
   * A two-chapter document: the preamble and the top-level section become the
   * two bodies, in order; the nested section is rendered inline, after a line
   * feed, inside the second body's content.
   */
  lemma ExampleChapters(hi: Block, par: Block, listing: Block)
    requires hi.Paragraph? && par.Paragraph? && listing.Listing?
    ensures BodiesAll([
        Preamble(None, [hi]),
        Section(Some("One"), [par, Section(Some("Sub"), [listing])])], true)
      == [Body(None, ConvertParagraph(hi)),
          Body(Some("One"), ConvertParagraph(par) + "\n" + SectionMarkup(Some("Sub"), ConvertListing(listing)))]
  {
    var pre := Preamble(None, [hi]);
    var sub := Section(Some("Sub"), [listing]);
    var one := Section(Some("One"), [par, sub]);
    assert [par, sub][..1] == [par] && [par][..0] == [] && [hi][..0] == [] && [listing][..0] == [];
    assert Renders([par], false) == [Some(ConvertParagraph(par))];
    assert Renders(one.blocks, false) == [Some(ConvertParagraph(par)), Render(sub, false)];
    assert Renders([hi], false) == [Some(ConvertParagraph(hi))];
    assert Renders([listing], false) == [Some(ConvertListing(listing))];
    var parts := Renders(one.blocks, false);
    assert parts[..1] == [Some(ConvertParagraph(par))];
    assert Join(parts) == ConvertParagraph(par) + "\n" + Text(Render(sub, false));
    assert Content(pre.blocks, false) == ConvertParagraph(hi);
    assert Content(sub.blocks, false) == ConvertListing(listing);
    assert Content(one.blocks, false) == ConvertParagraph(par) + "\n" + SectionMarkup(Some("Sub"), ConvertListing(listing));
    assert [pre, one][..1] == [pre] && [pre][..0] == [];
    assert BodiesAll([pre], true) == [ChapterBody(pre)];
  }
}
