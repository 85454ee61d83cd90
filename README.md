# asciidoctor-fb2: the FB2 converter's node visitor

A model of `Asciidoctor::FB2::Converter` (`lib/asciidoctor_fb2.rb`), the
Asciidoctor backend that turns a parsed AsciiDoc document into an FB2rb book.
The converter has two parts, and so does the model:

- **String templates** (`templates.dfy`, module `Fb2Templates`). A paragraph
  becomes `<p>…</p>`, a listing `<p><code>…</code></p>`, inline quoted text
  `<code>…</code>` whatever its quote type, an inline image
  `<img xlink:href="…" />`, and a nested section
  `<section><title>…</title>…</section>`. Nothing is escaped. Each template is
  proved to be exactly its opening tag, the node's string verbatim and its
  closing tag. `Unwrap` recovers that string from the markup.
- **Chapter placement with a mutable book** (`converter.dfy`, class
  `Fb2Converter.Converter`). The `book` field stands for `@book`.
  - `ConvertDocument` creates a fresh `Fb2Book.Book`, copies the doctitle and
    the authors, walks the document's blocks, drops the resulting content
    string, and returns the book.
  - `AddChapter` appends one `Body(name, content)` to `book.bodies` when the
    node's parent is the document (the chapter's title becomes the body's
    name), and otherwise returns nil without touching
    anything.
  - `ConvertSection` and `ConvertPreamble` render to nil once their node has
    become a body. Otherwise a section renders as `<section>` markup and a
    preamble as its bare content.

  Every method's `ensures` ties its result and the book's new `bodies` to the
  functions of `rendering.dfy` (module `Fb2Rendering`):
  - `Render`: what a block converts to;
  - `BodiesOf` and `BodiesAll`: which bodies converting it appends.

  The lemmas there state the placement rule. The bodies are exactly the
  top-level sections and preambles, in document order. Nested sections never
  become bodies and, at any depth, appear inside their enclosing body's
  content. A document
  with no top-level section or preamble yields a book without bodies.

The document tree (`asciidoc_tree.dfy`) has only the node kinds the converter
handles: document, section, preamble, paragraph, listing, and the inline
quoted/image nodes inside a paragraph. Whether a node's parent is the document
(`node.parent != node.document` in the source) is passed down the walk as
`parentIsDocument`. It is true exactly for the document's direct children.
FB2rb's `Book`, `Body` and `Author` (`fb2_book.dfy`) are plain data; the
book's `description.title_info` is flattened into `bookTitle` and `authors`.
Ruby `nil` is `Option.None`; interpolating nil gives the empty string
(`Wrappers.Text`).

**Assumptions about Asciidoctor.** The following framework behaviour is not
part of this repository. It is modelled explicitly and is not cited as
behaviour of the converter:
- `node.content` of a container (document, section, preamble) converts each
  child in order and joins the results with a line feed. A nil result joins
  as the empty string, as Ruby's `Array#join` does. This is
  `Converter.NodeContent`, `Fb2Rendering.Content` and `Fb2Rendering.Join`.
- A paragraph's `node.content` is its text with every inline node replaced by
  the converter's output for it (`Fb2Templates.ParagraphContent`). A
  listing's content is taken as given.
- `node.convert` dispatches to the `convert_<name>` handler
  (`Converter.Convert`).

## Model

| member | source | states |
|---|---|---|
| Fb2Templates.ParagraphTemplate | lib/asciidoctor_fb2.rb:52-54 | a paragraph renders as exactly `<p>`, its content verbatim (no escaping), `</p>`, with nothing after it; `Unwrap` recovers the content |
| Fb2Templates.ListingTemplate | lib/asciidoctor_fb2.rb:56-58 | a listing renders as exactly `<p><code>`, its whole content verbatim (line breaks included, one block rather than one per line), `</code></p>`; the content is recoverable |
| Fb2Templates.InlineQuotedTemplate | lib/asciidoctor_fb2.rb:60-62 | inline quoted text renders as exactly `<code>`, the text, `</code>`, and the result is the same for every quote type |
| Fb2Templates.InlineImageTemplate | lib/asciidoctor_fb2.rb:64-66 | an inline image renders as exactly `<img xlink:href="`, the target unchanged, `" />` |
| Fb2Templates.SectionTemplate | lib/asciidoctor_fb2.rb:49 | a nested section's markup is `<section><title>`, its title, `</title>`, its content verbatim, `</section>`; the content is recoverable |
| Fb2Rendering.PlacementRule | lib/asciidoctor_fb2.rb:37-50 | a block renders to nil if and only if it is a section or preamble whose parent is the document; such a block adds exactly one body, its own; no nested block adds one; a nested section renders its `<section>` markup; a nested preamble renders its bare content |
| Fb2Rendering.NestedAddsNoBodies | lib/asciidoctor_fb2.rb:39 | converting any blocks below the document root appends no body |
| Fb2Rendering.BodiesAreTopLevelChapters | lib/asciidoctor_fb2.rb:33-42 | walking the document's blocks appends one body per top-level section or preamble, in document order, each built from that node's title and nested content |
| Fb2Rendering.NoChaptersNoBodies | lib/asciidoctor_fb2.rb:33-41 | a document with no top-level section or preamble gets no body: its top-level paragraphs and listings are lost with the discarded content |
| Fb2Rendering.DescendantInsideRender | lib/asciidoctor_fb2.rb:44-50 | below the document root, every block reached by a path of child indices renders to something, and, given the modelled `node.content` join (`Fb2Rendering.Join`), that rendering is part of its ancestor's rendering (a preamble's content, or a section's `<section>` markup) |
| Fb2Rendering.NestedSectionInsideBody | lib/asciidoctor_fb2.rb:41-49 | a section nested at any depth in a top-level chapter renders as its `<section>` markup, and, given the modelled `node.content` join (`Fb2Rendering.Join`), that markup appears inside the chapter's body content |
| Fb2Rendering.ExampleChapters | lib/asciidoctor_fb2.rb:37-58 | a document made of a preamble and a section holding a paragraph and a nested section yields exactly two bodies, with the nested section's markup inline in the second; the line feed before it is the separator of the modelled `node.content` join (`Fb2Rendering.Join`), not of the cited lines |
| Fb2Converter.NewAuthor | lib/asciidoctor_fb2.rb:24-31 | an FB2 author keeps the first, middle and last names and has no nickname and no home pages; its emails are empty when the email is nil and otherwise hold exactly that email |
| Fb2Book.Book.constructor | lib/asciidoctor_fb2.rb:21 | a new book has no title, no authors and no bodies |
| Fb2Converter.Converter.ConvertDocument | lib/asciidoctor_fb2.rb:20-35 | returns a fresh book, which becomes `@book`, with the doctitle as book title; its authors match the document's authors one for one, in the same order, each built by `NewAuthor`; its bodies are exactly those the walk over the blocks appends; a book from an earlier conversion is unchanged |
| Fb2Converter.Converter.AddChapter | lib/asciidoctor_fb2.rb:37-42 | returns nil if and only if the parent is not the document, and then leaves the bodies unchanged; otherwise appends exactly one body, named by the chapter's title and holding its content, after the existing bodies and returns the new list; authors and title unchanged |
| Fb2Converter.Converter.ConvertPreamble | lib/asciidoctor_fb2.rb:44-46 | a nested preamble renders its content and adds no body; a top-level one renders nil and adds its body |
| Fb2Converter.Converter.ConvertSection | lib/asciidoctor_fb2.rb:48-50 | a nested section renders `<section><title>…</title>…</section>` and adds no body; a top-level one renders nil and adds its body |

## Left out

- `write`, `initialize`, `register_for` and `outfilesuffix` (lib/asciidoctor_fb2.rb:13-18, 68-70): output I/O and framework registration.
- Asciidoctor's parser, its substitutions and its `node.content` machinery are not part of this model. Strings in the tree are what the node accessors return. How children are combined is stated as an assumption, described above.
- FB2rb's `Book`, `Body` and `Author` are not part of this model beyond the fields the converter sets. Their XML and zip writing, and so byte-identical output across runs, are out of scope.
- Cover images and embedded binaries: the converter has no code for them.
- Node kinds without a `convert_*` handler (lists, tables, quotes, footnotes, and others) are not in the tree. Asciidoctor's behaviour for a missing handler is not modelled.
- Fb2Converter.Converter.ConvertSection: requires `book` to be set. In the source a nested section also converts while `@book` is nil, but the only caller is the content walk of `convert_document`, which sets `@book` first.
- Fb2Converter.Converter.ConvertPreamble: requires `book` to be set, for the same reason as `ConvertSection`.
- Fb2Converter.Converter.AddChapter: requires `book` to be set when the parent is the document. In the source a nil `@book` there raises `NoMethodError` at line 41; that error path is not modelled.
- Fb2Converter.Converter.Convert: requires `book` to be set, for the same reason as `ConvertSection`.
- Fb2Converter.Converter.NodeContent: requires `book` to be set, for the same reason as `ConvertSection`.
- The converter has no `<empty-line/>` separators, no per-line listing paragraphs, no per-quote-type tags (every quote type is `<code>`), no image resources (an inline image is a raw `<img xlink:href>`), no footnotes or notes body, and no single body around the whole document: it makes one body per top-level section or preamble and discards all other top-level content. The model has none of these either.
