/**
 * The parts of an FB2rb book that the converter fills in, as plain data.
 * FB2rb itself (its XML writer and the rest of its description fields) is
 * not part of this model; `description.title_info` is flattened into the
 * book's own fields.
 */
module Fb2Book {
  import opened Wrappers

  /** `FB2rb::Author.new(first, middle, last, nickname, home_pages, emails)`. */
  datatype Author = Author(
    firstName: Option<string>,
    middleName: Option<string>,
    lastName: Option<string>,
    nickname: Option<string>,
    homePages: seq<string>,
    emails: seq<string>)

  /**
   * `FB2rb::Body.new(name, content)`: one body of the book.  The converter
   * passes the chapter's title as the body's optional name.
   */
  datatype Body = Body(name: Option<string>, content: string)

  /** An `FB2rb::Book`; the converter appends to `authors` and `bodies` in place. */
  class Book {
    var bookTitle: Option<string>
    var authors: seq<Author>
    var bodies: seq<Body>

    /** `FB2rb::Book.new`: a book with no title, no authors and no bodies. */
    constructor ()
      ensures bookTitle == None && authors == [] && bodies == []
    {
      bookTitle := None;
      authors := [];
      bodies := [];
    }
  }
}
