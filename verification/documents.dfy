/**
  The value shapes of the document store: Author, Document and SearchRequest.
  Every Java reference field may be null, so every field is an Option.
  A java.time.Instant is an integer timestamp on a single time line, counted
  in seconds; only its order is ever used.
*/
module Documents {
  import opened Wrappers

  type Instant = int

  datatype Author = Author(id: Option<string>, name: Option<string>)

  datatype Document = Document(
    id: Option<string>,
    title: Option<string>,
    content: Option<string>,
    author: Option<Author>,
    created: Option<Instant>)

  /** Five independently optional criteria, combined with AND by a search. */
  datatype SearchRequest = SearchRequest(
    titlePrefixes: Option<seq<string>>,
    containsContents: Option<seq<string>>,
    authorIds: Option<seq<string>>,
    createdFrom: Option<Instant>,
    createdTo: Option<Instant>)

  /** A request built with no field set: every criterion absent. */
  const EMPTY_REQUEST := SearchRequest(None, None, None, None, None)

  /** The id is null or the empty string, so save must generate one. */
  predicate IdMissing(d: Document) {
    d.id.None? || d.id.value == ""
  }
}
