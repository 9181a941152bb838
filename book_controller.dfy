/** The book handlers: list, fetch by id, add, update, delete and search,
    over the books table of the store. */
module BookController {
  import opened Common
  import opened BookModel
  import opened Store

  const BookNotFound := "Book not found"
  const MissingFields := "Please provide title, author, and ISBN"
  const BookDeleted := "Book deleted successfully"
  const NoBooksFound := "No books found"

  /** The fields `addBook` and `updateBook` take from the request body. */
  datatype BookBody = BookBody(
    title: Option<string>,
    author: Option<string>,
    isbn: Option<string>,
    publishedDate: Option<string>,
    genre: Option<string>)

  const EmptyBody := BookBody(None, None, None, None, None)

  /** The guard of `addBook`: title, author and isbn are all truthy. */
  predicate HasRequired(body: BookBody)
  {
    TruthyString(body.title) && TruthyString(body.author) && TruthyString(body.isbn)
  }

  /** The document `addBook` builds from the body and the `addedBy` it read. */
  function NewDraft(body: BookBody, addedBy: Option<Id>): Draft
  {
    Draft(body.title, body.author, body.isbn, body.publishedDate, body.genre, addedBy)
  }

  /** The record `updateBook` makes of a stored book: each field takes the new
      value when it is truthy and keeps the old one otherwise. */
  function Merge(b: Book, body: BookBody): Book
  {
    b.(title := OrString(body.title, b.title),
       author := OrString(body.author, b.author),
       isbn := OrString(body.isbn, b.isbn),
       publishedDate := OrOptString(body.publishedDate, b.publishedDate),
       genre := OrOptString(body.genre, b.genre))
  }

  /** A book matches a search when its title, author or isbn matches the
      query; `matches(field, query)` stands for the store's case-insensitive
      regular-expression test. */
  predicate BookMatches(b: Book, query: string, matches: (string, string) -> bool)
  {
    matches(b.title, query) || matches(b.author, query) || matches(b.isbn, query)
  }

  function MatchingBooks(books: map<Id, Book>, query: string, matches: (string, string) -> bool): map<Id, Book>
  {
    map id | id in books && BookMatches(books[id], query, matches) :: books[id]
  }

  /** `getBooks`: every stored book. */
  method GetBooks(db: Database) returns (r: Response<map<Id, Book>>)
    ensures r.status == 200 && r.message == None
    ensures r.payload == Some(db.books)
  {
    r := Json(200, db.books);
  }

  /** `getBookById`: the stored record, or 404 when the id is absent. */
  method GetBookById(db: Database, id: Id) returns (r: Response<(Id, Book)>)
    ensures id !in db.books ==> r == Message(404, BookNotFound)
    ensures id in db.books ==> r == Json(200, (id, db.books[id]))
  {
    if id !in db.books {
      return Message(404, BookNotFound);
    }
    r := Json(200, (id, db.books[id]));
  }

  /** The part of `addBook` after the guard is passed the value it reads for
      `addedBy`: the check of the three required fields, the construction of
      the document and its `save`, where a rejection becomes a 500. */
  method CreateBook(db: Database, body: BookBody, addedBy: Option<Id>) returns (r: Response<(Id, Book)>)
    requires db.Valid()
    modifies db
    ensures db.Valid()
    ensures !HasRequired(body) ==> r == Message(400, MissingFields) && unchanged(db)
    ensures HasRequired(body) && Save(NewDraft(body, addedBy), old(db.books)).None? ==>
      r == Message(500, ServerError) && unchanged(db)
    ensures HasRequired(body) && Save(NewDraft(body, addedBy), old(db.books)).Some? ==>
      var b := Save(NewDraft(body, addedBy), old(db.books)).value;
      && r == Json(201, (old(db.nextId), b))
      && old(db.nextId) !in old(db.books)
      && db.books == old(db.books)[old(db.nextId) := b]
      && db.reviews == old(db.reviews) && db.users == old(db.users)
  {
    if !HasRequired(body) {
      return Message(400, MissingFields);
    }
    var saved := Save(NewDraft(body, addedBy), db.books);
    if saved.None? {
      return Message(500, ServerError);
    }
    var id := db.NewId();
    assert db.books - {id} == db.books;
    SaveKeepsBooksValid(NewDraft(body, addedBy), db.books, id);
    db.books := db.books[id := saved.value];
    r := Json(201, (id, saved.value));
  }

  /** `addBook` with `addedBy` taken from the caller's `_id`: 400 when title,
      author or isbn is missing or empty, 500 when the isbn is already used,
      and otherwise a new book holding exactly the supplied fields. */
  method AddBook(db: Database, body: BookBody, caller: Caller) returns (r: Response<(Id, Book)>)
    requires db.Valid()
    modifies db
    ensures db.Valid()
    ensures !HasRequired(body) ==> r == Message(400, MissingFields) && unchanged(db)
    ensures HasRequired(body) && IsbnTaken(old(db.books), body.isbn.value) ==>
      r == Message(500, ServerError) && unchanged(db)
    ensures HasRequired(body) && !IsbnTaken(old(db.books), body.isbn.value) ==>
      var b := Book(body.title.value, body.author.value, body.isbn.value,
                    body.publishedDate, body.genre, caller.id);
      && r == Json(201, (old(db.nextId), b))
      && old(db.nextId) !in old(db.books)
      && db.books == old(db.books)[old(db.nextId) := b]
      && db.reviews == old(db.reviews) && db.users == old(db.users)
  {
    r := CreateBook(db, body, Some(caller.id));
  }

  /** What reading `req.user.userId` yields: the user document `protect`
      attaches carries its identifier as `_id` and has no `userId` path. */
  function UserIdPath(caller: Caller): Option<Id>
  {
    None
  }

  /** `addBook` as written: `addedBy` is read from `req.user.userId`, which is
      unset, so the `required` validator on addedBy rejects every document
      and no request can add a book. */
  method AddBookAsWritten(db: Database, body: BookBody, caller: Caller) returns (r: Response<(Id, Book)>)
    requires db.Valid()
    modifies db
    ensures db.Valid()
    ensures r == if HasRequired(body) then Message(500, ServerError) else Message(400, MissingFields)
    ensures unchanged(db)
  {
    r := CreateBook(db, body, UserIdPath(caller));
  }

  /** `updateBook`: 404 for an unknown id; otherwise the fields are assigned
      one by one under the truthy rule and the record is saved, which the
      unique index rejects (500) when the new isbn belongs to another book. */
  method UpdateBook(db: Database, id: Id, body: BookBody) returns (r: Response<(Id, Book)>)
    requires db.Valid()
    modifies db
    ensures db.Valid()
    ensures id !in old(db.books) ==> r == Message(404, BookNotFound) && unchanged(db)
    ensures id in old(db.books) && IsbnTaken(old(db.books) - {id}, Merge(old(db.books)[id], body).isbn) ==>
      r == Message(500, ServerError) && unchanged(db)
    ensures id in old(db.books) && !IsbnTaken(old(db.books) - {id}, Merge(old(db.books)[id], body).isbn) ==>
      && r == Json(200, (id, Merge(old(db.books)[id], body)))
      && db.books == old(db.books)[id := Merge(old(db.books)[id], body)]
      && db.reviews == old(db.reviews) && db.users == old(db.users) && db.nextId == old(db.nextId)
  {
    if id !in db.books {
      return Message(404, BookNotFound);
    }
    var book := db.books[id];
    book := book.(title := OrString(body.title, book.title));
    book := book.(author := OrString(body.author, book.author));
    book := book.(isbn := OrString(body.isbn, book.isbn));
    book := book.(publishedDate := OrOptString(body.publishedDate, book.publishedDate));
    book := book.(genre := OrOptString(body.genre, book.genre));
    assert book == Merge(db.books[id], body);
    MergeKeepsWellFormed(db.books[id], body);
    var saved := Save(AsDraft(book), db.books - {id});
    SaveStored(book, db.books - {id});
    if saved.None? {
      return Message(500, ServerError);
    }
    SaveKeepsBooksValid(AsDraft(book), db.books, id);
    db.books := db.books[id := saved.value];
    r := Json(200, (id, saved.value));
  }

  /** `deleteBook`: 404 for an unknown id; otherwise exactly that book goes. */
  method DeleteBook(db: Database, id: Id) returns (r: Response<Book>)
    requires db.Valid()
    modifies db
    ensures db.Valid()
    ensures id !in old(db.books) ==> r == Message(404, BookNotFound) && unchanged(db)
    ensures id in old(db.books) ==>
      && r == Message(200, BookDeleted)
      && db.books == old(db.books) - {id}
      && db.reviews == old(db.reviews) && db.users == old(db.users) && db.nextId == old(db.nextId)
  {
    if id !in db.books {
      return Message(404, BookNotFound);
    }
    db.books := db.books - {id};
    r := Message(200, BookDeleted);
  }

  /** `searchBooks`: 404 exactly when no book matches the query, otherwise
      200 with exactly the matching books. */
  method SearchBooks(db: Database, query: string, matches: (string, string) -> bool)
    returns (r: Response<map<Id, Book>>)
    ensures r.status == 404 <==> forall id :: id in db.books ==> !BookMatches(db.books[id], query, matches)
    ensures r.status == 404 ==> r == Message(404, NoBooksFound)
    ensures r.status != 404 ==>
      && r.status == 200 && r.message == None && r.payload.Some?
      && (forall id :: id in r.payload.value <==> id in db.books && BookMatches(db.books[id], query, matches))
      && (forall id :: id in r.payload.value ==> r.payload.value[id] == db.books[id])
  {
    var found := MatchingBooks(db.books, query, matches);
    if |found| == 0 {
      assert forall id :: id in db.books ==> (id in found <==> BookMatches(db.books[id], query, matches));
      return Message(404, NoBooksFound);
    }
    var some :| some in found;
    assert some in db.books && BookMatches(db.books[some], query, matches);
    r := Json(200, found);
  }

  /** Each field of the merged record is the new value when that is truthy
      and the old value otherwise; `addedBy` never changes. */
  lemma MergeRule(b: Book, body: BookBody)
    ensures var m := Merge(b, body);
      && (TruthyString(body.title) ==> m.title == body.title.value)
      && (!TruthyString(body.title) ==> m.title == b.title)
      && (TruthyString(body.author) ==> m.author == body.author.value)
      && (!TruthyString(body.author) ==> m.author == b.author)
      && (TruthyString(body.isbn) ==> m.isbn == body.isbn.value)
      && (!TruthyString(body.isbn) ==> m.isbn == b.isbn)
      && (TruthyString(body.publishedDate) ==> m.publishedDate == body.publishedDate)
      && (!TruthyString(body.publishedDate) ==> m.publishedDate == b.publishedDate)
      && (TruthyString(body.genre) ==> m.genre == body.genre)
      && (!TruthyString(body.genre) ==> m.genre == b.genre)
      && m.addedBy == b.addedBy
  {
  }

  /** An update with an empty body changes nothing. */
  lemma MergeEmptyBody(b: Book)
    ensures Merge(b, EmptyBody) == b
  {
  }

  /** Applying the same body twice gives what applying it once gives. */
  lemma MergeIdempotent(b: Book, body: BookBody)
    ensures Merge(Merge(b, body), body) == Merge(b, body)
  {
  }

  /** An update never empties a required field. */
  lemma MergeKeepsWellFormed(b: Book, body: BookBody)
    requires WellFormed(b)
    ensures WellFormed(Merge(b, body))
  {
  }

  /** What `addBook` stores is what it was given. */
  lemma CreatedBookFields(body: BookBody, caller: Caller, books: map<Id, Book>)
    requires HasRequired(body) && !IsbnTaken(books, body.isbn.value)
    ensures Save(NewDraft(body, Some(caller.id)), books)
         == Some(Book(body.title.value, body.author.value, body.isbn.value,
                      body.publishedDate, body.genre, caller.id))
  {
  }

  /** As written, the document `addBook` builds is always rejected by `save`. */
  lemma AsWrittenDraftRejected(body: BookBody, caller: Caller, books: map<Id, Book>)
    ensures Save(NewDraft(body, UserIdPath(caller)), books) == None
  {
  }
}
