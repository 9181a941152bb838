/** The book schema: a book document, the checks the store applies when a
    document is saved, and the invariant those checks keep on the table. */
module BookModel {
  import opened Common

  /** A stored book. `publishedDate` is kept as the opaque value it was given. */
  datatype Book = Book(
    title: string,
    author: string,
    isbn: string,
    publishedDate: Option<string>,
    genre: Option<string>,
    addedBy: Id)

  /** A book document before `save`: every path may still be unset. */
  datatype Draft = Draft(
    title: Option<string>,
    author: Option<string>,
    isbn: Option<string>,
    publishedDate: Option<string>,
    genre: Option<string>,
    addedBy: Option<Id>)

  /** The document a stored book is. */
  function AsDraft(b: Book): Draft
  {
    Draft(Some(b.title), Some(b.author), Some(b.isbn), b.publishedDate, b.genre, Some(b.addedBy))
  }

  /** The required paths of a stored book hold non-empty strings. */
  predicate WellFormed(b: Book)
  {
    b.title != "" && b.author != "" && b.isbn != ""
  }

  predicate IsbnTaken(books: map<Id, Book>, isbn: string)
  {
    exists id :: id in books && books[id].isbn == isbn
  }

  /** The table invariant: every book is well formed and no two books share an isbn. */
  predicate BooksValid(books: map<Id, Book>)
  {
    && (forall id :: id in books ==> WellFormed(books[id]))
    && (forall i, j :: i in books && j in books && books[i].isbn == books[j].isbn ==> i == j)
  }

  /** What `save` makes of a draft, given the other books of the table: the
      `required` validators reject a missing or empty title, author or isbn
      and a missing addedBy, and the unique index rejects an isbn another book
      already has. `None` is the rejection. */
  function Save(draft: Draft, others: map<Id, Book>): (r: Option<Book>)
    ensures r.Some? <==>
      && TruthyString(draft.title) && TruthyString(draft.author) && TruthyString(draft.isbn)
      && draft.addedBy.Some?
      && !IsbnTaken(others, draft.isbn.value)
    ensures r.Some? ==> AsDraft(r.value) == draft && WellFormed(r.value)
  {
    if TruthyString(draft.title) && TruthyString(draft.author) && TruthyString(draft.isbn)
       && draft.addedBy.Some? && !IsbnTaken(others, draft.isbn.value)
    then Some(Book(draft.title.value, draft.author.value, draft.isbn.value,
                   draft.publishedDate, draft.genre, draft.addedBy.value))
    else None
  }

  /** Saving a stored book again, against the other books, gives it back
      unless its isbn now collides. */
  lemma SaveStored(b: Book, others: map<Id, Book>)
    requires WellFormed(b)
    ensures Save(AsDraft(b), others) == if IsbnTaken(others, b.isbn) then None else Some(b)
  {
  }

  /** What `save` accepts keeps the table invariant, for a new id and for an
      id already in the table alike. */
  lemma SaveKeepsBooksValid(draft: Draft, books: map<Id, Book>, id: Id)
    requires BooksValid(books)
    requires Save(draft, books - {id}).Some?
    ensures BooksValid(books[id := Save(draft, books - {id}).value])
  {
    var b := Save(draft, books - {id}).value;
    forall k | k in books && k != id
      ensures books[k].isbn != b.isbn
    {
      assert k in books - {id};
    }
  }
}
