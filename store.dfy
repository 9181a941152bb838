/** The in-memory store that stands for the three collections, and the user
    and review records the handlers read and write. */
module Store {
  import opened Common
  import opened BookModel

  datatype User = User(email: string, password: string, role: string)

  /** A review belongs to one book and one user; rating and comment are kept
      as they were given. */
  datatype Review = Review(book: Id, user: Id, rating: Option<int>, comment: Option<string>)

  /** The user a request is made by (`req.user`): the stored user together
      with its `_id`. */
  datatype Caller = Caller(id: Id, user: User)

  /** The three collections. `nextId` stands for the store's id generator:
      every stored id is below it. */
  class Database {
    var books: map<Id, Book>
    var reviews: map<Id, Review>
    var users: map<Id, User>
    var nextId: Id

    ghost predicate Valid()
      reads this
    {
      && BooksValid(books)
      && (forall id :: id in books ==> id < nextId)
      && (forall id :: id in reviews ==> id < nextId)
      && (forall id :: id in users ==> id < nextId)
    }

    constructor (books: map<Id, Book>, reviews: map<Id, Review>, users: map<Id, User>, nextId: Id)
      requires BooksValid(books)
      requires forall id :: id in books ==> id < nextId
      requires forall id :: id in reviews ==> id < nextId
      requires forall id :: id in users ==> id < nextId
      ensures Valid()
      ensures this.books == books && this.reviews == reviews && this.users == users
      ensures this.nextId == nextId
    {
      this.books := books;
      this.reviews := reviews;
      this.users := users;
      this.nextId := nextId;
    }

    /** A fresh id, used by none of the three collections. */
    method NewId() returns (id: Id)
      requires Valid()
      modifies this`nextId
      ensures Valid()
      ensures id == old(nextId) && nextId == id + 1
      ensures id !in books && id !in reviews && id !in users
    {
      id := nextId;
      nextId := nextId + 1;
    }
  }
}
