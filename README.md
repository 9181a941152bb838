# bookstore-api: a verified model of the request handlers

The bookstore API is a CRUD layer over a document store. It keeps users,
books and reviews. Admins manage users and books, any logged-in user may
review a book, and a review can be changed or removed only by its author.
This project models what the handlers do before and after each store call.
It also models the two middleware steps in front of them:

- `protect` reads a bearer token, verifies it and loads the user it names.
- `authorize` admits only callers whose role is in an allowed list.

The three collections are in-memory tables held by `Store.Database`:
`books: map<Id, Book>`, `reviews: map<Id, Review>` and `users: map<Id, User>`.
A counter `nextId` stands for the store's id generator. Every handler is a
method that returns a `Response`: the status code, the `message` field when the
JSON body has one, and the payload when it has one. A reply that carries one
saved document carries it with its `_id`, so a 201 names the id it created. A handler that writes
changes `db` and nothing else. Its contract states the whole new state of the
three tables in terms of the old one, for the error answers and for the success
answer.

Modules, one per source file, plus two shared ones:

- `Common`: optional request fields, ids, `Response`, and JavaScript
  truthiness. A string is falsy when it is missing or empty, a number when it
  is missing or zero. It also holds the `a || b` fallback the update handlers
  use.
- `BookModel` (models/Book.js): the `Book` record, the unsaved `Draft`, what
  `save` accepts, and the table invariant `BooksValid`. `BooksValid` says
  title, author and isbn are non-empty and no two books share an isbn.
- `Store`: the `User`, `Review` and `Caller` records and the `Database` class.
  `Caller` is `req.user`: the stored user together with its `_id`.
- `BookController`, `ReviewController`, `AdminController`: the handlers of the
  three controllers.
- `Auth` (middleware/auth.js): `split(" ")` as a recursive `Split`, proved to
  cut the header into space-free pieces that join back to the header. Also the
  token extraction, `Protect`, `Includes` and `Authorize`.

`jwt.verify` with the process secret becomes the parameter `verify` of
`Protect`: an arbitrary function from token to `Option<Id>`, where `None` is a
rejected token. The regular-expression test of `searchBooks` becomes the
parameter `matches`.

## Model

| member | source | states |
|---|---|---|
| BookModel.Save | models/Book.js:3-28 | `save` accepts a draft exactly when title, author and isbn are non-empty strings, addedBy is set and no other book has the isbn; an accepted draft becomes a well-formed book that is the draft itself |
| BookModel.SaveStored | models/Book.js:12-16 | saving a stored book again gives it back unless its isbn now belongs to another book |
| BookModel.SaveKeepsBooksValid | models/Book.js:3-28 | whatever `save` accepts keeps the table invariant (required fields present, isbn unique), for a new id or an existing one |
| BookController.GetBooks | controllers/bookController.js:4-11 | answers 200 with every stored book |
| BookController.GetBookById | controllers/bookController.js:14-27 | 404 "Book not found" when the id is absent, otherwise 200 with the id and the stored record unchanged |
| BookController.CreateBook | controllers/bookController.js:30-54 | 400 with nothing changed when a required field is falsy; 500 with nothing changed when `save` rejects the document; otherwise 201 with the fresh id and the saved book, stored under that id, other tables untouched |
| BookController.AddBook | controllers/bookController.js:30-54 | 400 "Please provide title, author, and ISBN" and no change when title, author or isbn is missing or empty; 500 "Server error" and no change when the isbn is already used; otherwise 201 with the fresh id and one new book under it holding exactly the supplied fields and addedBy = caller |
| BookController.AddBookAsWritten | controllers/bookController.js:40-53 | with addedBy read from `req.user.userId`, every request answers 400 or 500 and no book is ever added |
| BookController.UpdateBook | controllers/bookController.js:57-78 | 404 "Book not found" and no change for an unknown id; 500 and no change when the merged isbn belongs to another book; otherwise 200 with the id and the merged record, which replaces only that book |
| BookController.DeleteBook | controllers/bookController.js:81-97 | 404 "Book not found" and no change for an unknown id; otherwise 200 and exactly that id removed, every other book, review and user kept |
| BookController.SearchBooks | controllers/bookController.js:100-122 | 404 "No books found" exactly when no book's title, author or isbn matches; otherwise 200 with exactly the matching books |
| BookController.MergeRule | controllers/bookController.js:67-71 | each of the five fields takes the new value when truthy and keeps the old one otherwise; addedBy never changes |
| BookController.MergeEmptyBody | controllers/bookController.js:67-71 | an update with an empty body leaves the record as it was |
| BookController.MergeIdempotent | controllers/bookController.js:67-71 | applying the same body twice gives the record that applying it once gives |
| BookController.MergeKeepsWellFormed | controllers/bookController.js:67-73 | an update never empties title, author or isbn, so `save` only rejects it for a duplicate isbn |
| BookController.CreatedBookFields | controllers/bookController.js:40-49 | for a complete body with an unused isbn, the saved book holds exactly the body's fields and addedBy = the caller's id |
| BookController.AsWrittenDraftRejected | controllers/bookController.js:46 | the document built with addedBy from `req.user.userId` is rejected by `save` whatever the body |
| ReviewController.AddReview | controllers/reviewController.js:5-27 | 404 "Book not found" and no change when the book is absent; otherwise 201 "Review added successfully" with the fresh id and one new review under it with book = bookId, user = caller, the given rating and comment |
| ReviewController.GetReviews | controllers/reviewController.js:30-41 | 200 with exactly the reviews whose book is bookId, without checking that the book exists, so an unknown book gives an empty 200 |
| ReviewController.UpdateReview | controllers/reviewController.js:44-65 | 404 "Review not found" and no change unless the review's id and owner both match; otherwise 200 "Review updated successfully" with the id and the merged review, which is the only review that changes, by truthy rating and comment; no review of another user is touched |
| ReviewController.DeleteReview | controllers/reviewController.js:68-92 | 404 "Review not found or you are not authorized to delete it" and no change unless owned; otherwise exactly that review removed; no review of another user is touched |
| ReviewController.MergeReviewRule | controllers/reviewController.js:57-58 | book and owner never change; a truthy rating or comment replaces the old one, a falsy one (a rating of 0) keeps it |
| ReviewController.MergeReviewIdempotent | controllers/reviewController.js:57-58 | applying the same rating and comment twice gives the review that applying them once gives |
| AdminController.GetAllUsers | controllers/adminController.js:4-12 | answers 200 with every stored user, unfiltered |
| AdminController.CreateUser | controllers/adminController.js:56-73 | 400 "User already exists" and no change for a used email; otherwise 201 with the fresh id and exactly one new user under it with that email and password and role = the given role when truthy, else "user"; unique emails stay unique |
| AdminController.UpdateUser | controllers/adminController.js:15-34 | 404 "User not found" and no change for an unknown id; otherwise 200 with the id and the merged user, which is the only user that changes, by the update rule |
| AdminController.DeleteUser | controllers/adminController.js:37-53 | 404 "User not found" and no change for an unknown id; otherwise exactly that user removed, books and reviews that refer to it kept |
| AdminController.InsertKeepsEmailsUnique | controllers/adminController.js:60-67 | adding a user whose email no user has keeps emails unique |
| AdminController.MergeUserRule | controllers/adminController.js:25-26 | email and role take truthy new values and keep the old ones otherwise; the password never changes |
| Auth.Split | middleware/auth.js:14 | `split(" ")` gives at least one piece, no piece holds a space, and the pieces joined with single spaces are the input |
| Auth.ExtractToken | middleware/auth.js:9-19 | a token is found only in a header that starts with "Bearer", and it is non-empty and space-free |
| Auth.Protect | middleware/auth.js:5-38 | 401 "No token, authorization denied" when no token can be read; 401 "Token is not valid" when it does not verify; 404 "User not found" when its id is not a stored user; otherwise passes on with req.user = that stored user |
| Auth.Includes | middleware/auth.js:43 | the scan of the allowed roles finds a role exactly when it is one of them |
| Auth.Authorize | middleware/auth.js:41-50 | 403 "Access denied. You do not have permission." exactly when the caller's role is not in roles; otherwise passes the caller on unchanged |
| Auth.SplitAfterWord | middleware/auth.js:14 | after a space-free first word and a space, the pieces are that word followed by the pieces of the rest |
| Auth.SplitFirstPiece | middleware/auth.js:14 | the first piece is everything up to the first space |
| Auth.SplitAfterPrefix | middleware/auth.js:14 | a space-free start of the string is the start of its first piece |
| Auth.TokenIsSecondWord | middleware/auth.js:11-19 | for a header "p t rest" with p starting with "Bearer", the token is t, or none when t is empty |
| Auth.TokenLocated | middleware/auth.js:11-19 | conversely, every token read is the second space-separated word of a header whose first word starts with "Bearer" |
| Auth.NoSpaceNoToken | middleware/auth.js:14-19 | a header with no space yields no token |
| Auth.SchemeAloneNoToken | middleware/auth.js:14-19 | "Bearer" alone yields no token |
| Auth.DoubleSpaceNoToken | middleware/auth.js:14-19 | "Bearer  x" yields no token: the second piece is empty |
| Auth.TokenStopsAtSpace | middleware/auth.js:14 | "Bearer abc def" yields "abc" |
| Auth.SchemeWithoutSpace | middleware/auth.js:11-14 | the prefix test has no trailing space: "BearerX tok" yields "tok" |
| Auth.OtherSchemesNoToken | middleware/auth.js:11-12 | the prefix test is case-sensitive and other schemes yield no token |
| Auth.AdminOnly | routes/adminRoutes.js:13-14 | behind `authorize("admin")`, a caller passes exactly when its role is "admin", and any other caller gets 403 |

## Left out

- Population joins (`populate("addedBy", "email")`, `populate("user", "email")`):
  replies carry the stored records without the joined email.
- Id casting: ids are natural numbers, so a malformed ObjectId, and the 500 it
  causes, cannot occur.
- The regular-expression semantics of `searchBooks`: `matches` is a parameter.
  A missing `query` is not modelled: `query` is always a string.
- Store failures other than the unique isbn index (lost connection, timeouts).
  Each handler's generic 500 path, and the 401 `protect` gives when the user
  lookup throws, are therefore not modelled.
- `jwt.verify`, signing, expiry and `process.env.JWT_SECRET`: these are the
  `verify` parameter. A token that verifies but carries no `userId` is not
  modelled.
- models/User.js and models/Review.js are not part of this model. Their
  validators and indexes on `save` are not modelled: a required email or
  password, an enum of roles, a rating range, a unique email index.
  `createUser` takes email and password as strings. `updateUser` does not
  re-check that an email is unique, so `EmailsUnique` is proved preserved by
  `createUser` only.
- Numbers are integers: a fractional rating or `NaN` is not modelled.
  `publishedDate` is an opaque optional string; the Date cast is not modelled.
- `getBookByTitle`, `getBookByAuthor`, `getBookByISBN`: routes/bookRoutes.js:8-10
  imports them, but controllers/bookController.js exports no such names, so
  there is no handler to model. Express refuses a route declared with a
  handler that is not a function (routes/bookRoutes.js:22-28), so loading the
  book routes (server.js:26) would throw at startup. This was read from the
  code and Express's documented behaviour; it was not executed.
- The document version key `__v` that the store adds to replies is not
  modelled.
- The routes files, server.js, authController and userController: Express
  wiring, process bootstrap, and handlers whose source is not part of this
  model. The admin gate appears only as the lemma `Auth.AdminOnly`.
- Logging, async scheduling and the HTTP response object: each reply is
  reduced to a `Response`.
- Concurrency: every handler runs as one atomic step on the tables.

## Findings

| source | as written | input that shows it | evidently intended | confidence | as-written member | corrected member |
|---|---|---|---|---|---|---|
| controllers/bookController.js:46 | `addedBy` is read from `req.user.userId`. `protect` sets `req.user` to the stored user document (middleware/auth.js:27), which holds its id as `_id`, so `addedBy` is unset. The required validator on addedBy (models/Book.js:23-27) then rejects every save, and the handler answers 500 | an admin sends `{title: "A", author: "B", isbn: "1"}` to an empty table: the answer is 500 "Server error" and no book is stored | `addedBy` = the caller's `_id`, as the review handlers read it (controllers/reviewController.js:17) | medium, not executed; models/User.js is not part of this model, so a `userId` path on users cannot be ruled out | BookController.AddBookAsWritten | BookController.AddBook |
