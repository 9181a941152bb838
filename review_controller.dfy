/** The review handlers: add, list by book, update and delete, where update
    and delete only ever see the caller's own reviews. */
module ReviewController {
  import opened Common
  import opened BookModel
  import opened Store

  const BookNotFound := "Book not found"
  const ReviewAdded := "Review added successfully"
  const ReviewNotFound := "Review not found"
  const ReviewUpdated := "Review updated successfully"
  const ReviewNotFoundOrNotOwned := "Review not found or you are not authorized to delete it"
  const ReviewDeleted := "Review deleted successfully"

  /** The lookup `findOne({ _id: reviewId, user: caller })`: the review exists
      and belongs to the caller. */
  predicate Owns(reviews: map<Id, Review>, reviewId: Id, userId: Id)
  {
    reviewId in reviews && reviews[reviewId].user == userId
  }

  /** The reviews of one book. */
  function ReviewsOf(reviews: map<Id, Review>, bookId: Id): map<Id, Review>
  {
    map id | id in reviews && reviews[id].book == bookId :: reviews[id]
  }

  /** The record `updateReview` makes of a stored review under the truthy rule. */
  function MergeReview(rv: Review, rating: Option<int>, comment: Option<string>): Review
  {
    rv.(rating := OrNumber(rating, rv.rating), comment := OrOptString(comment, rv.comment))
  }

  /** `addReview`: 404 when the book does not exist; otherwise a new review of
      that book by the caller, holding the given rating and comment. */
  method AddReview(db: Database, bookId: Id, rating: Option<int>, comment: Option<string>, caller: Caller)
    returns (r: Response<(Id, Review)>)
    requires db.Valid()
    modifies db
    ensures db.Valid()
    ensures bookId !in old(db.books) ==> r == Message(404, BookNotFound) && unchanged(db)
    ensures bookId in old(db.books) ==>
      var rv := Review(bookId, caller.id, rating, comment);
      && r == Response(201, Some(ReviewAdded), Some((old(db.nextId), rv)))
      && old(db.nextId) !in old(db.reviews)
      && db.reviews == old(db.reviews)[old(db.nextId) := rv]
      && db.books == old(db.books) && db.users == old(db.users)
  {
    if bookId !in db.books {
      return Message(404, BookNotFound);
    }
    var rv := Review(bookId, caller.id, rating, comment);
    var id := db.NewId();
    db.reviews := db.reviews[id := rv];
    r := Response(201, Some(ReviewAdded), Some((id, rv)));
  }

  /** `getReviews`: the reviews whose book is `bookId`, with no check that the
      book exists, so an unknown book gets an empty 200. */
  method GetReviews(db: Database, bookId: Id) returns (r: Response<map<Id, Review>>)
    ensures r.status == 200 && r.message == None && r.payload.Some?
    ensures forall id :: id in r.payload.value <==> id in db.reviews && db.reviews[id].book == bookId
    ensures forall id :: id in r.payload.value ==> r.payload.value[id] == db.reviews[id]
    ensures (forall id :: id in db.reviews ==> db.reviews[id].book != bookId) ==> r.payload.value == map[]
  {
    r := Json(200, ReviewsOf(db.reviews, bookId));
  }

  /** `updateReview`: 404 unless the review exists and is the caller's;
      otherwise rating and comment are replaced only by truthy values, and no
      review of another user is ever touched. */
  method UpdateReview(db: Database, reviewId: Id, rating: Option<int>, comment: Option<string>, caller: Caller)
    returns (r: Response<(Id, Review)>)
    requires db.Valid()
    modifies db
    ensures db.Valid()
    ensures !Owns(old(db.reviews), reviewId, caller.id) ==> r == Message(404, ReviewNotFound) && unchanged(db)
    ensures Owns(old(db.reviews), reviewId, caller.id) ==>
      var rv := MergeReview(old(db.reviews)[reviewId], rating, comment);
      && r == Response(200, Some(ReviewUpdated), Some((reviewId, rv)))
      && db.reviews == old(db.reviews)[reviewId := rv]
      && db.books == old(db.books) && db.users == old(db.users) && db.nextId == old(db.nextId)
    ensures forall k :: k in old(db.reviews) && old(db.reviews)[k].user != caller.id ==>
      k in db.reviews && db.reviews[k] == old(db.reviews)[k]
  {
    if !(reviewId in db.reviews && db.reviews[reviewId].user == caller.id) {
      return Message(404, ReviewNotFound);
    }
    var review := db.reviews[reviewId];
    review := review.(rating := OrNumber(rating, review.rating));
    review := review.(comment := OrOptString(comment, review.comment));
    db.reviews := db.reviews[reviewId := review];
    r := Response(200, Some(ReviewUpdated), Some((reviewId, review)));
  }

  /** `deleteReview`: 404 unless the review exists and is the caller's;
      otherwise exactly that review goes. */
  method DeleteReview(db: Database, reviewId: Id, caller: Caller) returns (r: Response<Review>)
    requires db.Valid()
    modifies db
    ensures db.Valid()
    ensures !Owns(old(db.reviews), reviewId, caller.id) ==>
      r == Message(404, ReviewNotFoundOrNotOwned) && unchanged(db)
    ensures Owns(old(db.reviews), reviewId, caller.id) ==>
      && r == Message(200, ReviewDeleted)
      && db.reviews == old(db.reviews) - {reviewId}
      && db.books == old(db.books) && db.users == old(db.users) && db.nextId == old(db.nextId)
    ensures forall k :: k in old(db.reviews) && old(db.reviews)[k].user != caller.id ==>
      k in db.reviews && db.reviews[k] == old(db.reviews)[k]
  {
    if !(reviewId in db.reviews && db.reviews[reviewId].user == caller.id) {
      return Message(404, ReviewNotFoundOrNotOwned);
    }
    db.reviews := db.reviews - {reviewId};
    r := Message(200, ReviewDeleted);
  }

  /** An update keeps the review's book and owner, takes a truthy rating or
      comment and keeps the old one otherwise (so a rating of 0 keeps it). */
  lemma MergeReviewRule(rv: Review, rating: Option<int>, comment: Option<string>)
    ensures var m := MergeReview(rv, rating, comment);
      && m.book == rv.book && m.user == rv.user
      && (TruthyNumber(rating) ==> m.rating == rating)
      && (!TruthyNumber(rating) ==> m.rating == rv.rating)
      && (TruthyString(comment) ==> m.comment == comment)
      && (!TruthyString(comment) ==> m.comment == rv.comment)
  {
  }

  /** Applying the same update twice gives what applying it once gives. */
  lemma MergeReviewIdempotent(rv: Review, rating: Option<int>, comment: Option<string>)
    ensures MergeReview(MergeReview(rv, rating, comment), rating, comment) == MergeReview(rv, rating, comment)
  {
  }
}
