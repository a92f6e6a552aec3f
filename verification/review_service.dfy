/**
 * `ReviewServiceImpl`: validate a review, resolve its book, append it to the
 * book's reviews and save it; and list a book's reviews. The business
 * exceptions each operation names pass through; any other failure is
 * wrapped once into `DatabaseOperation` naming the operation.
 */
module ReviewService {
  import opened Results
  import opened JavaLang
  import opened Catalog

  const SaveReviewOperation: string := "save review"
  const GetReviewsOperation: string := "get reviews by book id"

  const NullReviewMessage: string := "Review cannot be null"
  const BlankReviewerMessage: string := "Reviewer name cannot be null or empty"
  const BlankCommentMessage: string := "Review comment cannot be null or empty"
  const RatingRangeMessage: string := "Rating must be between 1 and 5"

  /** Some char of the string is above U+0020, so `trim()` leaves something. */
  predicate HasVisibleChar(t: Text) {
    t.Some? && exists i :: 0 <= i < |t.value| && t.value[i] > ' '
  }

  /** The review the service accepts: present, with visible reviewer and comment, rating in [1,5]. */
  predicate AcceptableReview(review: Option<Review>) {
    && review.Some?
    && HasVisibleChar(review.value.reviewer)
    && HasVisibleChar(review.value.comment)
    && 1 <= review.value.rating <= 5
  }

  /** The null-or-blank-after-trim check is exactly "no visible char". */
  lemma BlankAfterTrimIff(t: Text)
    ensures IsBlankAfterTrim(t) <==> !HasVisibleChar(t)
  {
    if t.Some? {
      TrimEmptyIff(t.value);
    }
  }

  /**
   * `validateReviewData`: `None` when the review passes, otherwise the message
   * of the first failed check, checked in the order null review, reviewer,
   * comment, rating.
   */
  function ValidateReviewData(review: Option<Review>): (r: Option<string>)
    ensures r.None? <==> AcceptableReview(review)
    ensures review.None? ==> r == Some(NullReviewMessage)
    ensures review.Some? && !HasVisibleChar(review.value.reviewer) ==> r == Some(BlankReviewerMessage)
    ensures (review.Some? && HasVisibleChar(review.value.reviewer) && !HasVisibleChar(review.value.comment))
            ==> r == Some(BlankCommentMessage)
    ensures (review.Some? && HasVisibleChar(review.value.reviewer) && HasVisibleChar(review.value.comment)
             && !(1 <= review.value.rating <= 5))
            ==> r == Some(RatingRangeMessage)
  {
    if review.None? then Some(NullReviewMessage)
    else
      var rv := review.value;
      BlankAfterTrimIff(rv.reviewer);
      BlankAfterTrimIff(rv.comment);
      if IsBlankAfterTrim(rv.reviewer) then Some(BlankReviewerMessage)
      else if IsBlankAfterTrim(rv.comment) then Some(BlankCommentMessage)
      else if rv.rating < 1 || rv.rating > 5 then Some(RatingRangeMessage)
      else None
  }

  /** The exceptions `saveReview` rethrows as they are. */
  const SaveReviewRethrows: set<ErrorKind> := {NotFoundKind, InvalidDataKind}

  /** The exceptions `getReviewsByBookId` rethrows as they are. */
  const GetReviewsRethrows: set<ErrorKind> := {NotFoundKind}

  /**
   * A pair of `catch` clauses: the exceptions of the kinds in `rethrown` are
   * rethrown as they are, anything else is wrapped once into
   * `DatabaseOperation(operation, e)`.
   */
  function WrapFailure(operation: string, rethrown: set<ErrorKind>, e: ServiceError): (r: ServiceError)
    ensures KindOf(e) in rethrown ==> r == e
    ensures KindOf(e) !in rethrown ==> r.DatabaseOperation? && r.operation == operation && r.cause == e
    ensures KindOf(r) in rethrown + {DatabaseKind}
  {
    if KindOf(e) in rethrown then e else DatabaseOperation(operation, e)
  }

  /**
   * `saveReview`: validation first, then the book lookup, then the review gets
   * the next review id and its book, is appended to the end of the book's
   * review list (a `null` list becomes a fresh one) and is saved. Every failure
   * leaves the store as it was.
   */
  function SaveReview(s: Store, bookId: int, review: Option<Review>, fault: Option<Fault>): (r: Step<Review>)
    ensures r.result.Err? ==> r.store == s
    ensures !AcceptableReview(review) ==> r.result == Err(InvalidReviewData(ValidateReviewData(review).value))
    ensures (AcceptableReview(review) && FailsAt(fault, Read))
            ==> r.result == Err(DatabaseOperation(SaveReviewOperation, StoreFailure(fault.value.cause)))
    ensures (AcceptableReview(review) && !FailsAt(fault, Read) && bookId !in s.books)
            ==> r.result == Err(BookNotFound(bookId))
    ensures (AcceptableReview(review) && bookId in s.books && FailsAt(fault, Write))
            ==> r.result == Err(DatabaseOperation(SaveReviewOperation, StoreFailure(fault.value.cause)))
    ensures AcceptableReview(review) && bookId in s.books && fault.None? ==>
      && r.result.Ok?
      && var saved := r.result.value;
      && saved.reviewer == review.value.reviewer
      && saved.comment == review.value.comment
      && saved.rating == review.value.rating
      && saved.book == Some(s.books[bookId].id)
      && saved.id == Some(s.nextReviewId)
      && r.store.books.Keys == s.books.Keys
      && r.store.order == s.order
      && r.store.nextBookId == s.nextBookId
      && r.store.nextReviewId == s.nextReviewId + 1
      && ReviewList(r.store.books[bookId]) == ReviewList(s.books[bookId]) + [saved]
      && r.store.books[bookId] == s.books[bookId].(reviews := r.store.books[bookId].reviews)
      && (forall k :: k in s.books && k != bookId ==> r.store.books[k] == s.books[k])
  {
    match ValidateReviewData(review)
    case Some(message) => Step(Err(WrapFailure(SaveReviewOperation, SaveReviewRethrows, InvalidReviewData(message))), s)
    case None =>
      match GetBookByIdOrThrow(s, bookId, fault)
      case Err(e) => Step(Err(WrapFailure(SaveReviewOperation, SaveReviewRethrows, e)), s)
      case Ok(book) =>
        if FailsAt(fault, Write) then
          Step(Err(WrapFailure(SaveReviewOperation, SaveReviewRethrows, StoreFailure(fault.value.cause))), s)
        else
          var saved := review.value.(id := Some(s.nextReviewId), book := Some(book.id));
          var updated := book.(reviews := Some(ReviewList(book) + [saved]));
          Step(Ok(saved), s.(books := s.books[bookId := updated], nextReviewId := s.nextReviewId + 1))
  }

  /**
   * `getReviewsByBookId`: `BookNotFound` for a missing book, otherwise the
   * book's reviews in stored order, with a `null` list returned as empty.
   * Its result type leaves no room to change the store.
   */
  function GetReviewsByBookId(s: Store, bookId: int, fault: Option<Fault>): (r: Result<seq<Review>, ServiceError>)
    ensures FailsAt(fault, Read) ==> r == Err(DatabaseOperation(GetReviewsOperation, StoreFailure(fault.value.cause)))
    ensures !FailsAt(fault, Read) && bookId !in s.books ==> r == Err(BookNotFound(bookId))
    ensures !FailsAt(fault, Read) && bookId in s.books ==>
      && r.Ok?
      && (s.books[bookId].reviews.Some? ==> r.value == s.books[bookId].reviews.value)
      && (s.books[bookId].reviews.None? ==> r.value == [])
  {
    match GetBookByIdOrThrow(s, bookId, fault)
    case Err(e) => Err(WrapFailure(GetReviewsOperation, GetReviewsRethrows, e))
    case Ok(book) => Ok(ReviewList(book))
  }

  /**
   * An invalid review fails with `InvalidReviewData` even when its book does
   * not exist: validation runs before the lookup.
   */
  lemma InvalidBeforeNotFound(s: Store, bookId: int, review: Option<Review>, fault: Option<Fault>)
    requires !AcceptableReview(review) && bookId !in s.books
    ensures var r := SaveReview(s, bookId, review, fault);
            r.result.Err? && r.result.error.InvalidReviewData? && r.store == s
  {
  }

  /**
   * A successful save keeps the store well-formed and, if every stored rating
   * was in [1,5], keeps it so.
   */
  lemma SaveReviewPreservesInvariants(s: Store, bookId: int, review: Option<Review>)
    requires WellFormed(s) && AcceptableReview(review) && bookId in s.books
    ensures var r := SaveReview(s, bookId, review, None);
            && WellFormed(r.store)
            && (RatingsInRange(s) ==> RatingsInRange(r.store))
  {
    var r := SaveReview(s, bookId, review, None);
    var saved := r.result.value;
    forall k | k in r.store.books
      ensures 0 < k < r.store.nextBookId && BookWellFormed(r.store.books[k], k, r.store.nextReviewId)
    {
      assert BookWellFormed(s.books[k], k, s.nextReviewId);
    }
    if RatingsInRange(s) {
      forall k, rv | k in r.store.books && rv in ReviewList(r.store.books[k])
        ensures 1 <= rv.rating <= 5
      {
        if k != bookId || rv != saved {
          assert rv in ReviewList(s.books[k]);
        }
      }
    }
  }

  /** In a well-formed store a saved review gets an id no stored review has. */
  lemma SavedReviewIdFresh(s: Store, bookId: int, review: Option<Review>)
    requires WellFormed(s) && AcceptableReview(review) && bookId in s.books
    ensures var r := SaveReview(s, bookId, review, None);
            forall k, rv :: k in s.books && rv in ReviewList(s.books[k]) ==> rv.id != r.result.value.id
  {
    forall k, rv | k in s.books && rv in ReviewList(s.books[k])
      ensures rv.id != Some(s.nextReviewId)
    {
      assert BookWellFormed(s.books[k], k, s.nextReviewId);
    }
  }

  /**
   * Saving a review, successfully or not, keeps review ids unique: the new
   * review's id is newer than every stored one.
   */
  lemma SaveReviewKeepsReviewIdsUnique(s: Store, bookId: int, review: Option<Review>, fault: Option<Fault>)
    requires WellFormed(s) && ReviewIdsUnique(s)
    ensures ReviewIdsUnique(SaveReview(s, bookId, review, fault).store)
  {
    var r := SaveReview(s, bookId, review, fault);
    if r.result.Ok? {
      var t := r.store;
      var n := |ReviewList(s.books[bookId])|;
      assert |ReviewList(t.books[bookId])| == n + 1;
      forall k1, i, k2, j |
        && k1 in t.books && k2 in t.books
        && 0 <= i < |ReviewList(t.books[k1])| && 0 <= j < |ReviewList(t.books[k2])|
        && ReviewList(t.books[k1])[i].id == ReviewList(t.books[k2])[j].id
        ensures k1 == k2 && i == j
      {
        if !(k1 == bookId && i == n) {
          assert k1 != bookId ==> t.books[k1] == s.books[k1];
          OlderPosition(s, bookId, review, k1, i);
        }
        if !(k2 == bookId && j == n) {
          assert k2 != bookId ==> t.books[k2] == s.books[k2];
          OlderPosition(s, bookId, review, k2, j);
        }
      }
    }
  }

  /**
   * After a successful save, every position of the lists stored before still
   * holds the review it held, whose id is older than the new one.
   */
  lemma OlderPosition(s: Store, bookId: int, review: Option<Review>, k: int, i: int)
    requires WellFormed(s) && AcceptableReview(review) && bookId in s.books
    requires k in s.books && 0 <= i < |ReviewList(s.books[k])|
    ensures var t := SaveReview(s, bookId, review, None).store;
            && k in t.books && i < |ReviewList(t.books[k])|
            && ReviewList(t.books[k])[i] == ReviewList(s.books[k])[i]
            && ReviewList(t.books[k])[i].id.Some?
            && ReviewList(t.books[k])[i].id.value < s.nextReviewId
  {
    assert BookWellFormed(s.books[k], k, s.nextReviewId);
    assert ReviewList(s.books[k])[i] in ReviewList(s.books[k]);
  }

  /** After a successful save, listing the book returns its earlier reviews followed by the new one. */
  lemma SaveReviewThenList(s: Store, bookId: int, review: Option<Review>)
    requires AcceptableReview(review) && bookId in s.books
    ensures var r := SaveReview(s, bookId, review, None);
            && r.result.Ok?
            && GetReviewsByBookId(r.store, bookId, None) == Ok(ReviewList(s.books[bookId]) + [r.result.value])
  {
  }

  /** Saving into a book whose review list is `null` leaves exactly the one new review. */
  lemma NullListBecomesSingleton(s: Store, bookId: int, review: Option<Review>)
    requires AcceptableReview(review) && bookId in s.books && s.books[bookId].reviews.None?
    ensures var r := SaveReview(s, bookId, review, None);
            r.result.Ok? && r.store.books[bookId].reviews == Some([r.result.value])
  {
    assert ReviewList(s.books[bookId]) == [];
    assert [] + [SaveReview(s, bookId, review, None).result.value] == [SaveReview(s, bookId, review, None).result.value];
  }
}
