/**
 * The book/review aggregate and the store the two services read and write.
 * The persistence engine is abstracted to an in-memory store: a map from book
 * id to book, the order in which books were created, and the two id
 * generators. A review lives inside the list of the book that owns it, so
 * removing a book removes its reviews with it.
 */
module Catalog {
  import opened Results
  import opened JavaLang

  /**
   * The `Review` entity: generated id, reviewer, comment, `int` rating and the
   * owning book, referenced by its id (the `book_id` join column).
   */
  datatype Review = Review(id: Option<int>, reviewer: Text, comment: Text, rating: int32, book: Option<int>)

  /** The `Book` entity; its review list may be `null`. */
  datatype Book = Book(id: int, title: Text, author: Text, genre: Text, reviews: Option<seq<Review>>)

  /** The fields a caller gives `saveBook` for a book not yet stored. */
  datatype NewBook = NewBook(title: Text, author: Text, genre: Text)

  /** A book's reviews, with a `null` list read as the empty list. */
  function ReviewList(b: Book): seq<Review> {
    if b.reviews.Some? then b.reviews.value else []
  }

  /**
   * The store: books by id, book ids in creation order (the order `findAll`
   * lists them in), and the next ids the generators hand out.
   */
  datatype Store = Store(books: map<int, Book>, order: seq<int>, nextBookId: int, nextReviewId: int)

  /** The store before anything is created; generated ids start at 1. */
  function Empty(): (s: Store)
    ensures WellFormed(s) && RatingsInRange(s) && ReviewIdsUnique(s)
    ensures s.books == map[]
  {
    Store(map[], [], 1, 1)
  }

  predicate NoDuplicates(xs: seq<int>) {
    forall i, j :: 0 <= i < j < |xs| ==> xs[i] != xs[j]
  }

  /**
   * A stored book `b` under key `k`: its id is `k`, and every one of its
   * reviews has a generated id older than `nextReviewId` and points back to `k`.
   */
  predicate BookWellFormed(b: Book, k: int, nextReviewId: int) {
    && b.id == k
    && forall r :: r in ReviewList(b) ==> r.book == Some(k) && r.id.Some? && 0 < r.id.value < nextReviewId
  }

  /** The structural invariant every state the services produce keeps. */
  predicate WellFormed(s: Store) {
    && 0 < s.nextBookId
    && 0 < s.nextReviewId
    && NoDuplicates(s.order)
    && (forall k :: k in s.order ==> k in s.books)
    && (forall k :: k in s.books ==> k in s.order)
    && (forall k :: k in s.books ==> 0 < k < s.nextBookId && BookWellFormed(s.books[k], k, s.nextReviewId))
  }

  /**
   * No two stored reviews share an id: two positions in the stored review
   * lists with the same id are the same position of the same book.
   */
  predicate ReviewIdsUnique(s: Store) {
    forall k1, i, k2, j ::
      && k1 in s.books && k2 in s.books
      && 0 <= i < |ReviewList(s.books[k1])| && 0 <= j < |ReviewList(s.books[k2])|
      && ReviewList(s.books[k1])[i].id == ReviewList(s.books[k2])[j].id
      ==> k1 == k2 && i == j
  }

  /**
   * The same review stored twice in one book's list passes the structural
   * invariant but not the uniqueness of review ids.
   */
  lemma RepeatedReviewNotUnique()
    ensures var rv := Review(Some(1), Some("A"), Some("x"), 5, Some(1));
            var s := Store(map[1 := Book(1, Some("T"), Some("W"), Some("G"), Some([rv, rv]))], [1], 2, 2);
            WellFormed(s) && !ReviewIdsUnique(s)
  {
    var rv := Review(Some(1), Some("A"), Some("x"), 5, Some(1));
    var s := Store(map[1 := Book(1, Some("T"), Some("W"), Some("G"), Some([rv, rv]))], [1], 2, 2);
    assert ReviewList(s.books[1])[0].id == ReviewList(s.books[1])[1].id;
  }

  /** Every stored review has a rating in [1,5]. */
  predicate RatingsInRange(s: Store) {
    forall k, r :: k in s.books && r in ReviewList(s.books[k]) ==> 1 <= r.rating <= 5
  }

  // ---------------------------------------------------------------------------
  // Store failures and the service error taxonomy

  /** The two kinds of store call a service operation makes. */
  datatype StoreCall = Read | Write

  /** A store call that throws, with the cause it throws. */
  datatype Fault = Fault(at: StoreCall, cause: string)

  /** Whether the store call `call` throws under `fault`. */
  predicate FailsAt(fault: Option<Fault>, call: StoreCall) {
    fault.Some? && fault.value.at == call
  }

  /**
   * What a service call can throw: the two business exceptions, the wrapping
   * `DatabaseOperationException(operation, cause)` around the exception it
   * caught, and a store exception that nobody caught.
   */
  datatype ServiceError =
    | BookNotFound(bookId: int)
    | InvalidReviewData(message: string)
    | DatabaseOperation(operation: string, cause: ServiceError)
    | StoreFailure(message: string)

  /** The exception classes a `catch` clause can name. */
  datatype ErrorKind = NotFoundKind | InvalidDataKind | DatabaseKind | StoreKind

  function KindOf(e: ServiceError): ErrorKind {
    match e
    case BookNotFound(_) => NotFoundKind
    case InvalidReviewData(_) => InvalidDataKind
    case DatabaseOperation(_, _) => DatabaseKind
    case StoreFailure(_) => StoreKind
  }

  /** The result of an operation that may change the store, with the store afterwards. */
  datatype Step<+T> = Step(result: Result<T, ServiceError>, store: Store)

  /**
   * `getBookByIdOrThrow`, which both services define identically:
   * `findById(id)` or `BookNotFoundException(id)`. A failing read surfaces
   * unwrapped; the review service wraps it afterwards.
   */
  function GetBookByIdOrThrow(s: Store, id: int, fault: Option<Fault>): (r: Result<Book, ServiceError>)
    ensures FailsAt(fault, Read) ==> r == Err(StoreFailure(fault.value.cause))
    ensures !FailsAt(fault, Read) && id in s.books ==> r == Ok(s.books[id])
    ensures !FailsAt(fault, Read) && id !in s.books ==> r == Err(BookNotFound(id))
  {
    if FailsAt(fault, Read) then Err(StoreFailure(fault.value.cause))
    else if id in s.books then Ok(s.books[id])
    else Err(BookNotFound(id))
  }
}
