/**
 * Properties that span both services: the invariants every sequence of
 * writes keeps, the cascade seen from the review side, the request pipeline
 * of the review endpoint, and the worked examples of the integration tests.
 */
module Scenarios {
  import opened Results
  import opened JavaLang
  import opened Catalog
  import opened Dtos
  import opened ReviewMapper
  import opened BookService
  import opened ReviewService

  /** A write the services accept, together with the store fault it meets. */
  datatype Command =
    | CreateBook(book: NewBook, fault: Option<Fault>)
    | AddReview(bookId: int, review: Option<Review>, fault: Option<Fault>)
    | RemoveBook(id: int, fault: Option<Fault>)

  /** The store after one write, whether it succeeds or fails. */
  function Apply(s: Store, w: Command): Store {
    match w
    case CreateBook(book, fault) => SaveBook(s, book, fault).store
    case AddReview(bookId, review, fault) => SaveReview(s, bookId, review, fault).store
    case RemoveBook(id, fault) => DeleteBook(s, id, fault).store
  }

  /** The store after a sequence of writes, applied first to last. */
  function Run(s: Store, ws: seq<Command>): Store
    decreases |ws|
  {
    if |ws| == 0 then s else Run(Apply(s, ws[0]), ws[1..])
  }

  /** The invariants every store the services produce keeps. */
  predicate Consistent(s: Store) {
    WellFormed(s) && RatingsInRange(s) && ReviewIdsUnique(s)
  }

  /**
   * One write, successful or not, keeps the store well-formed, every rating
   * in [1,5] and every review id unique.
   */
  lemma ApplyPreserves(s: Store, w: Command)
    requires Consistent(s)
    ensures Consistent(Apply(s, w))
  {
    match w
    case CreateBook(book, fault) =>
      SaveBookKeepsReviewIdsUnique(s, book, fault);
      if fault.None? {
        SaveBookThenGet(s, book);
      } else if fault.value.at == Read {
        SaveBookThenGet(s, book);
        assert SaveBook(s, book, fault) == SaveBook(s, book, None);
      }
    case AddReview(bookId, review, fault) =>
      SaveReviewKeepsReviewIdsUnique(s, bookId, review, fault);
      var r := SaveReview(s, bookId, review, fault);
      if r.result.Ok? {
        assert AcceptableReview(review) && bookId in s.books && fault.None?;
        SaveReviewPreservesInvariants(s, bookId, review);
      }
    case RemoveBook(id, fault) =>
      DeleteBookKeepsReviewIdsUnique(s, id, fault);
      if DeleteBook(s, id, fault).result.Ok? {
        assert id in s.books && fault.None?;
        DeleteThenNotFound(s, id);
      }
  }

  /**
   * Every store reachable from the empty store by the services' writes is
   * well-formed, holds only ratings in [1,5] and never two reviews with the
   * same id, whatever faults the writes meet.
   */
  lemma {:induction false} RunPreserves(s: Store, ws: seq<Command>)
    requires Consistent(s)
    ensures Consistent(Run(s, ws))
    decreases |ws|
  {
    if |ws| > 0 {
      ApplyPreserves(s, ws[0]);
      RunPreserves(Apply(s, ws[0]), ws[1..]);
    }
  }

  /**
   * In every reachable store, each book's average rating is 0 or lies in
   * [1,5], as long as its ratings add up to less than 2^31, so that the
   * `int` sum does not overflow.
   */
  lemma ReachableAveragesInRange(ws: seq<Command>, id: int)
    requires id in Run(Empty(), ws).books
    requires SumOfRatings(ReviewList(Run(Empty(), ws).books[id])) < 0x8000_0000
    ensures var avg := GetAverageRating(Run(Empty(), ws), id, None);
            avg.Ok? && (avg.value == 0.0 || 1.0 <= avg.value <= 5.0)
  {
    RunPreserves(Empty(), ws);
    AverageInRange(Run(Empty(), ws), id);
  }

  /** After a book is deleted, listing its reviews fails with `BookNotFound`. */
  lemma DeleteThenListReviews(s: Store, id: int)
    requires id in s.books
    ensures var r := DeleteBook(s, id, None);
            r.result.Ok? && GetReviewsByBookId(r.store, id, None) == Err(BookNotFound(id))
  {
  }

  /**
   * The review endpoint: a request mapped by `toEntity`, saved to an existing
   * book and mapped back by `toDTO` gives the request's rating, comment and
   * reviewer with a freshly generated id, when the request passes the
   * service's checks.
   */
  lemma AddReviewRoundTrip(s: Store, bookId: int, d: CreateReviewDTO)
    requires bookId in s.books
    requires AcceptableReview(Some(ToEntity(d)))
    ensures var r := SaveReview(s, bookId, Some(ToEntity(d)), None);
            && r.result.Ok?
            && ToDto(r.result.value) == ReviewDTO(Some(s.nextReviewId), d.rating, d.comment, d.reviewer)
  {
  }

  /** A request's rating that passes bean validation also passes the service's rating check. */
  lemma ValidRequestRatingAccepted(d: CreateReviewDTO)
    requires ReviewDtoValid(d)
    ensures 1 <= ToEntity(d).rating <= 5
  {
  }

  /**
   * The request with an empty reviewer, an empty comment and rating 6 is
   * refused by the service as well, for the reviewer first, and nothing is saved.
   */
  lemma EmptyFieldsRefusedByService(s: Store, bookId: int)
    ensures var d := CreateReviewDTO(Some(""), 6, Some(""));
            var r := SaveReview(s, bookId, Some(ToEntity(d)), None);
            && r.result == Err(InvalidReviewData(BlankReviewerMessage))
            && r.store == s
  {
  }

  /** A review for book 999 in a store without it fails with `BookNotFound` and saves nothing. */
  lemma ReviewForMissingBook(s: Store)
    requires 999 !in s.books
    ensures var rv := Review(None, Some("A"), Some("x"), 5, None);
            var r := SaveReview(s, 999, Some(rv), None);
            r.result == Err(BookNotFound(999)) && r.store == s
  {
    assert "A"[0] > ' ' && "x"[0] > ' ';
  }

  /**
   * Two valid reviews saved in turn to a stored book without reviews are
   * listed in the order they were saved.
   */
  lemma TwoReviewsListedInOrder(s: Store, id: int, a: Option<Review>, b: Option<Review>)
    requires WellFormed(s) && id in s.books && ReviewList(s.books[id]) == []
    requires AcceptableReview(a) && AcceptableReview(b)
    ensures var first := SaveReview(s, id, a, None);
            var second := SaveReview(first.store, id, b, None);
            && first.result.Ok? && second.result.Ok?
            && GetReviewsByBookId(second.store, id, None) == Ok([first.result.value, second.result.value])
            && ReviewList(second.store.books[id]) == [first.result.value, second.result.value]
  {
    var first := SaveReview(s, id, a, None);
    SaveReviewThenList(s, id, a);
    SaveReviewPreservesInvariants(s, id, a);
    assert ReviewList(first.store.books[id]) == [first.result.value];
    var second := SaveReview(first.store, id, b, None);
    SaveReviewThenList(first.store, id, b);
    assert [first.result.value] + [second.result.value] == [first.result.value, second.result.value];
  }

  /**
   * Create "Dune", add a 5 and a 3: the book gets id 1, its reviews are listed
   * in creation order, and the average is exactly 4.
   */
  lemma DuneScenario()
    ensures
      var created := SaveBook(Empty(), NewBook(Some("Dune"), Some("Herbert"), Some("SciFi")), None);
      var first := SaveReview(created.store, 1, Some(Review(None, Some("A"), Some("Great"), 5, None)), None);
      var second := SaveReview(first.store, 1, Some(Review(None, Some("B"), Some("OK"), 3, None)), None);
      && created.result.Ok? && created.result.value.id == 1
      && first.result.Ok? && second.result.Ok?
      && GetReviewsByBookId(second.store, 1, None) == Ok([first.result.value, second.result.value])
      && GetAverageRating(second.store, 1, None) == Ok(4.0)
  {
    var dune := NewBook(Some("Dune"), Some("Herbert"), Some("SciFi"));
    var a := Some(Review(None, Some("A"), Some("Great"), 5, None));
    var b := Some(Review(None, Some("B"), Some("OK"), 3, None));
    assert "A"[0] > ' ' && "Great"[0] > ' ' && "B"[0] > ' ' && "OK"[0] > ' ';
    assert AcceptableReview(a) && AcceptableReview(b);
    var created := SaveBook(Empty(), dune, None);
    SaveBookThenGet(Empty(), dune);
    TwoReviewsListedInOrder(created.store, 1, a, b);
    var first := SaveReview(created.store, 1, a, None);
    var second := SaveReview(first.store, 1, b, None);
    TwoRatingsAverageFour(second.store, 1);
  }

  /** A book whose two reviews are rated 5 and 3 averages exactly 4. */
  lemma TwoRatingsAverageFour(s: Store, id: int)
    requires id in s.books && |ReviewList(s.books[id])| == 2
    requires ReviewList(s.books[id])[0].rating == 5 && ReviewList(s.books[id])[1].rating == 3
    ensures GetAverageRating(s, id, None) == Ok(4.0)
  {
    var rs := ReviewList(s.books[id]);
    assert rs[1..][1..] == [];
    assert SumOfRatings(rs[1..]) == 3;
    assert SumOfRatings(rs) == 8;
  }

  /** Ratings 5, 4 and 3 average to exactly 4. */
  lemma ThreeRatingsAverageFour(s: Store, id: int, a: Review, b: Review, c: Review)
    requires id in s.books && ReviewList(s.books[id]) == [a, b, c]
    requires a.rating == 5 && b.rating == 4 && c.rating == 3
    ensures GetAverageRating(s, id, None) == Ok(4.0)
  {
    var rs := [a, b, c];
    assert rs[1..] == [b, c] && [b, c][1..] == [c] && [c][1..] == [];
    assert SumOfRatings([c]) == 3;
    assert SumOfRatings([b, c]) == 7;
  }
}
