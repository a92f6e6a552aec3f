/**
 * `BookServiceImpl`: create, look up, list and delete books, and the average
 * rating derived from a book's reviews. The service catches nothing, so a
 * failing store call surfaces as an unwrapped `StoreFailure`.
 */
module BookService {
  import opened Results
  import opened JavaLang
  import opened Catalog

  // ---------------------------------------------------------------------------
  // saveBook

  /**
   * `saveBook`: the store assigns the next book id and stores the book with
   * the given fields and an empty review list, after every existing book.
   * There is no duplicate check.
   */
  function SaveBook(s: Store, book: NewBook, fault: Option<Fault>): (r: Step<Book>)
    ensures FailsAt(fault, Write) ==> r == Step(Err(StoreFailure(fault.value.cause)), s)
    ensures !FailsAt(fault, Write) ==>
      && r.result.Ok?
      && var saved := r.result.value;
      && saved.title == book.title && saved.author == book.author && saved.genre == book.genre
      && ReviewList(saved) == []
      && r.store.books.Keys == s.books.Keys + {saved.id}
      && r.store.books[saved.id] == saved
      && (forall k :: k in s.books && k != saved.id ==> r.store.books[k] == s.books[k])
      && r.store.order == s.order + [saved.id]
      && saved.id == s.nextBookId < r.store.nextBookId
      && r.store.nextReviewId == s.nextReviewId
      && (WellFormed(s) ==> saved.id !in s.books)
  {
    if FailsAt(fault, Write) then Step(Err(StoreFailure(fault.value.cause)), s)
    else
      var id := s.nextBookId;
      var saved := Book(id, book.title, book.author, book.genre, Some([]));
      Step(Ok(saved), s.(books := s.books[id := saved], order := s.order + [id], nextBookId := id + 1))
  }

  /**
   * In a well-formed store, a saved book gets an id no stored book has, every
   * other book is kept, the store stays well-formed, and looking the id up
   * returns exactly the given fields.
   */
  lemma SaveBookThenGet(s: Store, book: NewBook)
    requires WellFormed(s)
    ensures var r := SaveBook(s, book, None);
            && r.result.Ok?
            && r.result.value.id !in s.books
            && WellFormed(r.store)
            && (RatingsInRange(s) ==> RatingsInRange(r.store))
            && (forall k :: k in s.books ==> k in r.store.books && r.store.books[k] == s.books[k])
            && GetBookByIdOrThrow(r.store, r.result.value.id, None)
               == Ok(Book(r.result.value.id, book.title, book.author, book.genre, Some([])))
  {
    var r := SaveBook(s, book, None);
    var id := s.nextBookId;
    assert r.store.order == s.order + [id];
    assert id !in s.order;
    forall i, j | 0 <= i < j < |r.store.order|
      ensures r.store.order[i] != r.store.order[j]
    {
      if j == |s.order| {
        assert r.store.order[i] == s.order[i];
      }
    }
  }

  /** Saving a book, successfully or not, keeps review ids unique: the new book has no reviews. */
  lemma SaveBookKeepsReviewIdsUnique(s: Store, book: NewBook, fault: Option<Fault>)
    requires WellFormed(s) && ReviewIdsUnique(s)
    ensures ReviewIdsUnique(SaveBook(s, book, fault).store)
  {
    var t := SaveBook(s, book, fault).store;
    forall k | k in t.books && k != s.nextBookId
      ensures k in s.books && t.books[k] == s.books[k]
    {
    }
  }

  /**
   * Saving the same fields twice stores two distinct books with those fields:
   * duplicates of title and author are accepted.
   */
  lemma DuplicatesAccepted(s: Store, book: NewBook)
    requires WellFormed(s)
    ensures var r1 := SaveBook(s, book, None);
            var r2 := SaveBook(r1.store, book, None);
            && r1.result.Ok? && r2.result.Ok?
            && r1.result.value.id != r2.result.value.id
            && r1.result.value.id in r2.store.books && r2.result.value.id in r2.store.books
            && r2.store.books[r1.result.value.id].title == r2.store.books[r2.result.value.id].title == book.title
            && r2.store.books[r1.result.value.id].author == r2.store.books[r2.result.value.id].author == book.author
  {
    SaveBookThenGet(s, book);
    SaveBookThenGet(SaveBook(s, book, None).store, book);
  }

  // ---------------------------------------------------------------------------
  // getAllBooks

  /** The books stored under the ids of `order`, in that order, skipping ids not in `books`. */
  function BooksInOrder(order: seq<int>, books: map<int, Book>): (r: seq<Book>)
    ensures |r| <= |order|
    ensures forall b :: b in r ==> b in books.Values
    ensures (forall i :: 0 <= i < |order| ==> order[i] in books) ==>
              |r| == |order| && forall i :: 0 <= i < |r| ==> r[i] == books[order[i]]
  {
    if |order| == 0 then []
    else if order[0] in books then [books[order[0]]] + BooksInOrder(order[1..], books)
    else BooksInOrder(order[1..], books)
  }

  /** `getAllBooks`: `findAll()`, every stored book in creation order. */
  function GetAllBooks(s: Store, fault: Option<Fault>): (r: Result<seq<Book>, ServiceError>)
    ensures FailsAt(fault, Read) ==> r == Err(StoreFailure(fault.value.cause))
    ensures !FailsAt(fault, Read) ==> r.Ok? && forall b :: b in r.value ==> b in s.books.Values
  {
    if FailsAt(fault, Read) then Err(StoreFailure(fault.value.cause))
    else Ok(BooksInOrder(s.order, s.books))
  }

  /** Listing an id appended after the others appends its book after theirs. */
  lemma {:induction false} BooksInOrderAppend(order: seq<int>, books: map<int, Book>, id: int, b: Book)
    requires id !in order
    ensures BooksInOrder(order + [id], books[id := b]) == BooksInOrder(order, books) + [b]
  {
    if |order| == 0 {
      assert order + [id] == [id];
    } else {
      assert (order + [id])[1..] == order[1..] + [id];
      BooksInOrderAppend(order[1..], books, id, b);
    }
  }

  /**
   * In a well-formed store, after a book is saved `getAllBooks` lists the
   * books listed before, in the same order, followed by the new book.
   */
  lemma SaveBookThenList(s: Store, book: NewBook)
    requires WellFormed(s)
    ensures var r := SaveBook(s, book, None);
            && r.result.Ok?
            && GetAllBooks(r.store, None) == Ok(GetAllBooks(s, None).value + [r.result.value])
  {
    var r := SaveBook(s, book, None);
    assert s.nextBookId !in s.order;
    BooksInOrderAppend(s.order, s.books, s.nextBookId, r.result.value);
  }

  /** A sequence without duplicates has as many distinct elements as entries. */
  lemma {:induction false} DistinctCount(xs: seq<int>)
    requires NoDuplicates(xs)
    ensures |set x | x in xs| == |xs|
  {
    if |xs| > 0 {
      DistinctCount(xs[1..]);
      assert (set x | x in xs) == (set x | x in xs[1..]) + {xs[0]};
      assert xs[0] !in xs[1..];
    }
  }

  /**
   * In a well-formed store `getAllBooks` lists every stored book exactly once,
   * in creation order; with no books it is the empty list, not an error.
   */
  lemma GetAllBooksComplete(s: Store)
    requires WellFormed(s)
    ensures var r := GetAllBooks(s, None);
            && r.Ok?
            && |r.value| == |s.books|
            && (forall i :: 0 <= i < |r.value| ==> r.value[i] == s.books[s.order[i]])
            && (forall k :: k in s.books ==> s.books[k] in r.value)
            && (s.books == map[] ==> r.value == [])
  {
    var bs := BooksInOrder(s.order, s.books);
    DistinctCount(s.order);
    assert forall x :: x in s.books.Keys <==> x in (set y | y in s.order);
    assert s.books.Keys == set y | y in s.order;
    forall k | k in s.books
      ensures s.books[k] in bs
    {
      var i :| 0 <= i < |s.order| && s.order[i] == k;
      assert bs[i] == s.books[k];
    }
  }

  // ---------------------------------------------------------------------------
  // deleteBook

  /** `xs` without `id`, in the same order. */
  function RemoveId(xs: seq<int>, id: int): (r: seq<int>)
    ensures forall x :: x in r <==> x in xs && x != id
    ensures NoDuplicates(xs) ==> NoDuplicates(r)
  {
    if |xs| == 0 then []
    else if xs[0] == id then RemoveId(xs[1..], id)
    else
      var rest := RemoveId(xs[1..], id);
      assert NoDuplicates(xs) ==> xs[0] !in rest;
      [xs[0]] + rest
  }

  /** Removing an id that does not occur changes nothing. */
  lemma {:induction false} RemoveIdAbsent(xs: seq<int>, id: int)
    requires id !in xs
    ensures RemoveId(xs, id) == xs
  {
    if |xs| > 0 {
      RemoveIdAbsent(xs[1..], id);
      assert xs == [xs[0]] + xs[1..];
    }
  }

  /**
   * Removing the id at position `i` of a duplicate-free sequence keeps every
   * other id in its place: the ids before `i`, then the ids after it.
   */
  lemma {:induction false} RemoveIdAt(xs: seq<int>, i: int)
    requires NoDuplicates(xs) && 0 <= i < |xs|
    ensures RemoveId(xs, xs[i]) == xs[..i] + xs[i + 1..]
  {
    if i == 0 {
      assert xs[0] !in xs[1..];
      RemoveIdAbsent(xs[1..], xs[0]);
    } else {
      assert xs[1..][i - 1] == xs[i];
      RemoveIdAt(xs[1..], i - 1);
      assert xs[1..][..i - 1] + xs[1..][i..] == xs[1..i] + xs[i + 1..];
      assert [xs[0]] + (xs[1..i] + xs[i + 1..]) == xs[..i] + xs[i + 1..];
    }
  }

  /**
   * `deleteBook`: `existsById` first, `BookNotFoundException` if absent,
   * otherwise `deleteById`, which removes the book and the reviews it owns.
   */
  function DeleteBook(s: Store, id: int, fault: Option<Fault>): (r: Step<()>)
    ensures r.result.Err? ==> r.store == s
    ensures FailsAt(fault, Read) ==> r.result == Err(StoreFailure(fault.value.cause))
    ensures !FailsAt(fault, Read) && id !in s.books ==> r.result == Err(BookNotFound(id))
    ensures id in s.books && FailsAt(fault, Write) ==> r.result == Err(StoreFailure(fault.value.cause))
    ensures id in s.books && fault.None? ==>
      && r.result.Ok?
      && r.store.books.Keys == s.books.Keys - {id}
      && (forall k :: k in r.store.books ==> r.store.books[k] == s.books[k])
      && r.store.order == RemoveId(s.order, id)
      && r.store.nextBookId == s.nextBookId && r.store.nextReviewId == s.nextReviewId
  {
    if FailsAt(fault, Read) then Step(Err(StoreFailure(fault.value.cause)), s)
    else if id !in s.books then Step(Err(BookNotFound(id)), s)
    else if FailsAt(fault, Write) then Step(Err(StoreFailure(fault.value.cause)), s)
    else Step(Ok(()), s.(books := s.books - {id}, order := RemoveId(s.order, id)))
  }

  /**
   * After a successful delete in a well-formed store, the store stays
   * well-formed, looking the book up or averaging its ratings fails with
   * `BookNotFound`, and no stored review belongs to the deleted book.
   */
  lemma DeleteThenNotFound(s: Store, id: int)
    requires WellFormed(s) && id in s.books
    ensures var r := DeleteBook(s, id, None);
            && r.result.Ok?
            && WellFormed(r.store)
            && (RatingsInRange(s) ==> RatingsInRange(r.store))
            && GetBookByIdOrThrow(r.store, id, None) == Err(BookNotFound(id))
            && GetAverageRating(r.store, id, None) == Err(BookNotFound(id))
            && (forall k, rv :: k in r.store.books && rv in ReviewList(r.store.books[k]) ==> rv.book != Some(id))
  {
    var r := DeleteBook(s, id, None);
    forall k, rv | k in r.store.books && rv in ReviewList(r.store.books[k])
      ensures rv.book != Some(id)
    {
      assert BookWellFormed(s.books[k], k, s.nextReviewId);
    }
  }

  /** Deleting a book, successfully or not, keeps review ids unique: the reviews left were all stored before. */
  lemma DeleteBookKeepsReviewIdsUnique(s: Store, id: int, fault: Option<Fault>)
    requires ReviewIdsUnique(s)
    ensures ReviewIdsUnique(DeleteBook(s, id, fault).store)
  {
  }

  /**
   * In a well-formed store, after the book at position `i` of the listing is
   * deleted, `getAllBooks` lists the other books in the same order as before.
   */
  lemma DeleteBookThenList(s: Store, i: int)
    requires WellFormed(s) && 0 <= i < |s.order|
    ensures var before := GetAllBooks(s, None);
            var r := DeleteBook(s, s.order[i], None);
            && before.Ok? && r.result.Ok?
            && GetAllBooks(r.store, None) == Ok(before.value[..i] + before.value[i + 1..])
  {
    RemoveIdAt(s.order, i);
    BooksInOrderRemoveAt(s.order, s.books, i);
  }

  /**
   * Listing a duplicate-free order with the id at position `i` removed, and
   * its book gone, lists the other books in the same order.
   */
  lemma BooksInOrderRemoveAt(o: seq<int>, books: map<int, Book>, i: int)
    requires NoDuplicates(o) && 0 <= i < |o|
    requires forall j :: 0 <= j < |o| ==> o[j] in books
    ensures var bs := BooksInOrder(o, books);
            BooksInOrder(o[..i] + o[i + 1..], books - {o[i]}) == bs[..i] + bs[i + 1..]
  {
    var o2, b2 := o[..i] + o[i + 1..], books - {o[i]};
    var bs := BooksInOrder(o, books);
    forall j | 0 <= j < |o2|
      ensures o2[j] in b2 && b2[o2[j]] == (bs[..i] + bs[i + 1..])[j]
    {
      if j < i {
        assert o2[j] == o[j];
      } else {
        assert o2[j] == o[j + 1];
      }
    }
    var after := BooksInOrder(o2, b2);
    assert |after| == |o2|;
    assert forall j :: 0 <= j < |after| ==> after[j] == (bs[..i] + bs[i + 1..])[j];
  }

  // ---------------------------------------------------------------------------
  // getAverageRating

  /** The mathematical sum of the ratings. */
  function SumOfRatings(rs: seq<Review>): int {
    if |rs| == 0 then 0 else rs[0].rating as int + SumOfRatings(rs[1..])
  }

  /** Ratings in [1,5] add up to between one and five times their count. */
  lemma {:induction false} SumOfValidRatings(rs: seq<Review>)
    requires forall r :: r in rs ==> 1 <= r.rating <= 5
    ensures |rs| <= SumOfRatings(rs) <= 5 * |rs|
  {
    if |rs| > 0 {
      assert rs[0] in rs;
      assert forall r :: r in rs[1..] ==> r in rs;
      SumOfValidRatings(rs[1..]);
    }
  }

  /**
   * The mean `getAverageRating` computes from a review list: 0 for no reviews,
   * otherwise the `int` sum of the ratings (which wraps around past 32 bits)
   * divided by the number of reviews.
   */
  function Mean(rs: seq<Review>): (m: real)
    ensures |rs| == 0 ==> m == 0.0
    ensures |rs| > 0 ==> m * (|rs| as real) == Wrap32(SumOfRatings(rs)) as int as real
  {
    if |rs| == 0 then 0.0 else (Wrap32(SumOfRatings(rs)) as int) as real / (|rs| as real)
  }

  /**
   * `getAverageRating`: `BookNotFoundException` for a missing book, exactly 0
   * for a `null` or empty review list, otherwise the mean of the ratings.
   */
  function GetAverageRating(s: Store, id: int, fault: Option<Fault>): (r: Result<real, ServiceError>)
    ensures FailsAt(fault, Read) ==> r == Err(StoreFailure(fault.value.cause))
    ensures !FailsAt(fault, Read) && id !in s.books ==> r == Err(BookNotFound(id))
    ensures !FailsAt(fault, Read) && id in s.books && |ReviewList(s.books[id])| == 0 ==> r == Ok(0.0)
    ensures !FailsAt(fault, Read) && id in s.books ==> r.Ok?
    ensures !FailsAt(fault, Read) && id in s.books && |ReviewList(s.books[id])| > 0 ==>
              r.value * (|ReviewList(s.books[id])| as real) == Wrap32(SumOfRatings(ReviewList(s.books[id]))) as int as real
  {
    match GetBookByIdOrThrow(s, id, fault)
    case Err(e) => Err(e)
    case Ok(book) => Ok(Mean(ReviewList(book)))
  }

  /**
   * Ratings all in [1,5] that add up to less than 2^31, so that the `int` sum
   * does not overflow, have a mean that times their count is exactly their
   * sum, and that lies in [1,5] when there is at least one.
   */
  lemma MeanOfValidRatings(rs: seq<Review>)
    requires forall r :: r in rs ==> 1 <= r.rating <= 5
    requires SumOfRatings(rs) < 0x8000_0000
    ensures Mean(rs) * (|rs| as real) == SumOfRatings(rs) as real
    ensures |rs| > 0 ==> 1.0 <= Mean(rs) <= 5.0
  {
    SumOfValidRatings(rs);
    MeanOfBoundedSum(rs);
  }

  /**
   * Ratings whose sum lies between one and five times their count, and below
   * 2^31, have a mean that times their count is exactly their sum, and that
   * lies in [1,5] when there is at least one.
   */
  lemma MeanOfBoundedSum(rs: seq<Review>)
    requires |rs| <= SumOfRatings(rs) <= 5 * |rs| && SumOfRatings(rs) < 0x8000_0000
    ensures Mean(rs) * (|rs| as real) == SumOfRatings(rs) as real
    ensures |rs| > 0 ==> 1.0 <= Mean(rs) <= 5.0
  {
    if |rs| > 0 {
      MeanTimesCount(rs);
      MeanBounds(Mean(rs), SumOfRatings(rs), |rs|);
    }
  }

  /** A mean of ratings whose `int` sum does not wrap, times their count, is their sum. */
  lemma MeanTimesCount(rs: seq<Review>)
    requires |rs| > 0 && -0x8000_0000 <= SumOfRatings(rs) < 0x8000_0000
    ensures Mean(rs) * (|rs| as real) == SumOfRatings(rs) as real
  {
    assert Wrap32(SumOfRatings(rs)) as int == SumOfRatings(rs);
  }

  /** A mean of a total between one and five times a positive count lies in [1,5]. */
  lemma MeanBounds(avg: real, sum: int, n: int)
    requires 0 < n <= sum <= 5 * n && avg * (n as real) == sum as real
    ensures 1.0 <= avg <= 5.0
  {
    var m, t := n as real, sum as real;
    assert (avg - 1.0) * m == t - m >= 0.0;
    assert (5.0 - avg) * m == 5.0 * m - t >= 0.0;
  }

  /**
   * For a stored book whose ratings are all in [1,5] and add up to less than
   * 2^31, so that the `int` sum does not overflow, the average times the
   * review count is exactly the sum of the ratings, and the average lies in [1,5].
   */
  lemma AverageOfValidRatings(s: Store, id: int)
    requires id in s.books
    requires forall r :: r in ReviewList(s.books[id]) ==> 1 <= r.rating <= 5
    requires SumOfRatings(ReviewList(s.books[id])) < 0x8000_0000
    ensures var rs := ReviewList(s.books[id]);
            var avg := GetAverageRating(s, id, None);
            && avg.Ok?
            && avg.value * (|rs| as real) == SumOfRatings(rs) as real
            && (|rs| > 0 ==> 1.0 <= avg.value <= 5.0)
  {
    MeanOfValidRatings(ReviewList(s.books[id]));
  }

  /**
   * In a store whose ratings are all in [1,5], a book whose ratings add up to
   * less than 2^31 has an average in [1,5], or 0 when it has no reviews.
   */
  lemma AverageInRange(s: Store, id: int)
    requires RatingsInRange(s) && id in s.books
    requires SumOfRatings(ReviewList(s.books[id])) < 0x8000_0000
    ensures var avg := GetAverageRating(s, id, None);
            avg.Ok? && (avg.value == 0.0 || 1.0 <= avg.value <= 5.0)
  {
    AverageOfValidRatings(s, id);
  }
}
