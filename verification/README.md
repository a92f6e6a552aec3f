# Book review service layer, modelled in Dafny

This project models the service layer of a small book-review REST API: books
with title, author and genre, each owning an ordered list of reviews
(reviewer, comment, rating 1 to 5), the derived average rating, and the three
ways an operation can fail (`BookNotFound`, `InvalidReviewData`, and
`DatabaseOperation` wrapping any other failure).

The persistence engine is abstracted to an immutable in-memory `Store`: a map
from book id to `Book`, the ids in creation order, and two id generators
(`nextBookId`, `nextReviewId`) that hand out fresh ids. A review lives inside
its book's list and points back to the book by id. Every service operation is
a pure function from a store (and its arguments) to a result and, for writes,
the next store. A failing store call is an input: `fault: Option<Fault>`
names the store call (`Read` or `Write`) that throws and the cause it throws.

Modules (one per source component, plus `Results`, `JavaLang` and `Scenarios`):

- `Results`: `Option` (Java `null`) and `Result` (return or throw).
- `JavaLang`: nullable `Text`, 32-bit `int32`, `String.trim()`,
  `Character.isWhitespace`, `String.length()` in UTF-16 units, 32-bit wrap-around.
- `Catalog`: the `Review`, `Book` and `Store` data model, the store
  invariants `WellFormed`, `RatingsInRange` and `ReviewIdsUnique`, the error taxonomy, and the
  `getBookByIdOrThrow` lookup both services define identically.
- `Dtos`: the create-review and create-book request shapes and their
  bean-validation constraints, as the set of violations with their messages.
- `ReviewMapper`: the field copies between requests, entities and responses.
- `BookService`: `saveBook`, `getAllBooks`, `deleteBook`, `getAverageRating`.
- `ReviewService`: `validateReviewData`, `saveReview`, `getReviewsByBookId`
  and the catch-and-wrap classification.
- `Scenarios`: properties spanning both services. Every store reachable by
  any sequence of writes, under any faults, is well-formed and holds only
  ratings in [1,5]. The module also holds the review endpoint's map-save-map
  pipeline and the worked examples of the integration tests.

## Behaviour worth knowing

- `BookServiceImpl` catches nothing. Its store failures surface unwrapped as
  `StoreFailure`. Only `ReviewServiceImpl` wraps failures into
  `DatabaseOperation`, and each of its two operations rethrows a different
  set of business exceptions unchanged.
- `saveReview` validates before it looks the book up. An invalid review for
  a missing book fails with `InvalidReviewData`, not `BookNotFound`.
- `getAverageRating` reads the book's own review list. It sums the ratings as
  a 32-bit `int`, which wraps around once the sum passes 2^31 - 1.
- `getReviewsByBookId` returns an empty list for a `null` review list.
- `@Size(max = 50)` on the genre carries the message "Genre must not exceed
  100 characters". The limit enforced is 50; the model keeps both as declared.

## Model

| member | source | states |
|---|---|---|
| JavaLang.Wrap32 | src/main/java/com/example/bookreviewapi/service/BookServiceImpl.java:54-56 | the `int` sum of the ratings is the true sum modulo 2^32, and equals it whenever the true sum fits in 32 bits |
| JavaLang.Trim | src/main/java/com/example/bookreviewapi/service/ReviewServiceImpl.java:97 | `trim()` returns the slice of the string between its trimmable prefix and its trimmable suffix: everything before and after the slice is at most U+0020, and the slice is empty or starts and ends with a char above U+0020 |
| JavaLang.TrimEmptyIff | src/main/java/com/example/bookreviewapi/service/ReviewServiceImpl.java:97-103 | `s.trim().isEmpty()` holds exactly when every char of `s` is at most U+0020 |
| JavaLang.Utf16Length | src/main/java/com/example/bookreviewapi/dto/CreateReviewDTO.java:13 | the length `@Size` measures lies between the number of chars and twice that, and equals the number of chars exactly when no char is supplementary |
| JavaLang.Utf16LengthOne | src/main/java/com/example/bookreviewapi/dto/CreateReviewDTO.java:13 | a single char measures one unit below U+10000 and two units for a supplementary char |
| JavaLang.Utf16LengthConcat | src/main/java/com/example/bookreviewapi/dto/CreateReviewDTO.java:13 | the length of a concatenation is the sum of the lengths, so with `Utf16LengthOne` every supplementary char counts exactly two units and every other char one |
| Catalog.GetBookByIdOrThrow | src/main/java/com/example/bookreviewapi/service/BookServiceImpl.java:26-28 | a lookup returns the stored book if present, `BookNotFound(id)` otherwise, and a failing read unwrapped; the result type leaves the store unchanged |
| Dtos.ReviewDtoViolations | src/main/java/com/example/bookreviewapi/dto/CreateReviewDTO.java:12-22 | a review request is accepted exactly when the comment is non-blank and at most 1000 long, the rating is in [1,5], and the reviewer is non-blank and at most 100 long; each failed constraint is reported with its declared message, and nothing else is reported |
| Dtos.BookDtoViolations | src/main/java/com/example/bookreviewapi/dto/CreateBookDTO.java:10-20 | a book request is accepted exactly when title and author are non-blank and at most 100 long and the genre is non-blank and at most 50 long; each failed constraint is reported with its declared message, and nothing else is reported |
| Dtos.GenreOfFiftyAccepted | src/main/java/com/example/bookreviewapi/dto/CreateBookDTO.java:18-19 | a 50-char genre passes both genre constraints |
| Dtos.GenreOfFiftyOneRefused | src/main/java/com/example/bookreviewapi/dto/CreateBookDTO.java:18-19 | a 51-char genre fails exactly one constraint, whose message names a limit of 100 |
| Dtos.EmptyFieldsAndRatingSixRefused | src/test/java/com/example/bookreviewapi/controller/ReviewControllerIntegrationTest.java:112-123 | reviewer "", comment "" and rating 6 fail three constraints: comment required, rating at most 5, reviewer required |
| ReviewMapper.ToEntity | src/main/java/com/example/bookreviewapi/mapper/ReviewMapper.java:13-20 | `toEntity` copies rating, comment and reviewer and leaves id and book unset |
| ReviewMapper.ToDto | src/main/java/com/example/bookreviewapi/mapper/ReviewMapper.java:23-31 | `toDTO` copies id, rating, comment and reviewer |
| ReviewMapper.ToDtoAfterToEntity | src/main/java/com/example/bookreviewapi/mapper/ReviewMapper.java:13-31 | `toDTO(toEntity(d))` has the request's rating, comment and reviewer and no id |
| ReviewMapper.ToDtoIgnoresBook | src/main/java/com/example/bookreviewapi/mapper/ReviewMapper.java:23-31 | `toDTO` drops the book reference: entities differing only in their book map to the same response |
| BookService.SaveBook | src/main/java/com/example/bookreviewapi/service/BookServiceImpl.java:21-23 | a save stores the given title, author and genre with an empty review list under the next generated id, which no stored book has in a well-formed store. The id goes last in the listing order, the book counter advances and the review counter stays. Every other book is kept. A failing write changes nothing and surfaces unwrapped |
| BookService.SaveBookThenGet | src/main/java/com/example/bookreviewapi/service/BookServiceImpl.java:21-28 | in a well-formed store the new id is fresh, the store stays well-formed, and a later lookup by that id returns exactly the saved fields |
| BookService.DuplicatesAccepted | src/main/java/com/example/bookreviewapi/service/BookServiceImpl.java:21-23 | saving the same title and author twice stores two distinct books |
| BookService.GetAllBooks | src/main/java/com/example/bookreviewapi/service/BookServiceImpl.java:31-33 | listing returns only stored books; a failing read surfaces unwrapped |
| BookService.GetAllBooksComplete | src/main/java/com/example/bookreviewapi/service/BookServiceImpl.java:31-33 | in a well-formed store the list holds every stored book exactly once, in the store's listing order, and is empty (not an error) when there are none. SaveBookThenList and DeleteBookThenList show that this order is creation order |
| BookService.DeleteBook | src/main/java/com/example/bookreviewapi/service/BookServiceImpl.java:36-41 | deleting an absent id fails with `BookNotFound` and changes nothing. Deleting a present id removes that book with its reviews, keeps every other book, removes only that id from the listing order, and leaves both id counters alone. Every failure leaves the store as it was |
| BookService.SaveBookThenList | src/main/java/com/example/bookreviewapi/service/BookServiceImpl.java:21-33 | in a well-formed store, after a book is saved, listing returns the books listed before, in the same order, followed by the new book |
| BookService.RemoveIdAt | src/main/java/com/example/bookreviewapi/service/BookServiceImpl.java:40 | removing the id at one position of a duplicate-free order keeps every other id in its place |
| BookService.DeleteBookThenList | src/main/java/com/example/bookreviewapi/service/BookServiceImpl.java:31-41 | in a well-formed store, after the book at one position of the listing is deleted, listing returns the other books in the same order as before |
| BookService.DeleteThenNotFound | src/main/java/com/example/bookreviewapi/service/BookServiceImpl.java:37-40 | after a delete the store stays well-formed, lookup and average of the id fail with `BookNotFound`, and no stored review belongs to the deleted book |
| BookService.SumOfValidRatings | src/main/java/com/example/bookreviewapi/service/BookServiceImpl.java:54-56 | ratings in [1,5] sum to between one and five times their count |
| BookService.GetAverageRating | src/main/java/com/example/bookreviewapi/service/BookServiceImpl.java:44-60 | a missing book fails with `BookNotFound`; a `null` or empty review list gives exactly 0; a present book always gives a value, and for a non-empty list that value times the list's length equals the 32-bit-wrapped sum of the ratings |
| BookService.Mean | src/main/java/com/example/bookreviewapi/service/BookServiceImpl.java:49-58 | the mean of a review list is 0 for no reviews, and otherwise times the count equals the 32-bit-wrapped sum of the ratings |
| BookService.MeanOfValidRatings | src/main/java/com/example/bookreviewapi/service/BookServiceImpl.java:54-58 | ratings in [1,5] whose sum is below 2^31 have a mean that times their count is exactly their sum and that lies in [1,5] |
| BookService.AverageOfValidRatings | src/main/java/com/example/bookreviewapi/service/BookServiceImpl.java:54-58 | with ratings in [1,5] whose sum is below 2^31, so the `int` sum does not overflow, the average times the count is the sum of ratings, and the average lies in [1,5] |
| BookService.AverageInRange | src/main/java/com/example/bookreviewapi/service/BookServiceImpl.java:44-58 | in a store whose ratings are in [1,5], a book whose ratings sum to less than 2^31 has an average of 0 or in [1,5] |
| ReviewService.BlankAfterTrimIff | src/main/java/com/example/bookreviewapi/service/ReviewServiceImpl.java:97-103 | "null or empty after trim" holds exactly when the text has no char above U+0020 |
| ReviewService.ValidateReviewData | src/main/java/com/example/bookreviewapi/service/ReviewServiceImpl.java:84-108 | a review passes exactly when it is present, reviewer and comment have a char above U+0020, and the rating is in [1,5]; otherwise the message names the first failed check in source order |
| ReviewService.WrapFailure | src/main/java/com/example/bookreviewapi/service/ReviewServiceImpl.java:46-50 | an exception of a kind the operation rethrows passes through unchanged; any other is wrapped once into `DatabaseOperation` naming the operation and carrying the caught exception; so a store failure never escapes unwrapped |
| ReviewService.SaveReview | src/main/java/com/example/bookreviewapi/service/ReviewServiceImpl.java:26-51 | errors come in order: invalid data with the first failed check's message, then a failing read, then missing book, then a failing write. Every failure leaves the store unchanged. On success the review keeps its fields, gets the next id and the resolved book, and is appended after the book's earlier reviews; every other book and the listing order are unchanged, the review-id counter advances by one and the book-id counter stays |
| ReviewService.GetReviewsByBookId | src/main/java/com/example/bookreviewapi/service/ReviewServiceImpl.java:54-69 | a missing book fails with `BookNotFound`; a failing read becomes `DatabaseOperation("get reviews by book id")`; otherwise the stored reviews in stored order, and an empty list for a `null` list; the result type leaves the store unchanged |
| ReviewService.InvalidBeforeNotFound | src/main/java/com/example/bookreviewapi/service/ReviewServiceImpl.java:29-32 | an invalid review for a missing book fails with `InvalidReviewData`, not `BookNotFound`, and saves nothing |
| ReviewService.SaveReviewPreservesInvariants | src/main/java/com/example/bookreviewapi/service/ReviewServiceImpl.java:35-44 | a successful save keeps the store well-formed, and keeps every rating in [1,5] if they all were |
| ReviewService.SavedReviewIdFresh | src/main/java/com/example/bookreviewapi/service/ReviewServiceImpl.java:35-44 | the saved review's id differs from the id of every review already stored |
| Catalog.RepeatedReviewNotUnique | src/main/java/com/example/bookreviewapi/model/Review.java:14-16 | a store holding the same review twice is well-formed but breaks review-id uniqueness, so uniqueness is a separate invariant |
| BookService.SaveBookKeepsReviewIdsUnique | src/main/java/com/example/bookreviewapi/service/BookServiceImpl.java:21-23 | saving a book, successful or not, keeps every stored review id unique |
| BookService.DeleteBookKeepsReviewIdsUnique | src/main/java/com/example/bookreviewapi/service/BookServiceImpl.java:36-41 | deleting a book, successful or not, keeps every stored review id unique |
| ReviewService.SaveReviewKeepsReviewIdsUnique | src/main/java/com/example/bookreviewapi/model/Review.java:14-16 | saving a review, successful or not, keeps every stored review id unique: the new id is newer than all stored ones |
| ReviewService.OlderPosition | src/main/java/com/example/bookreviewapi/service/ReviewServiceImpl.java:41-44 | after a save, every position of the lists stored before still holds the review it held, with an id older than the new one |
| ReviewService.SaveReviewThenList | src/main/java/com/example/bookreviewapi/service/ReviewServiceImpl.java:35-44 | for a valid review and an existing book the save succeeds, and a later listing returns the earlier reviews followed by the new one |
| ReviewService.NullListBecomesSingleton | src/main/java/com/example/bookreviewapi/service/ReviewServiceImpl.java:38-41 | saving into a book whose review list is `null` leaves exactly the one new review |
| Scenarios.RunPreserves | src/main/java/com/example/bookreviewapi/service/ReviewServiceImpl.java:105-107 | any sequence of book saves, review saves and deletes, under any faults, keeps the store well-formed, every rating in [1,5] and every review id unique |
| Scenarios.ReachableAveragesInRange | src/main/java/com/example/bookreviewapi/service/BookServiceImpl.java:44-58 | in every reachable store, a book whose ratings sum to less than 2^31 has an average of 0 or in [1,5] |
| Scenarios.DeleteThenListReviews | src/main/java/com/example/bookreviewapi/service/ReviewServiceImpl.java:57-58 | after a book is deleted, listing its reviews fails with `BookNotFound` |
| Scenarios.AddReviewRoundTrip | src/main/java/com/example/bookreviewapi/controller/ReviewController.java:32-35 | a request that passes the service checks, mapped, saved to an existing book and mapped back, has the request's fields and the fresh review id |
| Scenarios.ValidRequestRatingAccepted | src/main/java/com/example/bookreviewapi/dto/CreateReviewDTO.java:16-17 | a rating that passes `@Min(1)`/`@Max(5)` passes the service's rating check |
| Scenarios.EmptyFieldsRefusedByService | src/main/java/com/example/bookreviewapi/service/ReviewServiceImpl.java:97-99 | reviewer "", comment "" and rating 6 fail in the service with the reviewer message and save nothing |
| Scenarios.ReviewForMissingBook | src/test/java/com/example/bookreviewapi/controller/ReviewControllerIntegrationTest.java:74-90 | a valid review for missing book 999 fails with `BookNotFound` and saves nothing |
| Scenarios.TwoReviewsListedInOrder | src/test/java/com/example/bookreviewapi/controller/ReviewControllerIntegrationTest.java:162-182 | two valid reviews saved in turn to a book without reviews are listed in the order they were saved |
| Scenarios.DuneScenario | src/test/java/com/example/bookreviewapi/controller/BookControllerIntegrationTest.java:179-232 | a new book gets id 1; after reviews rated 5 and 3 it lists both in creation order, and the average is exactly 4 |
| Scenarios.TwoRatingsAverageFour | src/test/java/com/example/bookreviewapi/controller/BookControllerIntegrationTest.java:227-231 | a book whose two reviews are rated 5 and 3 averages exactly 4 |
| Scenarios.ThreeRatingsAverageFour | src/test/java/com/example/bookreviewapi/controller/ReviewControllerIntegrationTest.java:280-284 | ratings 5, 4 and 3 average to exactly 4 |

## Left out

- HTTP controllers, JSON serialization, the global exception handler and the
  OpenAPI configuration are transport plumbing. The controllers appear only in
  `Scenarios.AddReviewRoundTrip` as the map-save-map composition. The 409
  response the book controller declares is implemented nowhere.
- User management is not part of this model: it needs password hashing and a
  user service that is not shown.
- JPA and Spring Data are reduced to the in-memory store: id generation is two
  counters, the store gives `findAll` in creation order (the code itself sets
  no order), and lazy loading, sessions and transactions are not modelled.
  `findByIdWithReviews`, which `BookRepository.java` does not declare, is read
  as `findById` with the reviews loaded.
- `Book.java`, `BookMapper` and `ReviewRepository` are not part of this model.
  A newly saved book is given an empty review list. `saveBook` takes only the
  title, author and genre, so JPA's merge of an entity with a preset id is not
  modelled.
- `SaveReview` always assigns the next review id. JPA's merge of a review
  that already carries an id is not modelled.
- A `null` book id (which the store rejects with an exception) is covered only
  as a generic store fault.
- `double` arithmetic: the average is stated in exact real arithmetic, so
  floating-point rounding of the quotient is not modelled. The 32-bit `int`
  sum before the division is modelled.
- `BookService.AverageOfValidRatings`: proved only when the ratings sum to
  less than 2^31. Beyond that the code's `int` sum wraps around, so the
  average is no longer the mean. `GetAverageRating` models that wrap-around
  rather than excluding it.
- `BookService.MeanOfValidRatings`: the same bound on the sum of the
  ratings, for the same reason.
- `BookService.AverageInRange`: the same bound on the sum of the ratings, for
  the same reason.
- `Scenarios.ReachableAveragesInRange`: the same bound on the sum of the
  ratings, for the same reason.
- `BookNotFoundException`'s message text ("Book not found with ID: " and the
  id) is not modelled; the error carries the id.
- The `@NotBlank` check is modelled as its documented contract: not `null`,
  with some char that `Character.isWhitespace` rejects. The validation
  provider's implementation is not part of this model. It is kept apart from
  the service's `trim()` check, and neither is claimed to imply the other.
- `@Size` counts UTF-16 code units; Dafny chars are Unicode scalar values.
  Lone surrogates cannot be represented.
- Concurrency and transaction isolation are not modelled; every operation is
  one atomic step on the store.
- Unit-test expectations that disagree with the code do not shape the model.
  One test expects `null` for a `null` review list; the code returns an empty
  list. Another stubs a query by book id for the average; the code reads the
  book's own list.
