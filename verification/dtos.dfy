/**
 * The request and response shapes of the review API and the bean-validation
 * constraints declared on the two request shapes. Validation is modelled as
 * the set of constraint violations a request produces, each with the message
 * its annotation declares; a request is accepted when the set is empty.
 */
module Dtos {
  import opened Results
  import opened JavaLang

  /** The body of a create-review request. A missing `rating` reads as 0. */
  datatype CreateReviewDTO = CreateReviewDTO(comment: Text, rating: int32, reviewer: Text)

  /** The body of a create-book request. */
  datatype CreateBookDTO = CreateBookDTO(title: Text, author: Text, genre: Text)

  /** A review as the API returns it: no book reference. */
  datatype ReviewDTO = ReviewDTO(id: Option<int>, rating: int32, comment: Text, reviewer: Text)

  /** One failed constraint: the field it is declared on and its message. */
  datatype Violation = Violation(field: string, message: string)

  const MaxCommentLength: nat := 1000
  const MaxReviewerLength: nat := 100
  const MinRating: int32 := 1
  const MaxRating: int32 := 5
  const MaxTitleLength: nat := 100
  const MaxAuthorLength: nat := 100
  const MaxGenreLength: nat := 50

  /** The violation `v` when the constraint does not hold, nothing otherwise. */
  function Check(holds: bool, v: Violation): (r: set<Violation>)
    ensures v in r <==> !holds
    ensures forall x :: x in r ==> x == v
  {
    if holds then {} else {v}
  }

  /**
   * The violations of a string field declared `@NotBlank` and `@Size(max = max)`,
   * with the two messages the annotations declare.
   */
  function TextViolations(field: string, t: Text, max: nat, required: string, tooLong: string): (v: set<Violation>)
    requires required != tooLong
    ensures v == {} <==> NotBlank(t) && SizeAtMost(t, max)
    ensures Violation(field, required) in v <==> !NotBlank(t)
    ensures Violation(field, tooLong) in v <==> t.Some? && Utf16Length(t.value) > max
    ensures forall x :: x in v ==> x.field == field
    ensures forall x :: x in v ==> x == Violation(field, required) || x == Violation(field, tooLong)
  {
    Check(NotBlank(t), Violation(field, required)) + Check(SizeAtMost(t, max), Violation(field, tooLong))
  }

  // ---------------------------------------------------------------------------
  // CreateReviewDTO

  /** Every constraint of `CreateReviewDTO` holds. */
  predicate ReviewDtoValid(d: CreateReviewDTO) {
    && NotBlank(d.comment) && SizeAtMost(d.comment, MaxCommentLength)
    && MinRating <= d.rating <= MaxRating
    && NotBlank(d.reviewer) && SizeAtMost(d.reviewer, MaxReviewerLength)
  }

  /** The violations the constraints of `CreateReviewDTO` declare. */
  const CommentMessages: set<Violation> :=
    {Violation("comment", "Comment is required"), Violation("comment", "Comment cannot exceed 1000 characters")}
  const RatingMessages: set<Violation> :=
    {Violation("rating", "Rating must be at least 1"), Violation("rating", "Rating must be no more than 5")}
  const ReviewerMessages: set<Violation> :=
    {Violation("reviewer", "Reviewer is required"), Violation("reviewer", "Reviewer name cannot exceed 100 characters")}

  /** The violations of the rating, declared `@Min(1)` and `@Max(5)`. */
  function RatingViolations(rating: int32): (v: set<Violation>)
    ensures v == {} <==> MinRating <= rating <= MaxRating
    ensures Violation("rating", "Rating must be at least 1") in v <==> rating < 1
    ensures Violation("rating", "Rating must be no more than 5") in v <==> rating > 5
    ensures forall x :: x in v ==> x.field == "rating"
    ensures forall x :: x in v ==> x in RatingMessages
  {
    Check(rating >= MinRating, Violation("rating", "Rating must be at least 1"))
    + Check(rating <= MaxRating, Violation("rating", "Rating must be no more than 5"))
  }

  /** The violations bean validation reports for a `CreateReviewDTO`. */
  function ReviewDtoViolations(d: CreateReviewDTO): (v: set<Violation>)
    ensures v == {} <==> ReviewDtoValid(d)
    ensures Violation("comment", "Comment is required") in v <==> !NotBlank(d.comment)
    ensures (Violation("comment", "Comment cannot exceed 1000 characters") in v)
            <==> (d.comment.Some? && Utf16Length(d.comment.value) > 1000)
    ensures Violation("rating", "Rating must be at least 1") in v <==> d.rating < 1
    ensures Violation("rating", "Rating must be no more than 5") in v <==> d.rating > 5
    ensures Violation("reviewer", "Reviewer is required") in v <==> !NotBlank(d.reviewer)
    ensures (Violation("reviewer", "Reviewer name cannot exceed 100 characters") in v)
            <==> (d.reviewer.Some? && Utf16Length(d.reviewer.value) > 100)
    ensures v <= CommentMessages + RatingMessages + ReviewerMessages
  {
    TextViolations("comment", d.comment, MaxCommentLength, "Comment is required", "Comment cannot exceed 1000 characters")
    + RatingViolations(d.rating)
    + TextViolations("reviewer", d.reviewer, MaxReviewerLength, "Reviewer is required", "Reviewer name cannot exceed 100 characters")
  }

  // ---------------------------------------------------------------------------
  // CreateBookDTO

  /** Every constraint of `CreateBookDTO` holds. */
  predicate BookDtoValid(d: CreateBookDTO) {
    && NotBlank(d.title) && SizeAtMost(d.title, MaxTitleLength)
    && NotBlank(d.author) && SizeAtMost(d.author, MaxAuthorLength)
    && NotBlank(d.genre) && SizeAtMost(d.genre, MaxGenreLength)
  }

  /** The violations the constraints of `CreateBookDTO` declare. */
  const TitleMessages: set<Violation> :=
    {Violation("title", "Title is required"), Violation("title", "Title must not exceed 100 characters")}
  const AuthorMessages: set<Violation> :=
    {Violation("author", "Author is required"), Violation("author", "Author must not exceed 100 characters")}
  const GenreMessages: set<Violation> :=
    {Violation("genre", "Genre is required"), Violation("genre", "Genre must not exceed 100 characters")}

  function TitleViolations(title: Text): (v: set<Violation>)
    ensures v <= TitleMessages
  {
    TextViolations("title", title, MaxTitleLength, "Title is required", "Title must not exceed 100 characters")
  }

  function AuthorViolations(author: Text): (v: set<Violation>)
    ensures v <= AuthorMessages
  {
    TextViolations("author", author, MaxAuthorLength, "Author is required", "Author must not exceed 100 characters")
  }

  /** The genre's constraints: the limit is 50 while the message says 100, as declared. */
  function GenreViolations(genre: Text): (v: set<Violation>)
    ensures v <= GenreMessages
  {
    TextViolations("genre", genre, MaxGenreLength, "Genre is required", "Genre must not exceed 100 characters")
  }

  /** The violations bean validation reports for a `CreateBookDTO`. */
  function BookDtoViolations(d: CreateBookDTO): (v: set<Violation>)
    ensures v == {} <==> BookDtoValid(d)
    ensures Violation("title", "Title is required") in v <==> !NotBlank(d.title)
    ensures (Violation("title", "Title must not exceed 100 characters") in v)
            <==> (d.title.Some? && Utf16Length(d.title.value) > 100)
    ensures Violation("author", "Author is required") in v <==> !NotBlank(d.author)
    ensures (Violation("author", "Author must not exceed 100 characters") in v)
            <==> (d.author.Some? && Utf16Length(d.author.value) > 100)
    ensures Violation("genre", "Genre is required") in v <==> !NotBlank(d.genre)
    ensures (Violation("genre", "Genre must not exceed 100 characters") in v)
            <==> (d.genre.Some? && Utf16Length(d.genre.value) > 50)
    ensures v <= TitleMessages + AuthorMessages + GenreMessages
  {
    TitleViolations(d.title) + AuthorViolations(d.author) + GenreViolations(d.genre)
  }

  /** A string of `n` copies of `c`. */
  function Repeat(c: char, n: nat): (s: string)
    ensures |s| == n
    ensures forall i :: 0 <= i < n ==> s[i] == c
  {
    seq(n, _ => c)
  }

  /** A string of `n` > 0 copies of 'x' is non-blank and `n` UTF-16 units long. */
  lemma XsAreText(n: nat)
    requires n > 0
    ensures NotBlank(Some(Repeat('x', n)))
    ensures Utf16Length(Repeat('x', n)) == n
  {
    var g := Repeat('x', n);
    assert !IsJavaWhitespace(g[0]);
    assert forall i :: 0 <= i < |g| ==> g[i] as int < 0x1_0000;
  }

  /** A genre of exactly 50 chars passes both of its constraints. */
  lemma GenreOfFiftyAccepted()
    ensures GenreViolations(Some(Repeat('x', 50))) == {}
  {
    XsAreText(50);
  }

  /**
   * A genre of 51 chars fails exactly one constraint, and the violation
   * carries the message that names a limit of 100.
   */
  lemma GenreOfFiftyOneRefused()
    ensures GenreViolations(Some(Repeat('x', 51))) == {Violation("genre", "Genre must not exceed 100 characters")}
  {
    XsAreText(51);
  }

  /**
   * The request with an empty reviewer, an empty comment and rating 6 is
   * refused on all three fields.
   */
  lemma EmptyFieldsAndRatingSixRefused()
    ensures var d := CreateReviewDTO(Some(""), 6, Some(""));
            ReviewDtoViolations(d) == {
              Violation("comment", "Comment is required"),
              Violation("rating", "Rating must be no more than 5"),
              Violation("reviewer", "Reviewer is required")}
  {
  }
}
