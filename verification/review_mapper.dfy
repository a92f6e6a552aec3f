/** The static field copies between the review request/response shapes and the entity. */
module ReviewMapper {
  import opened Results
  import opened JavaLang
  import opened Catalog
  import opened Dtos

  /**
   * `toEntity`: a new entity carrying the request's rating, comment and
   * reviewer; id and book stay unset until the review is saved.
   */
  function ToEntity(d: CreateReviewDTO): (r: Review)
    ensures r.rating == d.rating && r.comment == d.comment && r.reviewer == d.reviewer
    ensures r.id.None? && r.book.None?
  {
    Review(None, d.reviewer, d.comment, d.rating, None)
  }

  /** `toDTO`: id, rating, comment and reviewer are copied; the book reference is dropped. */
  function ToDto(r: Review): (d: ReviewDTO)
    ensures d.id == r.id && d.rating == r.rating && d.comment == r.comment && d.reviewer == r.reviewer
  {
    ReviewDTO(r.id, r.rating, r.comment, r.reviewer)
  }

  /**
   * Mapping a request to an entity and straight back gives the request's
   * rating, comment and reviewer, and no id.
   */
  lemma ToDtoAfterToEntity(d: CreateReviewDTO)
    ensures ToDto(ToEntity(d)) == ReviewDTO(None, d.rating, d.comment, d.reviewer)
  {
  }

  /**
   * `toDTO` forgets only the book: two entities that differ in nothing but
   * their book reference map to the same response.
   */
  lemma ToDtoIgnoresBook(r: Review, book: Option<int>)
    ensures ToDto(r.(book := book)) == ToDto(r)
  {
  }
}
