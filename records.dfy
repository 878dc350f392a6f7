/** The record shapes that flow between the pipeline stages. A pandas
    cell that may be missing (NaN) is an `Option`. */
module Records {

  datatype Option<T> = None | Some(value: T)

  /** The three sentiment labels the classifier emits. */
  datatype Label = Positive | Neutral | Negative

  /** One review row as scraped (`review_id, review, rating, date, bank`);
      after cleaning, `review` and `date` are always present. */
  datatype Review = Review(
    reviewId: string,
    review: Option<string>,
    rating: int,
    date: Option<string>,
    bank: string)

  /** A review row with the two columns the sentiment stage adds. */
  datatype AnnotatedReview = AnnotatedReview(row: Review, sentimentLabel: Label, sentimentScore: real)

  /** Python's `str(x)` of a text cell: a missing cell (NaN) reads "nan". */
  function PyStr(cell: Option<string>): string
  {
    match cell
    case None => "nan"
    case Some(s) => s
  }
}
