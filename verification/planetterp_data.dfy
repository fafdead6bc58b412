/** The PlanetTerp JSON records the core reads and annotates, reduced to the
    fields the core looks at. A Python dictionary key that may be absent is
    an `Option`; a key whose value may also be JSON `null` is an `Option`
    inside an `Option`. */
module PlanetTerpData {
  import opened Wrappers

  /** One professor review; `created` is the review date as the API sends it. */
  datatype Review = Review(created: Option<string>, text: string)

  /** A professor record. `averageRating` is the `average_rating` key:
      `None` when absent, `Some(None)` when `null`. `ratingEmoji` is the
      `rating_emoji` key that `generate_response` adds. */
  datatype Professor = Professor(
    name: string,
    averageRating: Option<Option<real>>,
    reviews: Option<seq<Review>>,
    ratingEmoji: Option<string>)

  /** One grade-distribution row; `semester` reads like "202401". */
  datatype Grade = Grade(semester: Option<string>, professor: Option<string>)

  /** A course record with the names of the professors who teach it. */
  datatype Course = Course(name: string, professors: seq<string>)

  /** The `{"courses", "professors", "grades"}` context dictionary. */
  datatype Context = Context(courses: seq<Course>, professors: seq<Professor>, grades: seq<Grade>)

  const EmptyContext := Context([], [], [])
}
