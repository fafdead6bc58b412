/** `get_rating_emoji` and the professor annotation loop of
    `generate_response` (planetterp_core.py). Ratings are exact reals; the
    thresholds are the source's literals. */
module Ratings {
  import opened Wrappers
  import opened PlanetTerpData

  datatype Band = Unknown | Excellent | VeryGood | Good | BelowAverage | Poor

  /** The classification `get_rating_emoji` makes. Python's `not rating`
      holds for `None` and for zero. */
  function RatingBand(rating: Option<real>): (b: Band)
    ensures b == Unknown <==> rating.None? || rating.value <= 0.0
    ensures b == Excellent <==> rating.Some? && rating.value >= 4.5
    ensures b == VeryGood <==> rating.Some? && 4.0 <= rating.value < 4.5
    ensures b == Good <==> rating.Some? && 3.0 <= rating.value < 4.0
    ensures b == BelowAverage <==> rating.Some? && 2.0 <= rating.value < 3.0
    ensures b == Poor <==> rating.Some? && 0.0 < rating.value < 2.0
  {
    if rating.None? || rating.value == 0.0 || rating.value < 0.0 then Unknown
    else if rating.value >= 4.5 then Excellent
    else if rating.value >= 4.0 then VeryGood
    else if rating.value >= 3.0 then Good
    else if rating.value >= 2.0 then BelowAverage
    else Poor
  }

  /** Quality order of the known bands (Unknown ranks below all). */
  function Rank(b: Band): nat {
    match b
    case Unknown => 0
    case Poor => 1
    case BelowAverage => 2
    case Good => 3
    case VeryGood => 4
    case Excellent => 5
  }

  /** A higher positive rating never lands in a lower band. */
  lemma BandMonotone(a: real, b: real)
    requires 0.0 < a <= b
    ensures Rank(RatingBand(Some(a))) <= Rank(RatingBand(Some(b)))
    ensures RatingBand(Some(a)) != Unknown
  {
  }

  /** The strings `get_rating_emoji` returns, character for character as the
      source file holds them: each is a space followed by the Mac Roman
      reading of the UTF-8 bytes of an emoji (question mark, glowing star,
      star, check mark, warning sign, exclamation mark). */
  function BandEmoji(b: Band): string {
    match b
    case Unknown => " \U{201A}\U{F9}\U{EC}"
    case Excellent => " \U{F8FF}\U{FC}\U{E5}\U{FC}"
    case VeryGood => " \U{201A}\U{2260}\U{EA}"
    case Good => " \U{201A}\U{FA}\U{D6}"
    case BelowAverage => " \U{201A}\U{F6}\U{2020}\U{D4}\U{220F}\U{E8}"
    case Poor => " \U{201A}\U{F9}\U{F3}"
  }

  /** `get_rating_emoji(rating)`. */
  function RatingEmoji(rating: Option<real>): string {
    BandEmoji(RatingBand(rating))
  }

  /** The emoji the annotation loop gives a professor with no
      `average_rating` key: the question mark WITHOUT the leading space. */
  const MissingRatingEmoji: string := "\U{201A}\U{F9}\U{EC}"

  /** Distinct bands get distinct strings, so the emoji tells the band. */
  lemma BandEmojiInjective(a: Band, b: Band)
    requires BandEmoji(a) == BandEmoji(b)
    ensures a == b
  {
  }

  /** The emoji one professor gets. */
  function Annotated(p: Professor): Professor {
    p.(ratingEmoji := Some(match p.averageRating
                           case Some(r) => RatingEmoji(r)
                           case None => MissingRatingEmoji))
  }

  /** The loop `for prof in data["professors"]` of `generate_response`. */
  function AnnotateProfessors(profs: seq<Professor>): (r: seq<Professor>)
    ensures |r| == |profs|
    ensures forall i :: 0 <= i < |r| ==> r[i] == Annotated(profs[i])
  {
    seq(|profs|, i requires 0 <= i < |profs| => Annotated(profs[i]))
  }

  /** The annotation sets `rating_emoji` on every professor, changes no other
      field, gives the band of the rating when the key is present and the
      bare question mark when it is absent, and re-annotating changes
      nothing. */
  lemma AnnotateProfessorsSpec(profs: seq<Professor>)
    ensures var r := AnnotateProfessors(profs);
      && |r| == |profs|
      && (forall i :: 0 <= i < |r| ==>
            && r[i].ratingEmoji.Some?
            && r[i].(ratingEmoji := profs[i].ratingEmoji) == profs[i]
            && (profs[i].averageRating.Some? ==>
                  r[i].ratingEmoji.value == BandEmoji(RatingBand(profs[i].averageRating.value)))
            && (profs[i].averageRating.None? ==> r[i].ratingEmoji.value == MissingRatingEmoji))
      && AnnotateProfessors(r) == r
  {
  }

  /** A professor whose rating is `null` and one without a rating key both
      read as unknown, but the two strings differ by the leading space. */
  lemma NullAndMissingRatingDiffer(name: string)
    ensures Annotated(Professor(name, Some(None), None, None)).ratingEmoji
         == Some(" " + MissingRatingEmoji)
    ensures Annotated(Professor(name, None, None, None)).ratingEmoji
         == Some(MissingRatingEmoji)
  {
    assert RatingBand(None) == Unknown;
    assert BandEmoji(Unknown) == " " + MissingRatingEmoji;
  }
}
