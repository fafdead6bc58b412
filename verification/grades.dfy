/** `filter_recent_grades` and `sort_professor_reviews`
    (planetterp_core.py), with the current year passed in. */
module Grades {
  import opened Wrappers
  import opened Text
  import opened Sorting
  import opened PlanetTerpData

  // ---------------------------------------------------------------------
  // Python's int() on a string, for ASCII digits
  // ---------------------------------------------------------------------

  /** What `int()` strips around its argument: ASCII space, tab, newline,
      vertical tab, form feed and carriage return, and every non-ASCII
      character `str.split()` treats as whitespace (U+001C..U+001F are NOT
      stripped). */
  predicate IsIntSpace(c: char) {
    c == ' ' || ('\t' <= c <= '\r') || (c as int >= 128 && IsPyWhitespace(c))
  }

  function StripIntSpace(s: string): (r: string)
    ensures |r| <= |s|
    decreases |s|
  {
    if |s| > 0 && IsIntSpace(s[0]) then StripIntSpace(s[1..])
    else if |s| > 0 && IsIntSpace(s[|s| - 1]) then StripIntSpace(s[..|s| - 1])
    else s
  }

  /** Digits, possibly grouped by single underscores, starting and ending with a digit. */
  predicate IsDigitRun(d: string) {
    && |d| > 0
    && IsAsciiDigit(d[0]) && IsAsciiDigit(d[|d| - 1])
    && (forall k :: 0 <= k < |d| ==> IsAsciiDigit(d[k]) || d[k] == '_')
    && (forall k :: 0 <= k < |d| - 1 ==> d[k] == '_' ==> d[k + 1] != '_')
  }

  /** Decimal value of a digit run, underscores skipped. */
  function DigitRunValue(d: string): int
    decreases |d|
  {
    if |d| == 0 then 0
    else if d[|d| - 1] == '_' then DigitRunValue(d[..|d| - 1])
    else 10 * DigitRunValue(d[..|d| - 1]) + (d[|d| - 1] as int - '0' as int)
  }

  /** `int(s)`: `None` where Python raises `ValueError`. */
  function ParseInt(s: string): Option<int> {
    var t := StripIntSpace(s);
    if |t| > 0 && (t[0] == '+' || t[0] == '-') then
      if IsDigitRun(t[1..]) then
        Some(if t[0] == '-' then -DigitRunValue(t[1..]) else DigitRunValue(t[1..]))
      else None
    else if IsDigitRun(t) then Some(DigitRunValue(t))
    else None
  }

  lemma ParseIntExamples()
    ensures ParseInt("2024") == Some(2024)
    ensures ParseInt("0_12") == Some(12)
    ensures ParseInt(" 202") == Some(202)
    ensures ParseInt("-202") == Some(-202)
    ensures ParseInt("20_") == None
    ensures ParseInt("") == None
  {
    assert DigitRunValue("2024") == 2024 by {
      assert "2024"[..3] == "202" && "202"[..2] == "20" && "20"[..1] == "2" && "2"[..0] == "";
    }
    assert DigitRunValue("0_12") == 12 by {
      assert "0_12"[..3] == "0_1" && "0_1"[..2] == "0_" && "0_"[..1] == "0" && "0"[..0] == "";
    }
    assert DigitRunValue("202") == 202 by {
      assert "202"[..2] == "20" && "20"[..1] == "2" && "2"[..0] == "";
    }
    assert StripIntSpace("2024") == "2024";
    assert StripIntSpace("0_12") == "0_12";
    assert StripIntSpace(" 202") == "202" by {
      assert " 202"[1..] == "202";
    }
    assert StripIntSpace("-202") == "-202";
    assert "-202"[1..] == "202";
    assert StripIntSpace("20_") == "20_";
  }

  // ---------------------------------------------------------------------
  // filter_recent_grades
  // ---------------------------------------------------------------------

  /** `g.get('semester')` is truthy: present, not null, not empty. */
  predicate HasSemester(g: Grade) {
    g.semester.Some? && |g.semester.value| > 0
  }

  /** `semester[:4]`. */
  function YearPrefix(semester: string): string {
    if |semester| <= 4 then semester else semester[..4]
  }

  /** The row makes `int(semester[:4])` raise. */
  predicate YearUnreadable(g: Grade) {
    HasSemester(g) && ParseInt(YearPrefix(g.semester.value)).None?
  }

  /** The row passes the comprehension's condition for the cut-off year. */
  predicate IsRecent(g: Grade, cutoff: int) {
    && HasSemester(g)
    && ParseInt(YearPrefix(g.semester.value)).Some?
    && ParseInt(YearPrefix(g.semester.value)).value >= cutoff
  }

  /** Sort key `x.get('semester', '000000')`. */
  function SemesterKey(g: Grade): string {
    g.semester.GetOr("000000")
  }

  /** Reference: the recent rows, in input order. */
  function RecentRows(grades: seq<Grade>, cutoff: int): seq<Grade> {
    if |grades| == 0 then []
    else (if IsRecent(grades[0], cutoff) then [grades[0]] else []) + RecentRows(grades[1..], cutoff)
  }

  /** The list comprehension, evaluated left to right; it raises at the
      first row whose year prefix is not an integer. */
  function Comprehension(grades: seq<Grade>, cutoff: int): (r: Result<seq<Grade>, PyError>)
    ensures r.Failure? <==> exists i :: 0 <= i < |grades| && YearUnreadable(grades[i])
    ensures r.Success? ==> r.value == RecentRows(grades, cutoff)
    decreases |grades|
  {
    if |grades| == 0 then Success([])
    else
      var g := grades[0];
      if !HasSemester(g) then
        var rest := Comprehension(grades[1..], cutoff);
        assert forall i :: 1 <= i < |grades| ==> grades[i] == grades[1..][i - 1];
        rest
      else match ParseInt(YearPrefix(g.semester.value))
        case None => Failure(ValueError)
        case Some(year) =>
          match Comprehension(grades[1..], cutoff)
          case Failure(e) =>
            assert exists i :: 1 <= i < |grades| && YearUnreadable(grades[i]) by {
              var j :| 0 <= j < |grades[1..]| && YearUnreadable(grades[1..][j]);
              assert grades[j + 1] == grades[1..][j];
            }
            Failure(e)
          case Success(rest) =>
            assert forall i :: 1 <= i < |grades| ==> grades[i] == grades[1..][i - 1];
            Success(if year >= cutoff then [g] + rest else rest)
  }

  lemma {:induction false} RecentRowsCount(grades: seq<Grade>, cutoff: int, g: Grade)
    ensures multiset(RecentRows(grades, cutoff))[g]
         == if IsRecent(g, cutoff) then multiset(grades)[g] else 0
    decreases |grades|
  {
    if |grades| > 0 {
      RecentRowsCount(grades[1..], cutoff, g);
      assert grades == [grades[0]] + grades[1..];
    }
  }

  lemma RecentRowsCounts(grades: seq<Grade>, cutoff: int)
    ensures forall g :: multiset(RecentRows(grades, cutoff))[g]
                     == (if IsRecent(g, cutoff) then multiset(grades)[g] else 0)
  {
    forall g
      ensures multiset(RecentRows(grades, cutoff))[g]
           == (if IsRecent(g, cutoff) then multiset(grades)[g] else 0)
    {
      RecentRowsCount(grades, cutoff, g);
    }
  }

  lemma SortedRecentRows(grades: seq<Grade>, cutoff: int)
    ensures var r := SortDesc(RecentRows(grades, cutoff), SemesterKey);
      && (forall g :: multiset(r)[g] == (if IsRecent(g, cutoff) then multiset(grades)[g] else 0))
      && SortedDesc(r, SemesterKey)
      && (forall k :: WithKey(r, SemesterKey, k) == WithKey(RecentRows(grades, cutoff), SemesterKey, k))
  {
    SortDescCorrect(RecentRows(grades, cutoff), SemesterKey);
    RecentRowsCounts(grades, cutoff);
  }

  /** `filter_recent_grades(grades, years)` in year `currentYear`: either
      `ValueError`, exactly when some row has a semester whose first four
      characters are not an integer, or the rows whose year prefix is at
      least `currentYear - years`, each as often as in the input, sorted by
      semester string from newest to oldest, rows of the same semester in
      input order. */
  function FilterRecentGrades(grades: seq<Grade>, years: int, currentYear: int): (r: Result<seq<Grade>, PyError>)
    ensures r.Failure? <==> exists i :: 0 <= i < |grades| && YearUnreadable(grades[i])
    ensures r.Success? ==>
      forall g :: multiset(r.value)[g] == (if IsRecent(g, currentYear - years) then multiset(grades)[g] else 0)
    ensures r.Success? ==> SortedDesc(r.value, SemesterKey)
    ensures r.Success? ==>
      forall k :: WithKey(r.value, SemesterKey, k) == WithKey(RecentRows(grades, currentYear - years), SemesterKey, k)
  {
    match Comprehension(grades, currentYear - years)
    case Failure(e) => Failure(e)
    case Success(recent) =>
      SortedRecentRows(grades, currentYear - years);
      Success(SortDesc(recent, SemesterKey))
  }

  /** The source's default window: four years. */
  const DefaultYears := 4

  // ---------------------------------------------------------------------
  // sort_professor_reviews
  // ---------------------------------------------------------------------

  /** Sort key `x.get('created', '')`. */
  function CreatedKey(r: Review): string {
    r.created.GetOr("")
  }

  /** `sort_professor_reviews(professor_data)`; `None` is a missing professor. */
  function SortProfessorReviews(data: Option<Professor>): (r: Option<Professor>)
    ensures r.None? <==> data.None?
    ensures r.Some? ==> r.value.(reviews := data.value.reviews) == data.value
    ensures r.Some? ==> (r.value.reviews.None? <==> data.value.reviews.None?)
    ensures r.Some? && data.value.reviews.Some? ==>
      var before := data.value.reviews.value;
      var after := r.value.reviews.value;
      && multiset(after) == multiset(before)
      && SortedDesc(after, CreatedKey)
      && (forall k :: WithKey(after, CreatedKey, k) == WithKey(before, CreatedKey, k))
    ensures data.Some? && (data.value.reviews.None? || data.value.reviews.value == []) ==> r == data
  {
    if data.Some? && data.value.reviews.Some? && |data.value.reviews.value| > 0 then
      var reviews := data.value.reviews.value;
      SortDescCorrect(reviews, CreatedKey);
      Some(data.value.(reviews := Some(SortDesc(reviews, CreatedKey))))
    else
      data
  }
}
