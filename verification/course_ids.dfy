/** The course-code scanner of `extract_course_ids` (planetterp_core.py):
    `re.findall(r'\b[A-Z]{4}\d{3}[A-Z]?\b', query.upper())`, written out as
    the scan Python's regex engine performs, over ASCII. */
module CourseIds {
  import opened Wrappers
  import opened Text

  /** Regex `\b` between positions `i - 1` and `i` of `u`. */
  predicate Boundary(u: string, i: nat)
    requires i <= |u|
  {
    (i > 0 && IsWordChar(u[i - 1])) != (i < |u| && IsWordChar(u[i]))
  }

  /** `[A-Z]{4}\d{3}` starting at `i`. */
  predicate StemAt(u: string, i: nat) {
    && i + 7 <= |u|
    && (forall k :: i <= k < i + 4 ==> IsAsciiUpper(u[k]))
    && (forall k :: i + 4 <= k < i + 7 ==> IsAsciiDigit(u[k]))
  }

  /** Length of the match the pattern makes when tried at `i`, if any. The
      optional letter is greedy: the engine first tries eight characters and
      backtracks to seven when the closing `\b` fails. */
  function MatchLen(u: string, i: nat): Option<nat> {
    if i > |u| || !Boundary(u, i) || !StemAt(u, i) then None
    else if i + 8 <= |u| && IsAsciiUpper(u[i + 7]) && Boundary(u, i + 8) then Some(8)
    else if Boundary(u, i + 7) then Some(7)
    else None
  }

  /** `re.findall`: try at `i`; after a match resume at its end, otherwise at `i + 1`. */
  function Scan(u: string, i: nat): seq<string>
    decreases |u| - i
  {
    if i >= |u| then []
    else match MatchLen(u, i)
      case Some(n) => (if i + n <= |u| then [u[i..i + n]] else []) + Scan(u, i + n)
      case None => Scan(u, i + 1)
  }

  /** `extract_course_ids(query)`. */
  function ExtractCourseIds(query: string): seq<string> {
    Scan(Upper(query), 0)
  }

  // ---------------------------------------------------------------------
  // Reference definition and its agreement with the scanner
  // ---------------------------------------------------------------------

  /** What a course code looks like: four capital letters, three digits and
      an optional capital letter. */
  predicate IsCourseCode(id: string) {
    && (|id| == 7 || |id| == 8)
    && (forall k :: 0 <= k < 4 ==> IsAsciiUpper(id[k]))
    && (forall k :: 4 <= k < 7 ==> IsAsciiDigit(id[k]))
    && (|id| == 8 ==> IsAsciiUpper(id[7]))
  }

  /** `id` occurs at `p` in `u` as a whole word: no word character touches it. */
  predicate StandsAlone(u: string, p: nat, id: string) {
    && p + |id| <= |u|
    && u[p..p + |id|] == id
    && (p == 0 || !IsWordChar(u[p - 1]))
    && (p + |id| == |u| || !IsWordChar(u[p + |id|]))
  }

  /** Reference: every position from `i` on, in order, contributes the code
      the pattern matches there (no skipping after a match). */
  function AllMatches(u: string, i: nat): seq<string>
    decreases |u| - i
  {
    if i >= |u| then []
    else
      (match MatchLen(u, i)
       case Some(n) => if i + n <= |u| then [u[i..i + n]] else []
       case None => [])
      + AllMatches(u, i + 1)
  }

  /** A match is a whole-word course code of the length reported. */
  lemma MatchIsCode(u: string, i: nat)
    requires MatchLen(u, i).Some?
    ensures var n := MatchLen(u, i).value;
      i + n <= |u| && IsCourseCode(u[i..i + n]) && StandsAlone(u, i, u[i..i + n])
  {
  }

  /** No match starts strictly inside another one: inside a match the
      previous character is a word character, so `\b` cannot hold. */
  lemma NoMatchInside(u: string, i: nat, p: nat)
    requires MatchLen(u, i).Some? && i < p < i + MatchLen(u, i).value
    ensures MatchLen(u, p).None?
  {
    assert IsWordChar(u[p - 1]);
    if p < |u| {
      assert IsWordChar(u[p]) || !StemAt(u, p);
    }
  }

  lemma {:induction false} SkipsNothing(u: string, a: nat, b: nat)
    requires a <= b
    requires forall p :: a <= p < b ==> MatchLen(u, p).None?
    ensures AllMatches(u, a) == AllMatches(u, b)
    decreases b - a
  {
    if a < b {
      SkipsNothing(u, a + 1, b);
      if a < |u| {
        assert AllMatches(u, a) == [] + AllMatches(u, a + 1);
      } else {
        assert a >= |u| && b >= |u|;
      }
    }
  }

  /** The scanner agrees with the reference: jumping over a match loses
      nothing, because no match can start inside another. */
  lemma {:induction false} ScanIsAllMatches(u: string, i: nat)
    ensures Scan(u, i) == AllMatches(u, i)
    decreases |u| - i
  {
    if i < |u| {
      match MatchLen(u, i)
      case Some(n) =>
        forall p | i + 1 <= p < i + n
          ensures MatchLen(u, p).None?
        {
          NoMatchInside(u, i, p);
        }
        SkipsNothing(u, i + 1, i + n);
        ScanIsAllMatches(u, i + n);
      case None =>
        ScanIsAllMatches(u, i + 1);
    }
  }

  /** Every element of the reference list is a whole-word code in `u` at or after `i`. */
  lemma {:induction false} AllMatchesAreCodes(u: string, i: nat)
    ensures forall id :: id in AllMatches(u, i) ==> IsCourseCode(id)
    ensures forall id :: id in AllMatches(u, i) ==>
      exists p: nat :: i <= p && MatchLen(u, p) == Some(|id|) && StandsAlone(u, p, id)
    decreases |u| - i
  {
    if i < |u| {
      AllMatchesAreCodes(u, i + 1);
      if MatchLen(u, i).Some? {
        MatchIsCode(u, i);
      }
    }
  }

  /** Every position where the pattern matches contributes its code. */
  lemma {:induction false} AllMatchesComplete(u: string, i: nat, p: nat)
    requires i <= p && MatchLen(u, p).Some?
    ensures p + MatchLen(u, p).value <= |u|
    ensures u[p..p + MatchLen(u, p).value] in AllMatches(u, i)
    decreases p - i
  {
    if i < p {
      AllMatchesComplete(u, i + 1, p);
    }
  }

  /** `extract_course_ids`: case is ignored, every id is a course code that
      stands alone as a word of the upper-cased query, and the ids are
      exactly those at the positions where the pattern matches, left to
      right (the reference list tries every position). */
  lemma ExtractCourseIdsSpec(query: string)
    ensures ExtractCourseIds(query) == AllMatches(Upper(query), 0)
    ensures ExtractCourseIds(Upper(query)) == ExtractCourseIds(query)
    ensures forall id :: id in ExtractCourseIds(query) ==> IsCourseCode(id)
    ensures forall id :: id in ExtractCourseIds(query) ==>
      exists p: nat :: MatchLen(Upper(query), p) == Some(|id|) && StandsAlone(Upper(query), p, id)
    ensures forall p: nat :: MatchLen(Upper(query), p).Some? ==>
      Upper(query)[p..p + MatchLen(Upper(query), p).value] in ExtractCourseIds(query)
  {
    ScanIsAllMatches(Upper(query), 0);
    UpperIdempotent(query);
    ExtractedAreCodes(query);
    ExtractedStandAlone(query);
    ExtractedComplete(query);
  }

  lemma ExtractedStandAlone(query: string)
    ensures forall id :: id in ExtractCourseIds(query) ==>
      exists p: nat :: MatchLen(Upper(query), p) == Some(|id|) && StandsAlone(Upper(query), p, id)
  {
    ScanIsAllMatches(Upper(query), 0);
    AllMatchesAreCodes(Upper(query), 0);
  }

  lemma ExtractedComplete(query: string)
    ensures forall p: nat :: MatchLen(Upper(query), p).Some? ==>
      Upper(query)[p..p + MatchLen(Upper(query), p).value] in ExtractCourseIds(query)
  {
    var u := Upper(query);
    ScanIsAllMatches(u, 0);
    forall p: nat | MatchLen(u, p).Some?
      ensures u[p..p + MatchLen(u, p).value] in ExtractCourseIds(query)
    {
      AllMatchesComplete(u, 0, p);
    }
  }

  /** Every extracted id has the course-code shape (length 7 or 8). */
  lemma ExtractedAreCodes(query: string)
    ensures forall id :: id in ExtractCourseIds(query) ==> IsCourseCode(id)
  {
    ScanIsAllMatches(Upper(query), 0);
    AllMatchesAreCodes(Upper(query), 0);
  }

  // ---------------------------------------------------------------------
  // Examples
  // ---------------------------------------------------------------------

  /** A code glued to a longer run of word characters is not extracted. */
  lemma EmbeddedCodesIgnored()
    ensures ExtractCourseIds("XCMSC131") == []
    ensures ExtractCourseIds("CMSC1311") == []
  {
    assert Upper("XCMSC131") == "XCMSC131";
    assert Upper("CMSC1311") == "CMSC1311";
  }

  /** Lower-case codes are found, with and without the trailing letter. */
  lemma CodesFound()
    ensures ExtractCourseIds("cmsc330 or MATH140h?") == ["CMSC330", "MATH140H"]
  {
    UpperOfExample();
    ScanOfExample();
  }

  lemma UpperOfExample()
    ensures Upper("cmsc330 or MATH140h?") == "CMSC330 OR MATH140H?"
  {
  }

  lemma ScanOfExample()
    ensures Scan("CMSC330 OR MATH140H?", 0) == ["CMSC330", "MATH140H"]
  {
    var u := "CMSC330 OR MATH140H?";
    ScanOfExampleTail();
    ScanOfExampleGap();
    assert MatchLen(u, 0) == Some(7);
    assert u[0..7] == "CMSC330";
  }

  lemma ScanOfExampleGap()
    ensures Scan("CMSC330 OR MATH140H?", 7) == Scan("CMSC330 OR MATH140H?", 11)
  {
    var u := "CMSC330 OR MATH140H?";
    assert MatchLen(u, 7).None? && MatchLen(u, 8).None?;
    assert MatchLen(u, 9).None? && MatchLen(u, 10).None?;
  }

  lemma ScanOfExampleTail()
    ensures Scan("CMSC330 OR MATH140H?", 11) == ["MATH140H"]
  {
    var u := "CMSC330 OR MATH140H?";
    assert MatchLen(u, 19).None?;
    assert MatchLen(u, 11) == Some(8);
    assert u[11..19] == "MATH140H";
  }
}
