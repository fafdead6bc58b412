/** The post-processing loop of `search` (planetterp_core.py): the
    nearest-neighbour labels the vector index returns for a query are
    turned into course ids. The embedding and the index lookup themselves
    are outside the model; their output, one row of `k` labels, is the
    input `labels`. */
module Search {
  import opened Wrappers

  /** No value occurs twice. */
  predicate NoDup<T(==)>(s: seq<T>) {
    forall i, j :: 0 <= i < j < |s| ==> s[i] != s[j]
  }

  /** Python `ids[idx]` for an index in range; a negative index counts from the end. */
  function PyIndex(ids: seq<string>, idx: int): string
    requires -|ids| <= idx < |ids|
  {
    if idx >= 0 then ids[idx] else ids[|ids| + idx]
  }

  /** The ids the labels name, in label order, repeats kept: labels at or
      past `len(course_ids)` are skipped by the source's guard. */
  function Hits(labels: seq<int>, ids: seq<string>): seq<string> {
    if |labels| == 0 then []
    else
      var init := Hits(labels[..|labels| - 1], ids);
      var idx := labels[|labels| - 1];
      if -|ids| <= idx < |ids| then init + [PyIndex(ids, idx)] else init
  }

  /** Reference: keep the first occurrence of every value. */
  function Dedup<T(==)>(s: seq<T>): seq<T> {
    if |s| == 0 then []
    else
      var d := Dedup(s[..|s| - 1]);
      if s[|s| - 1] in d then d else d + [s[|s| - 1]]
  }

  /** Position of the first occurrence of `x` in `s`. */
  function FirstIndex<T(==)>(s: seq<T>, x: T): (i: nat)
    requires x in s
    ensures i < |s| && s[i] == x
    ensures forall j :: 0 <= j < i ==> s[j] != x
  {
    if s[0] == x then 0 else 1 + FirstIndex(s[1..], x)
  }

  lemma {:induction false} FirstIndexInPrefix<T>(s: seq<T>, y: T, x: T)
    requires x in s
    ensures FirstIndex(s + [y], x) == FirstIndex(s, x)
  {
    var i := FirstIndex(s, x);
    var t := s + [y];
    assert t[i] == x;
    assert forall j :: 0 <= j < i ==> t[j] == s[j];
    FirstIndexUnique(t, x, i);
  }

  lemma FirstIndexUnique<T>(s: seq<T>, x: T, i: nat)
    requires i < |s| && s[i] == x
    requires forall j :: 0 <= j < i ==> s[j] != x
    ensures FirstIndex(s, x) == i
  {
    var f := FirstIndex(s, x);
    assert !(f < i) && !(i < f);
  }

  lemma {:induction false} DedupMembers<T>(s: seq<T>)
    ensures forall x :: x in Dedup(s) <==> x in s
    decreases |s|
  {
    if |s| > 0 {
      DedupMembers(s[..|s| - 1]);
      assert s == s[..|s| - 1] + [s[|s| - 1]];
    }
  }

  lemma DedupPrefixIndex<T>(init: seq<T>, y: T, x: T)
    requires x in Dedup(init)
    ensures x in init && FirstIndex(init + [y], x) == FirstIndex(init, x) < |init|
  {
    DedupMembers(init);
    FirstIndexInPrefix(init, y, x);
  }

  /** `Dedup` keeps exactly the values of its input, once each, no more of
      them than the input has, ordered by where each value first occurs. */
  lemma {:induction false} DedupSpec<T>(s: seq<T>)
    ensures NoDup(Dedup(s))
    ensures forall x :: x in Dedup(s) <==> x in s
    ensures |Dedup(s)| <= |s|
    ensures forall a, b :: 0 <= a < b < |Dedup(s)| ==>
      FirstIndex(s, Dedup(s)[a]) < FirstIndex(s, Dedup(s)[b])
    decreases |s|
  {
    if |s| > 0 {
      var init := s[..|s| - 1];
      var y := s[|s| - 1];
      DedupSpec(init);
      DedupMembers(init);
      DedupMembers(s);
      var d := Dedup(init);
      forall x | x in d
        ensures FirstIndex(init + [y], x) == FirstIndex(init, x) < |init|
      {
        DedupPrefixIndex(init, y, x);
      }
      assert s == init + [y];
      if y !in d {
        assert y !in init;
        FirstIndexUnique(s, y, |s| - 1);
        var r := d + [y];
        forall a, b | 0 <= a < b < |r|
          ensures FirstIndex(s, r[a]) < FirstIndex(s, r[b])
        {
          assert r[a] == d[a];
          if b < |d| {
            assert r[b] == d[b];
          }
        }
      }
    }
  }

  /** What `search` returns: nothing without an index, `IndexError` when a
      label lies below `-len(course_ids)`, otherwise the distinct hits in
      order of first appearance. */
  function SearchSpec(indexLoaded: bool, labels: seq<int>, ids: seq<string>): Result<seq<string>, PyError> {
    if !indexLoaded then Success([])
    else if exists j :: 0 <= j < |labels| && labels[j] < -|ids| then Failure(IndexError)
    else Success(Dedup(Hits(labels, ids)))
  }

  /** The post-processing loop of `search(query, index, course_ids, model,
      k)`. `indexLoaded` is `index is not None`; `labels` is the row the
      index returns. A label below `-len(course_ids)` makes Python raise. */
  method SearchResults(indexLoaded: bool, labels: seq<int>, ids: seq<string>)
    returns (r: Result<seq<string>, PyError>)
    ensures r == SearchSpec(indexLoaded, labels, ids)
    ensures !indexLoaded ==> r == Success([])
    ensures indexLoaded ==> (r.Failure? <==> exists j :: 0 <= j < |labels| && labels[j] < -|ids|)
    ensures r.Success? ==> NoDup(r.value) && |r.value| <= |labels|
    ensures r.Success? ==> forall c :: c in r.value ==> c in ids
    ensures indexLoaded && r.Success? ==> forall c :: c in r.value <==> c in Hits(labels, ids)
    ensures indexLoaded && r.Success? ==> forall a, b :: 0 <= a < b < |r.value| ==>
      FirstIndex(Hits(labels, ids), r.value[a]) < FirstIndex(Hits(labels, ids), r.value[b])
  {
    if !indexLoaded {
      return Success([]);
    }
    var results: seq<string> := [];
    var i := 0;
    while i < |labels|
      invariant 0 <= i <= |labels|
      invariant forall j :: 0 <= j < i ==> labels[j] >= -|ids|
      invariant results == Dedup(Hits(labels[..i], ids))
      invariant |Hits(labels[..i], ids)| <= i
      invariant forall c :: c in Hits(labels[..i], ids) ==> c in ids
    {
      var idx := labels[i];
      assert labels[..i + 1][..i] == labels[..i];
      if idx < |ids| {
        if idx < -|ids| {
          return Failure(IndexError);
        }
        var courseId := if idx >= 0 then ids[idx] else ids[|ids| + idx];
        if courseId !in results {
          results := results + [courseId];
        }
      }
      i := i + 1;
    }
    assert labels[..i] == labels;
    DedupSpec(Hits(labels, ids));
    return Success(results);
  }

  /** With an exact (flat) index, a label of -1 only ever fills the row
      after every stored vector has been returned, so the last course id is
      already a hit when Python reads `course_ids[-1]`: the filler labels
      change nothing. */
  lemma {:induction false} FillerLabelsChangeNothing(labels: seq<int>, ids: seq<string>)
    requires |ids| > 0
    requires forall j :: 0 <= j < |labels| ==> -1 <= labels[j] < |ids|
    requires forall j :: 0 <= j < |labels| && labels[j] == -1 ==>
      exists j' :: 0 <= j' < j && labels[j'] == |ids| - 1
    ensures Dedup(Hits(labels, ids)) == Dedup(Hits(NonNegative(labels), ids))
    decreases |labels|
  {
    if |labels| > 0 {
      var init := labels[..|labels| - 1];
      var x := labels[|labels| - 1];
      assert labels == init + [x];
      forall j | 0 <= j < |init| && init[j] == -1
        ensures exists j' :: 0 <= j' < j && init[j'] == |ids| - 1
      {
        assert labels[j] == -1;
        var j' :| 0 <= j' < j && labels[j'] == |ids| - 1;
        assert init[j'] == labels[j'];
      }
      FillerLabelsChangeNothing(init, ids);
      NonNegativeSnoc(init, x);
      if x == -1 {
        var j' :| 0 <= j' < |labels| - 1 && labels[j'] == |ids| - 1;
        FillerIsRepeat(init, ids, j');
        assert Hits(labels, ids) == Hits(init, ids) + [ids[|ids| - 1]];
        assert NonNegative(labels) == NonNegative(init);
      } else {
        HitsSnoc(init, ids, x);
        HitsSnoc(NonNegative(init), ids, x);
        DedupSnoc(Hits(init, ids), ids[x]);
        DedupSnoc(Hits(NonNegative(init), ids), ids[x]);
      }
    }
  }

  /** Appending a hit that is already there leaves the deduplicated list alone. */
  lemma FillerIsRepeat(init: seq<int>, ids: seq<string>, j: nat)
    requires j < |init| && init[j] == |ids| - 1 && |ids| > 0
    ensures Dedup(Hits(init, ids) + [ids[|ids| - 1]]) == Dedup(Hits(init, ids))
  {
    HitsContainsLabel(init, ids, j);
    DedupMembers(Hits(init, ids));
    DedupSnoc(Hits(init, ids), ids[|ids| - 1]);
  }

  lemma DedupSnoc<T>(s: seq<T>, y: T)
    ensures Dedup(s + [y]) == if y in Dedup(s) then Dedup(s) else Dedup(s) + [y]
  {
    assert (s + [y])[..|s|] == s;
  }

  /** The labels that are not negative, in order. */
  function NonNegative(labels: seq<int>): seq<int> {
    if |labels| == 0 then []
    else NonNegative(labels[..|labels| - 1]) + (if labels[|labels| - 1] >= 0 then [labels[|labels| - 1]] else [])
  }

  lemma NonNegativeSnoc(init: seq<int>, x: int)
    ensures NonNegative(init + [x]) == NonNegative(init) + (if x >= 0 then [x] else [])
  {
    assert (init + [x])[..|init|] == init;
  }

  lemma HitsSnoc(init: seq<int>, ids: seq<string>, x: int)
    requires 0 <= x < |ids|
    ensures Hits(init + [x], ids) == Hits(init, ids) + [ids[x]]
  {
    assert (init + [x])[..|init|] == init;
  }

  lemma {:induction false} HitsContainsLabel(labels: seq<int>, ids: seq<string>, j: nat)
    requires j < |labels| && 0 <= labels[j] < |ids|
    ensures ids[labels[j]] in Hits(labels, ids)
    decreases |labels|
  {
    if j < |labels| - 1 {
      var init := labels[..|labels| - 1];
      assert init[j] == labels[j];
      HitsContainsLabel(init, ids, j);
    }
  }
}
