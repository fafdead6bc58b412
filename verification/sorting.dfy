/** Python's `list.sort(key=..., reverse=True)` on string keys: a stable
    sort into descending key order. Stability survives `reverse=True` in
    Python, so records with equal keys keep their original order. */
module Sorting {
  import opened Text

  /** Keys never increase from left to right. */
  predicate SortedDesc<T>(s: seq<T>, key: T -> string) {
    forall i, j :: 0 <= i < j < |s| ==> LexLe(key(s[j]), key(s[i]))
  }

  /** The elements of `s` whose key is `k`, in their order in `s`. */
  function WithKey<T>(s: seq<T>, key: T -> string, k: string): seq<T> {
    if |s| == 0 then []
    else (if key(s[0]) == k then [s[0]] else []) + WithKey(s[1..], key, k)
  }

  /** Puts `x` into a descending list after every element whose key is at
      least as large as `x`'s. */
  function Insert<T>(s: seq<T>, x: T, key: T -> string): seq<T> {
    if |s| == 0 then [x]
    else if LexLe(key(x), key(s[0])) then [s[0]] + Insert(s[1..], x, key)
    else [x] + s
  }

  /** Stable descending sort: each element in turn is inserted into the
      sorted prefix. */
  function SortDesc<T>(s: seq<T>, key: T -> string): seq<T> {
    if |s| == 0 then []
    else Insert(SortDesc(s[..|s| - 1], key), s[|s| - 1], key)
  }

  lemma {:induction false} InsertPermutes<T>(s: seq<T>, x: T, key: T -> string)
    ensures multiset(Insert(s, x, key)) == multiset(s) + multiset{x}
    decreases |s|
  {
    if |s| > 0 && LexLe(key(x), key(s[0])) {
      InsertPermutes(s[1..], x, key);
      assert s == [s[0]] + s[1..];
    }
  }

  lemma {:induction false} InsertSorted<T>(s: seq<T>, x: T, key: T -> string)
    requires SortedDesc(s, key)
    ensures SortedDesc(Insert(s, x, key), key)
    decreases |s|
  {
    if |s| == 0 {
    } else if LexLe(key(x), key(s[0])) {
      InsertSorted(s[1..], x, key);
      var tail := Insert(s[1..], x, key);
      InsertPermutes(s[1..], x, key);
      var r := [s[0]] + tail;
      forall j | 0 < j < |r|
        ensures LexLe(key(r[j]), key(s[0]))
      {
        assert r[j] in multiset(tail);
        assert r[j] in multiset(s[1..]) + multiset{x};
        if r[j] != x {
          assert r[j] in s[1..];
          var m :| 0 <= m < |s[1..]| && s[1..][m] == r[j];
          assert s[m + 1] == r[j];
        }
      }
    } else {
      LexLeTotal(key(x), key(s[0]));
      var r := [x] + s;
      forall j | 0 < j < |r|
        ensures LexLe(key(r[j]), key(x))
      {
        assert r[j] == s[j - 1];
        if j > 1 {
          LexLeTransitive(key(s[j - 1]), key(s[0]), key(x));
        }
      }
    }
  }

  /** Inserting `x` puts it after every element that shares its key, and
      leaves the elements of every other key where they were. */
  lemma {:induction false} InsertWithKey<T>(s: seq<T>, x: T, key: T -> string, k: string)
    requires SortedDesc(s, key)
    ensures WithKey(Insert(s, x, key), key, k)
         == WithKey(s, key, k) + (if key(x) == k then [x] else [])
    decreases |s|
  {
    if |s| == 0 {
    } else if LexLe(key(x), key(s[0])) {
      var head := if key(s[0]) == k then [s[0]] else [];
      var tail := Insert(s[1..], x, key);
      var r := [s[0]] + tail;
      assert r[1..] == tail;
      assert WithKey(r, key, k) == head + WithKey(tail, key, k);
      SortedTail(s, key);
      InsertWithKey(s[1..], x, key, k);
      assert WithKey(s, key, k) == head + WithKey(s[1..], key, k);
    } else {
      var r := [x] + s;
      assert r[1..] == s;
      if key(x) == k {
        NoneWithKey(s, key, k);
      }
    }
  }

  /** A suffix of a descending list is descending. */
  lemma SortedTail<T>(s: seq<T>, key: T -> string)
    requires |s| > 0 && SortedDesc(s, key)
    ensures SortedDesc(s[1..], key)
  {
    forall i, j | 0 <= i < j < |s| - 1
      ensures LexLe(key(s[1..][j]), key(s[1..][i]))
    {
      assert s[1..][j] == s[j + 1] && s[1..][i] == s[i + 1];
    }
  }

  /** In a descending list whose first key is below `k`, nothing has key `k`. */
  lemma {:induction false} NoneWithKey<T>(s: seq<T>, key: T -> string, k: string)
    requires SortedDesc(s, key)
    requires |s| > 0 ==> !LexLe(k, key(s[0]))
    ensures WithKey(s, key, k) == []
    decreases |s|
  {
    if |s| > 0 {
      LexLeReflexive(k);
      if |s| > 1 && LexLe(k, key(s[1])) {
        LexLeTransitive(k, key(s[1]), key(s[0]));
      }
      SortedTail(s, key);
      NoneWithKey(s[1..], key, k);
    }
  }

  lemma {:induction false} WithKeyAppend<T>(a: seq<T>, b: seq<T>, key: T -> string, k: string)
    ensures WithKey(a + b, key, k) == WithKey(a, key, k) + WithKey(b, key, k)
    decreases |a|
  {
    if |a| > 0 {
      assert (a + b)[1..] == a[1..] + b;
      WithKeyAppend(a[1..], b, key, k);
    } else {
      assert a + b == b;
    }
  }

  /** `SortDesc` is Python's stable `sort(key=key, reverse=True)`: it
      permutes its input, the result is in descending key order, and the
      elements sharing a key keep their relative order. */
  lemma {:induction false} SortDescCorrect<T>(s: seq<T>, key: T -> string)
    ensures multiset(SortDesc(s, key)) == multiset(s)
    ensures SortedDesc(SortDesc(s, key), key)
    ensures forall k :: WithKey(SortDesc(s, key), key, k) == WithKey(s, key, k)
    decreases |s|
  {
    if |s| > 0 {
      var init := s[..|s| - 1];
      var last := s[|s| - 1];
      SortDescCorrect(init, key);
      var sorted := SortDesc(init, key);
      InsertPermutes(sorted, last, key);
      InsertSorted(sorted, last, key);
      assert s == init + [last];
      forall k
        ensures WithKey(SortDesc(s, key), key, k) == WithKey(s, key, k)
      {
        InsertWithKey(sorted, last, key, k);
        WithKeyAppend(init, [last], key, k);
      }
    }
  }
}
