/** Stable sorting by an integer key, as `sorted(..., key=...)` and `list.sort(key=...)` do. */
module StableSort {
  function Insert<T>(s: seq<T>, x: T, key: T -> int): seq<T> {
    if s == [] || key(s[|s| - 1]) <= key(x) then s + [x]
    else Insert(s[..|s| - 1], x, key) + [s[|s| - 1]]
  }

  function Sort<T>(s: seq<T>, key: T -> int): seq<T> {
    if s == [] then [] else Insert(Sort(s[..|s| - 1], key), s[|s| - 1], key)
  }

  ghost predicate Ascending<T>(s: seq<T>, key: T -> int) {
    forall i, j :: 0 <= i < j < |s| ==> key(s[i]) <= key(s[j])
  }

  lemma {:induction false} InsertKeeps<T>(s: seq<T>, x: T, key: T -> int)
    ensures multiset(Insert(s, x, key)) == multiset(s) + multiset{x}
  {
    if s != [] && key(s[|s| - 1]) > key(x) {
      InsertKeeps(s[..|s| - 1], x, key);
      assert s == s[..|s| - 1] + [s[|s| - 1]];
    }
  }

  /** Inserting keeps the order; the new element or the old last one ends up last. */
  lemma {:induction false} InsertSorts<T>(s: seq<T>, x: T, key: T -> int)
    requires Ascending(s, key)
    ensures Ascending(Insert(s, x, key), key)
    ensures |Insert(s, x, key)| == |s| + 1
    ensures
      var last := Insert(s, x, key)[|s|];
      last == x || (s != [] && last == s[|s| - 1] && key(x) <= key(last))
  {
    if s != [] && key(s[|s| - 1]) > key(x) {
      var front, last := s[..|s| - 1], s[|s| - 1];
      InsertSorts(front, x, key);
      var inserted := Insert(front, x, key);
      assert key(inserted[|front|]) <= key(last);
      forall i | 0 <= i < |inserted| ensures key(inserted[i]) <= key(last) {
        if i < |front| { assert key(inserted[i]) <= key(inserted[|front|]); }
      }
    }
  }

  /** The result is ascending and holds exactly the same elements. */
  lemma {:induction false} SortSorts<T>(s: seq<T>, key: T -> int)
    ensures Ascending(Sort(s, key), key)
    ensures multiset(Sort(s, key)) == multiset(s)
  {
    if s != [] {
      var front, last := s[..|s| - 1], s[|s| - 1];
      SortSorts(front, key);
      InsertSorts(Sort(front, key), last, key);
      InsertKeeps(Sort(front, key), last, key);
      assert s == front + [last];
    }
  }

  /** The elements with this key, in order. */
  function Alike<T>(s: seq<T>, key: T -> int, k: int): seq<T> {
    if s == [] then []
    else Alike(s[..|s| - 1], key, k) + if key(s[|s| - 1]) == k then [s[|s| - 1]] else []
  }

  lemma {:induction false} InsertIsStable<T>(s: seq<T>, x: T, key: T -> int, k: int)
    ensures Alike(Insert(s, x, key), key, k) == Alike(s, key, k) + if key(x) == k then [x] else []
  {
    if s == [] || key(s[|s| - 1]) <= key(x) {
      assert (s + [x])[..|s|] == s;
    } else {
      var front, last := s[..|s| - 1], s[|s| - 1];
      InsertIsStable(front, x, key, k);
      var inserted := Insert(front, x, key);
      assert (inserted + [last])[..|inserted|] == inserted;
    }
  }

  /** Elements with equal keys keep their order. */
  lemma {:induction false} SortIsStable<T>(s: seq<T>, key: T -> int, k: int)
    ensures Alike(Sort(s, key), key, k) == Alike(s, key, k)
  {
    if s != [] {
      SortIsStable(s[..|s| - 1], key, k);
      InsertIsStable(Sort(s[..|s| - 1], key), s[|s| - 1], key, k);
    }
  }

  // ---------------------------------------------------------------------------------------- sums do not see the order

  ghost function Total<T>(s: seq<T>, value: T -> int): int {
    if s == [] then 0 else Total(s[..|s| - 1], value) + value(s[|s| - 1])
  }

  lemma TotalOneMore<T>(s: seq<T>, x: T, value: T -> int)
    ensures Total(s + [x], value) == Total(s, value) + value(x)
  {
    assert (s + [x])[..|s|] == s;
  }

  lemma {:induction false} TotalAppend<T>(a: seq<T>, b: seq<T>, value: T -> int)
    ensures Total(a + b, value) == Total(a, value) + Total(b, value)
  {
    if b == [] {
      assert a + b == a;
    } else {
      TotalAppend(a, b[..|b| - 1], value);
      assert (a + b)[..|a + b| - 1] == a + b[..|b| - 1];
    }
  }

  lemma {:induction false} InsertKeepsTotal<T>(s: seq<T>, x: T, key: T -> int, value: T -> int)
    ensures Total(Insert(s, x, key), value) == Total(s, value) + value(x)
  {
    if s == [] || key(s[|s| - 1]) <= key(x) {
      TotalOneMore(s, x, value);
    } else {
      InsertKeepsTotal(s[..|s| - 1], x, key, value);
      TotalOneMore(Insert(s[..|s| - 1], x, key), s[|s| - 1], value);
    }
  }

  /** Sorting changes no sum. */
  lemma {:induction false} SortKeepsTotal<T>(s: seq<T>, key: T -> int, value: T -> int)
    ensures Total(Sort(s, key), value) == Total(s, value)
  {
    if s != [] {
      SortKeepsTotal(s[..|s| - 1], key, value);
      InsertKeepsTotal(Sort(s[..|s| - 1], key), s[|s| - 1], key, value);
    }
  }
}
