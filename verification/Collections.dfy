/** Distinct sequences, sorting, and counting the members of sets. */
module Collections {
  ghost predicate Distinct<T(!new)>(s: seq<T>) {
    forall i, j :: 0 <= i < j < |s| ==> s[i] != s[j]
  }

  ghost function Elements<T(!new)>(s: seq<T>): set<T> {
    set x | x in s
  }

  /** A sequence is distinct exactly when it has as many members as places. */
  lemma {:induction false} DistinctCount<T(!new)>(s: seq<T>)
    ensures |Elements(s)| <= |s|
    ensures |Elements(s)| == |s| <==> Distinct(s)
  {
    if s != [] {
      var front, last := s[..|s| - 1], s[|s| - 1];
      DistinctCount(front);
      assert s == front + [last];
      assert Elements(s) == Elements(front) + {last};
      if last in front {
        assert Elements(s) == Elements(front);
        var i :| 0 <= i < |front| && front[i] == last;
        assert s[i] == s[|s| - 1];
      } else if !Distinct(front) {
        var i, j :| 0 <= i < j < |front| && front[i] == front[j];
        assert s[i] == s[j];
      }
    }
  }

  lemma UnionCount<T>(a: set<T>, b: set<T>)
    ensures |a + b| + |a * b| == |a| + |b|
  {
    assert a + b == a + (b - a) && a !! (b - a);
    assert b == (b - a) + (a * b) && (b - a) !! (a * b);
  }

  lemma SubsetCount<T>(a: set<T>, b: set<T>)
    requires a <= b
    ensures |a| <= |b|
  {
    assert b == a + (b - a) && a !! (b - a);
  }

  lemma UpdateCount<K, V>(m: map<K, V>, k: K, v: V)
    ensures |m[k := v]| == if k in m then |m| else |m| + 1
  {
    assert m[k := v].Keys == m.Keys + {k};
  }

  lemma RemoveCount<K, V>(m: map<K, V>, k: K)
    requires k in m
    ensures |m - {k}| == |m| - 1
  {
    assert (m - {k}).Keys == m.Keys - {k};
  }

  lemma RemoveBoth<K, V>(m: map<K, V>, j: K, k: K)
    requires j in m && k in m && j != k
    ensures m - {j} - {k} == m - {k} - {j}
    ensures k in m - {j} && (m - {j})[k] == m[k] && j in m - {k} && (m - {k})[j] == m[j]
    ensures |m - {j}| == |m - {k}| == |m| - 1
  {
    RemoveCount(m, j);
    RemoveCount(m, k);
  }

  // ---------------------------------------------------------------- sorting

  ghost predicate Ascending<T(!new)>(s: seq<T>, before: (T, T) -> bool) {
    forall i, j :: 0 <= i < j < |s| ==> !before(s[j], s[i])
  }

  ghost predicate IsOrder<T(!new)>(before: (T, T) -> bool) {
    && (forall x, y :: before(x, y) ==> !before(y, x))
    && (forall x, y, z :: before(x, z) ==> before(x, y) || before(y, z))
  }

  function Insert<T>(s: seq<T>, x: T, before: (T, T) -> bool): seq<T> {
    if s == [] || !before(x, s[|s| - 1]) then s + [x]
    else Insert(s[..|s| - 1], x, before) + [s[|s| - 1]]
  }

  function Sort<T>(s: seq<T>, before: (T, T) -> bool): seq<T> {
    if s == [] then [] else Insert(Sort(s[..|s| - 1], before), s[|s| - 1], before)
  }

  lemma {:induction false} InsertKeeps<T>(s: seq<T>, x: T, before: (T, T) -> bool)
    ensures multiset(Insert(s, x, before)) == multiset(s) + multiset{x}
  {
    if s == [] || !before(x, s[|s| - 1]) {
      AppendMultiset(s, x);
    } else {
      var front, last := s[..|s| - 1], s[|s| - 1];
      InsertKeeps(front, x, before);
      AppendMultiset(Insert(front, x, before), last);
      AppendMultiset(front, last);
      assert s == front + [last];
    }
  }

  lemma AppendMultiset<T>(s: seq<T>, x: T)
    ensures multiset(s + [x]) == multiset(s) + multiset{x}
  {
  }

  lemma AppendAscending<T(!new)>(s: seq<T>, x: T, before: (T, T) -> bool)
    requires Ascending(s, before) && forall y :: y in s ==> !before(x, y)
    ensures Ascending(s + [x], before)
  {
    assert forall i :: 0 <= i < |s| ==> s[i] in s;
  }

  lemma {:induction false} InsertSorts<T(!new)>(s: seq<T>, x: T, before: (T, T) -> bool)
    requires IsOrder(before) && Ascending(s, before)
    ensures Ascending(Insert(s, x, before), before)
  {
    if s == [] || !before(x, s[|s| - 1]) {
      forall y | y in s ensures !before(x, y) {
        var i :| 0 <= i < |s| && s[i] == y;
        assert i < |s| - 1 ==> !before(s[|s| - 1], s[i]);
      }
      AppendAscending(s, x, before);
    } else {
      var front, last := s[..|s| - 1], s[|s| - 1];
      InsertSorts(front, x, before);
      InsertKeeps(front, x, before);
      forall y | y in Insert(front, x, before) ensures !before(last, y) {
        assert y in multiset(Insert(front, x, before));
      }
      AppendAscending(Insert(front, x, before), last, before);
    }
  }

  lemma {:induction false} SortPermutes<T>(s: seq<T>, before: (T, T) -> bool)
    ensures multiset(Sort(s, before)) == multiset(s)
  {
    if s != [] {
      var front, last := s[..|s| - 1], s[|s| - 1];
      SortPermutes(front, before);
      InsertKeeps(Sort(front, before), last, before);
      AppendMultiset(front, last);
      assert s == front + [last];
    }
  }

  lemma {:induction false} SortSorts<T(!new)>(s: seq<T>, before: (T, T) -> bool)
    requires IsOrder(before)
    ensures Ascending(Sort(s, before), before)
  {
    if s != [] {
      SortSorts(s[..|s| - 1], before);
      InsertSorts(Sort(s[..|s| - 1], before), s[|s| - 1], before);
    }
  }

  /** Permutations have the same members, and are distinct together. */
  lemma PermutationDistinct<T(!new)>(s: seq<T>, t: seq<T>)
    requires multiset(s) == multiset(t)
    ensures Elements(s) == Elements(t) && |s| == |t| && (Distinct(s) <==> Distinct(t))
  {
    assert |s| == |multiset(s)| && |t| == |multiset(t)|;
    forall x ensures x in s <==> x in t {
      assert x in s <==> x in multiset(s);
      assert x in t <==> x in multiset(t);
    }
    DistinctCount(s);
    DistinctCount(t);
  }
}
