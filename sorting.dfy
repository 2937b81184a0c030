/**
 * `blame_authors.sort(key = lambda x: x['login'].lower())`: a stable sort of
 * the blame authors by lower-cased login.
 */
module Sorting {
  import opened Text
  import opened Authors

  /** The sort key of an author. */
  function Key(a: Author): string
  {
    Lower(a.login)
  }

  predicate KeyLe(a: Author, b: Author)
  {
    LexLe(Key(a), Key(b))
  }

  /** Non-decreasing by lower-cased login. */
  predicate Sorted(s: seq<Author>)
  {
    forall i, j :: 0 <= i < j < |s| ==> KeyLe(s[i], s[j])
  }

  /** The authors of `s` whose key is `k`, in their order in `s`. */
  function FilterKey(s: seq<Author>, k: string): seq<Author>
    decreases |s|
  {
    if s == [] then []
    else (if Key(s[0]) == k then [s[0]] else []) + FilterKey(s[1..], k)
  }

  /** Inserts `x` into a sorted list after every author whose key is not greater. */
  function InsertSorted(r: seq<Author>, x: Author): seq<Author>
    decreases |r|
  {
    if r == [] then [x]
    else if KeyLe(r[0], x) then [r[0]] + InsertSorted(r[1..], x)
    else [x] + r
  }

  /** Specification of the sort: insertion of each author in turn. */
  function SortByLogin(s: seq<Author>): seq<Author>
    decreases |s|
  {
    if s == [] then [] else InsertSorted(SortByLogin(s[..|s| - 1]), s[|s| - 1])
  }

  /**
   * Sorts the blame authors. Python's sort is a stable sort by the key, and
   * `SortedStableIsUnique` shows that only one list is sorted and stable.
   */
  method SortBlameAuthors(s: seq<Author>) returns (r: seq<Author>)
    ensures r == SortByLogin(s)
  {
    r := [];
    for k := 0 to |s|
      invariant r == SortByLogin(s[..k])
    {
      assert s[..k + 1][..k] == s[..k];
      r := InsertSorted(r, s[k]);
    }
    assert s[..|s|] == s;
  }

  lemma {:induction false} InsertSortedMultiset(r: seq<Author>, x: Author)
    ensures multiset(InsertSorted(r, x)) == multiset(r) + multiset{x}
    decreases |r|
  {
    if r != [] && KeyLe(r[0], x) {
      InsertSortedMultiset(r[1..], x);
      assert r == [r[0]] + r[1..];
    }
  }

  lemma {:induction false} InsertSortedSorted(r: seq<Author>, x: Author)
    requires Sorted(r)
    ensures Sorted(InsertSorted(r, x))
    decreases |r|
  {
    if r == [] {
    } else if KeyLe(r[0], x) {
      var tail := InsertSorted(r[1..], x);
      InsertSortedSorted(r[1..], x);
      InsertSortedMultiset(r[1..], x);
      forall j | 0 <= j < |tail| ensures KeyLe(r[0], tail[j]) {
        assert tail[j] in multiset(tail);
        if tail[j] != x {
          assert tail[j] in multiset(r[1..]);
          var m :| 0 <= m < |r[1..]| && r[1..][m] == tail[j];
          assert r[m + 1] == tail[j];
        }
      }
    } else {
      var t := [x] + r;
      LexLeTotal(Key(r[0]), Key(x));
      forall i, j | 0 <= i < j < |t| ensures KeyLe(t[i], t[j]) {
        if i == 0 && j > 1 {
          LexLeTransitive(Key(x), Key(r[0]), Key(r[j - 1]));
        }
      }
    }
  }

  lemma {:induction false} SortByLoginMultiset(s: seq<Author>)
    ensures multiset(SortByLogin(s)) == multiset(s)
    decreases |s|
  {
    if s != [] {
      var p := s[..|s| - 1];
      SortByLoginMultiset(p);
      InsertSortedMultiset(SortByLogin(p), s[|s| - 1]);
      assert s == p + [s[|s| - 1]];
    }
  }

  /** The sorted list holds exactly the authors of the input. */
  lemma SortByLoginMembers(s: seq<Author>, a: Author)
    ensures a in SortByLogin(s) <==> a in s
  {
    SortByLoginMultiset(s);
    assert a in SortByLogin(s) <==> a in multiset(SortByLogin(s));
    assert a in s <==> a in multiset(s);
  }

  /** The result is sorted non-decreasingly by lower-cased login. */
  lemma {:induction false} SortByLoginSorted(s: seq<Author>)
    ensures Sorted(SortByLogin(s))
    decreases |s|
  {
    if s != [] {
      SortByLoginSorted(s[..|s| - 1]);
      InsertSortedSorted(SortByLogin(s[..|s| - 1]), s[|s| - 1]);
    }
  }

  /** The result is a permutation of the input. */
  lemma SortByLoginPermutes(s: seq<Author>)
    ensures |SortByLogin(s)| == |s|
    ensures multiset(SortByLogin(s)) == multiset(s)
  {
    SortByLoginMultiset(s);
    assert |multiset(SortByLogin(s))| == |multiset(s)|;
  }

  lemma {:induction false} FilterKeyAppend(a: seq<Author>, b: seq<Author>, k: string)
    ensures FilterKey(a + b, k) == FilterKey(a, k) + FilterKey(b, k)
    decreases |a|
  {
    if a != [] {
      assert (a + b)[1..] == a[1..] + b;
      FilterKeyAppend(a[1..], b, k);
    } else {
      assert a + b == b;
    }
  }

  lemma {:induction false} FilterKeyNone(s: seq<Author>, k: string)
    requires forall i :: 0 <= i < |s| ==> Key(s[i]) != k
    ensures FilterKey(s, k) == []
    decreases |s|
  {
    if s != [] {
      FilterKeyNone(s[1..], k);
    }
  }

  lemma {:induction false} FilterKeyMembers(s: seq<Author>, k: string, a: Author)
    requires a in FilterKey(s, k)
    ensures a in s && Key(a) == k
    decreases |s|
  {
    if a != s[0] || Key(s[0]) != k {
      FilterKeyMembers(s[1..], k, a);
    }
  }

  lemma FilterKeyCons(a: Author, t: seq<Author>, k: string)
    ensures FilterKey([a] + t, k) == (if Key(a) == k then [a] else []) + FilterKey(t, k)
  {
    assert ([a] + t)[1..] == t;
  }

  /** No author of a sorted list whose head is above `x` shares the key of `x`. */
  lemma SortedAboveHasNoKey(r: seq<Author>, x: Author)
    requires Sorted(r) && r != [] && !KeyLe(r[0], x)
    ensures FilterKey(r, Key(x)) == []
  {
    forall i | 0 <= i < |r| ensures Key(r[i]) != Key(x) {
      LexLeReflexive(Key(x));
      if i > 0 {
        assert KeyLe(r[0], r[i]);
      }
    }
    FilterKeyNone(r, Key(x));
  }

  /** Inserting `x` appends it after the authors that share its key. */
  lemma {:induction false} InsertSortedFilter(r: seq<Author>, x: Author, k: string)
    requires Sorted(r)
    ensures FilterKey(InsertSorted(r, x), k) == FilterKey(r, k) + (if Key(x) == k then [x] else [])
    decreases |r|
  {
    if r == [] {
      FilterKeyCons(x, [], k);
    } else if KeyLe(r[0], x) {
      var h := if Key(r[0]) == k then [r[0]] else [];
      InsertSortedFilter(r[1..], x, k);
      FilterKeyCons(r[0], InsertSorted(r[1..], x), k);
      FilterKeyCons(r[0], r[1..], k);
      assert [r[0]] + r[1..] == r;
      assert FilterKey(InsertSorted(r, x), k) == h + (FilterKey(r[1..], k) + (if Key(x) == k then [x] else []));
    } else {
      FilterKeyCons(x, r, k);
      if Key(x) == k {
        SortedAboveHasNoKey(r, x);
      }
    }
  }

  /**
   * Stability: for every key, the authors with that key keep their relative
   * order from the input.
   */
  lemma {:induction false} SortByLoginStable(s: seq<Author>, k: string)
    ensures FilterKey(SortByLogin(s), k) == FilterKey(s, k)
    decreases |s|
  {
    if s != [] {
      var p, x := s[..|s| - 1], s[|s| - 1];
      SortByLoginStable(p, k);
      SortByLoginSorted(p);
      InsertSortedFilter(SortByLogin(p), x, k);
      assert s == p + [x];
      FilterKeyAppend(p, [x], k);
      assert FilterKey([x], k) == (if Key(x) == k then [x] else []) + FilterKey([], k);
    }
  }

  /**
   * When `t2` is sorted and has the same authors as `t1` under the key of
   * `t1`'s head, `t2`'s head is not above `t1`'s.
   */
  lemma HeadNotAbove(t1: seq<Author>, t2: seq<Author>)
    requires Sorted(t2) && t1 != [] && t2 != []
    requires FilterKey(t1, Key(t1[0])) == FilterKey(t2, Key(t1[0]))
    ensures KeyLe(t2[0], t1[0])
  {
    var a := t1[0];
    FilterKeyCons(a, t1[1..], Key(a));
    assert t1 == [a] + t1[1..];
    assert a in FilterKey(t2, Key(a));
    FilterKeyMembers(t2, Key(a), a);
    var j :| 0 <= j < |t2| && t2[j] == a;
    if j > 0 {
      assert KeyLe(t2[0], t2[j]);
    } else {
      LexLeReflexive(Key(a));
    }
  }

  /** Lists whose heads share a key and that agree on that key have the same head. */
  lemma SameKeyHeads(t1: seq<Author>, t2: seq<Author>)
    requires t1 != [] && t2 != [] && Key(t1[0]) == Key(t2[0])
    requires FilterKey(t1, Key(t1[0])) == FilterKey(t2, Key(t1[0]))
    ensures t1[0] == t2[0]
  {
    FilterKeyCons(t1[0], t1[1..], Key(t1[0]));
    FilterKeyCons(t2[0], t2[1..], Key(t1[0]));
    assert t1 == [t1[0]] + t1[1..] && t2 == [t2[0]] + t2[1..];
  }

  /** Two sorted lists that agree on the keys of their heads start with the same author. */
  lemma SortedSameHead(t1: seq<Author>, t2: seq<Author>)
    requires Sorted(t1) && Sorted(t2) && t1 != [] && t2 != []
    requires FilterKey(t1, Key(t1[0])) == FilterKey(t2, Key(t1[0]))
    requires FilterKey(t2, Key(t2[0])) == FilterKey(t1, Key(t2[0]))
    ensures t1[0] == t2[0]
  {
    HeadNotAbove(t1, t2);
    HeadNotAbove(t2, t1);
    LexLeAntisymmetric(Key(t1[0]), Key(t2[0]));
    SameKeyHeads(t1, t2);
  }

  /** Dropping a common first author keeps two lists in agreement on every key. */
  lemma FilterKeyTails(t1: seq<Author>, t2: seq<Author>, k: string)
    requires t1 != [] && t2 != [] && t1[0] == t2[0]
    requires FilterKey(t1, k) == FilterKey(t2, k)
    ensures FilterKey(t1[1..], k) == FilterKey(t2[1..], k)
  {
    var a := t1[0];
    var h := if Key(a) == k then [a] else [];
    FilterKeyCons(a, t1[1..], k);
    FilterKeyCons(a, t2[1..], k);
    assert t1 == [a] + t1[1..] && t2 == [a] + t2[1..];
    assert FilterKey(t1[1..], k) == FilterKey(t1, k)[|h|..];
    assert FilterKey(t2[1..], k) == FilterKey(t2, k)[|h|..];
  }

  /**
   * A sorted list is determined by its per-key subsequences: any two sorted
   * lists that agree on every key are equal.
   */
  lemma {:induction false} SortedStableIsUnique(t1: seq<Author>, t2: seq<Author>)
    requires Sorted(t1) && Sorted(t2)
    requires forall k :: FilterKey(t1, k) == FilterKey(t2, k)
    ensures t1 == t2
    decreases |t1|
  {
    if t1 != [] {
      FilterKeyCons(t1[0], t1[1..], Key(t1[0]));
      assert t1 == [t1[0]] + t1[1..];
    }
    if t2 != [] {
      FilterKeyCons(t2[0], t2[1..], Key(t2[0]));
      assert t2 == [t2[0]] + t2[1..];
    }
    if t1 != [] && t2 != [] {
      assert FilterKey(t1, Key(t1[0])) == FilterKey(t2, Key(t1[0]));
      assert FilterKey(t2, Key(t2[0])) == FilterKey(t1, Key(t2[0]));
      SortedSameHead(t1, t2);
      forall k ensures FilterKey(t1[1..], k) == FilterKey(t2[1..], k) {
        FilterKeyTails(t1, t2, k);
      }
      SortedStableIsUnique(t1[1..], t2[1..]);
    }
  }

  /**
   * Any sorted, stable rearrangement of `s` (such as the result of Python's
   * `list.sort`) is `SortByLogin(s)`.
   */
  lemma StableSortIsSortByLogin(s: seq<Author>, t: seq<Author>)
    requires Sorted(t)
    requires forall k :: FilterKey(t, k) == FilterKey(s, k)
    ensures t == SortByLogin(s)
  {
    SortByLoginSorted(s);
    forall k ensures FilterKey(t, k) == FilterKey(SortByLogin(s), k) {
      SortByLoginStable(s, k);
    }
    SortedStableIsUnique(t, SortByLogin(s));
  }

  lemma {:induction false} InsertSortedDistinct(r: seq<Author>, x: Author)
    requires DistinctLogins(r) && !HasLogin(r, x.login)
    ensures DistinctLogins(InsertSorted(r, x))
    decreases |r|
  {
    if r != [] && KeyLe(r[0], x) {
      forall m | 0 <= m < |r[1..]| ensures r[1..][m].login != x.login {
        assert r[1..][m] == r[m + 1];
      }
      InsertSortedDistinct(r[1..], x);
      var tail := InsertSorted(r[1..], x);
      InsertSortedMultiset(r[1..], x);
      forall j | 0 <= j < |tail| ensures tail[j].login != r[0].login {
        assert tail[j] in multiset(tail);
        if tail[j] != x {
          assert tail[j] in multiset(r[1..]);
          var m :| 0 <= m < |r[1..]| && r[1..][m] == tail[j];
          assert r[m + 1] == tail[j];
        }
      }
    }
  }

  /** Sorting keeps the logins distinct. */
  lemma {:induction false} SortByLoginDistinct(s: seq<Author>)
    requires DistinctLogins(s)
    ensures DistinctLogins(SortByLogin(s))
    decreases |s|
  {
    if s != [] {
      var p, x := s[..|s| - 1], s[|s| - 1];
      SortByLoginDistinct(p);
      forall m | 0 <= m < |SortByLogin(p)| ensures SortByLogin(p)[m].login != x.login {
        SortByLoginMembers(p, SortByLogin(p)[m]);
        var n :| 0 <= n < |p| && p[n] == SortByLogin(p)[m];
        assert s[n] == p[n];
      }
      InsertSortedDistinct(SortByLogin(p), x);
    }
  }
}
