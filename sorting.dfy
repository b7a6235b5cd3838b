/**
 * The in-place sort of slices.SortFunc over a comparator that orders all strings in one line,
 * and the ordering it produces.
 */
module Sorting {

  /** The comparator says 0 only of equal strings, and its sign flips when the arguments are
      swapped. */
  ghost predicate Antisymmetric(cmp: (string, string) -> int)
  {
    && (forall e, f :: cmp(e, f) == 0 <==> e == f)
    && (forall e, f :: cmp(e, f) > 0 <==> cmp(f, e) < 0)
  }

  /** The comparator is transitive. */
  ghost predicate Transitive(cmp: (string, string) -> int)
  {
    forall e, f, g :: cmp(e, f) <= 0 && cmp(f, g) <= 0 ==> cmp(e, g) <= 0
  }

  /** A comparator that orders all strings in one line, as slices.SortFunc expects. */
  ghost predicate TotalOrder(cmp: (string, string) -> int)
  {
    Antisymmetric(cmp) && Transitive(cmp)
  }

  /** Every element of `s` may precede every later one. */
  predicate Sorted(s: seq<string>, cmp: (string, string) -> int)
  {
    forall i, j :: 0 <= i < j < |s| ==> cmp(s[i], s[j]) <= 0
  }

  /** Each element of `s[lo..hi]` may precede the next one. */
  predicate AdjacentSorted(s: seq<string>, lo: int, hi: int, cmp: (string, string) -> int)
  {
    forall k :: 0 <= lo <= k && k + 1 < hi && k + 1 < |s| ==> cmp(s[k], s[k + 1]) <= 0
  }

  /** Ordered neighbours make an ordered sequence. */
  lemma {:induction false} AdjacentSortedIsSorted(s: seq<string>, cmp: (string, string) -> int)
    requires Transitive(cmp) && AdjacentSorted(s, 0, |s|, cmp)
    ensures Sorted(s, cmp)
    decreases |s|
  {
    if |s| > 1 {
      var tail := s[1..];
      AdjacentSortedIsSorted(tail, cmp);
      forall j | 0 < j < |s| ensures cmp(s[0], s[j]) <= 0 {
        if j > 1 {
          assert cmp(tail[0], tail[j - 1]) <= 0;
        }
      }
      forall i, j | 0 < i < j < |s| ensures cmp(s[i], s[j]) <= 0 {
        assert cmp(tail[i - 1], tail[j - 1]) <= 0;
      }
    }
  }

  /** An ordered sequence stays ordered without its first element. */
  lemma SortedTail(s: seq<string>, cmp: (string, string) -> int)
    requires s != [] && Sorted(s, cmp)
    ensures Sorted(s[1..], cmp)
  {
    forall i, j | 0 <= i < j < |s| - 1 ensures cmp(s[1..][i], s[1..][j]) <= 0 {
      assert s[1..][i] == s[i + 1] && s[1..][j] == s[j + 1];
    }
  }

  /** Ordered sequences of the same emoji start with the same one. */
  lemma SameHead(s: seq<string>, t: seq<string>, cmp: (string, string) -> int)
    requires Antisymmetric(cmp) && Sorted(s, cmp) && Sorted(t, cmp)
    requires s != [] && t != [] && multiset(s) == multiset(t)
    ensures s[0] == t[0]
  {
    assert t[0] in multiset(s) && s[0] in multiset(t);
    assert t[0] in s && s[0] in t;
    var i :| 0 <= i < |s| && s[i] == t[0];
    var j :| 0 <= j < |t| && t[j] == s[0];
    assert cmp(s[0], t[0]) <= 0 by {
      if i > 0 { assert cmp(s[0], s[i]) <= 0; }
    }
    assert cmp(t[0], s[0]) <= 0 by {
      if j > 0 { assert cmp(t[0], t[j]) <= 0; }
    }
  }

  /** Sequences of the same elements that start alike continue with the same elements. */
  lemma SameTailElements(s: seq<string>, t: seq<string>)
    requires s != [] && t != [] && s[0] == t[0] && multiset(s) == multiset(t)
    ensures multiset(s[1..]) == multiset(t[1..])
  {
    assert s == [s[0]] + s[1..] && t == [t[0]] + t[1..];
    assert multiset(s) == multiset([s[0]]) + multiset(s[1..]);
    assert multiset(t) == multiset([s[0]]) + multiset(t[1..]);
    forall z ensures multiset(s[1..])[z] == multiset(t[1..])[z] {
      assert multiset(s)[z] == multiset([s[0]])[z] + multiset(s[1..])[z];
      assert multiset(t)[z] == multiset([s[0]])[z] + multiset(t[1..])[z];
    }
  }

  /** Two orderings of the same emoji that both respect the order are the same list: the sort
      result does not depend on the sorting algorithm, although slices.SortFunc is unstable. */
  lemma {:induction false} SortedUnique(s: seq<string>, t: seq<string>, cmp: (string, string) -> int)
    requires Antisymmetric(cmp) && Sorted(s, cmp) && Sorted(t, cmp) && multiset(s) == multiset(t)
    ensures s == t
    decreases |s|
  {
    assert |s| == |multiset(s)| == |t|;
    if s != [] {
      SameHead(s, t, cmp);
      SameTailElements(s, t);
      SortedTail(s, cmp);
      SortedTail(t, cmp);
      SortedUnique(s[1..], t[1..], cmp);
    }
  }

  /** Putting in front of an ordered sequence an element that may precede its head keeps it
      ordered. */
  lemma ConsSorted(y: string, t: seq<string>, cmp: (string, string) -> int)
    requires AdjacentSorted(t, 0, |t|, cmp) && (t != [] ==> cmp(y, t[0]) <= 0)
    ensures AdjacentSorted([y] + t, 0, |t| + 1, cmp)
  {
    var r := [y] + t;
    forall k | 0 <= k && k + 1 < |r| ensures cmp(r[k], r[k + 1]) <= 0 {
      if k > 0 {
        assert r[k] == t[k - 1] && r[k + 1] == t[k];
      }
    }
  }

  /** The tail of an ordered sequence is ordered. */
  lemma AdjacentSortedTail(s: seq<string>, cmp: (string, string) -> int)
    requires s != [] && AdjacentSorted(s, 0, |s|, cmp)
    ensures AdjacentSorted(s[1..], 0, |s| - 1, cmp)
  {
    var tail := s[1..];
    forall k | 0 <= k && k + 1 < |tail| ensures cmp(tail[k], tail[k + 1]) <= 0 {
      assert tail[k] == s[k + 1] && tail[k + 1] == s[k + 2];
    }
  }

  /** When `x` must follow the head of `s`, the head stays in front of `x` inserted into the
      tail. */
  lemma InsertBehindHead(x: string, s: seq<string>, rest: seq<string>, cmp: (string, string) -> int)
    requires Antisymmetric(cmp) && s != [] && AdjacentSorted(s, 0, |s|, cmp) && cmp(x, s[0]) > 0
    requires multiset(rest) == multiset(s[1..]) + multiset{x}
    requires AdjacentSorted(rest, 0, |rest|, cmp)
    requires rest != [] && (rest[0] == x || (|s| > 1 && rest[0] == s[1]))
    ensures multiset([s[0]] + rest) == multiset(s) + multiset{x}
    ensures AdjacentSorted([s[0]] + rest, 0, |rest| + 1, cmp)
  {
    assert cmp(s[0], rest[0]) <= 0 by {
      if rest[0] == x {
        assert cmp(s[0], x) < 0;
      } else {
        assert cmp(s[0], s[1]) <= 0;
      }
    }
    ConsSorted(s[0], rest, cmp);
    assert s == [s[0]] + s[1..];
  }

  /** `x` inserted into the ordered `s` in front of the first element it may precede. */
  function Insert(x: string, s: seq<string>, cmp: (string, string) -> int): (r: seq<string>)
    requires Antisymmetric(cmp) && AdjacentSorted(s, 0, |s|, cmp)
    ensures multiset(r) == multiset(s) + multiset{x}
    ensures AdjacentSorted(r, 0, |r|, cmp)
    ensures r != [] && (r[0] == x || (s != [] && r[0] == s[0]))
    decreases |s|
  {
    if s == [] then [x]
    else if cmp(x, s[0]) <= 0 then
      ConsSorted(x, s, cmp);
      assert multiset([x] + s) == multiset(s) + multiset{x};
      [x] + s
    else
      AdjacentSortedTail(s, cmp);
      var rest := Insert(x, s[1..], cmp);
      InsertBehindHead(x, s, rest, cmp);
      [s[0]] + rest
  }

  /** The emoji in sorted order: insertion sort as a function. */
  function SortOf(s: seq<string>, cmp: (string, string) -> int): (r: seq<string>)
    requires TotalOrder(cmp)
    ensures multiset(r) == multiset(s)
    ensures AdjacentSorted(r, 0, |r|, cmp)
    decreases |s|
  {
    if s == [] then []
    else
      assert s == s[..|s| - 1] + [s[|s| - 1]];
      Insert(s[|s| - 1], SortOf(s[..|s| - 1], cmp), cmp)
  }

  /** The sorted list is a permutation of the input in which every emoji may precede every
      later one, and it is the only such list. */
  lemma SortOfMeaning(s: seq<string>, t: seq<string>, cmp: (string, string) -> int)
    requires TotalOrder(cmp)
    ensures multiset(SortOf(s, cmp)) == multiset(s) && Sorted(SortOf(s, cmp), cmp)
    ensures Sorted(t, cmp) && multiset(t) == multiset(s) ==> t == SortOf(s, cmp)
  {
    AdjacentSortedIsSorted(SortOf(s, cmp), cmp);
    if Sorted(t, cmp) && multiset(t) == multiset(s) {
      SortedUnique(t, SortOf(s, cmp), cmp);
    }
  }

  /** Swapping the out-of-order neighbours at `j - 1` and `j` moves the unordered spot one
      place to the left. */
  lemma SwapStep(s: seq<string>, j: int, i: int, cmp: (string, string) -> int)
    requires 0 < j <= i < |s|
    requires AdjacentSorted(s, 0, j, cmp) && AdjacentSorted(s, j, i + 1, cmp)
    requires 0 < j < i ==> cmp(s[j - 1], s[j + 1]) <= 0
    requires cmp(s[j], s[j - 1]) <= 0
    ensures var t := s[j - 1 := s[j]][j := s[j - 1]];
      && AdjacentSorted(t, 0, j - 1, cmp) && AdjacentSorted(t, j - 1, i + 1, cmp)
      && (0 < j - 1 < i ==> cmp(t[j - 2], t[j]) <= 0)
  {
    var t := s[j - 1 := s[j]][j := s[j - 1]];
    forall k | 0 <= j - 1 <= k && k + 1 < i + 1 && k + 1 < |t| ensures cmp(t[k], t[k + 1]) <= 0 {
      if k > j {
        assert t[k] == s[k] && t[k + 1] == s[k + 1];
      }
    }
    if 0 < j - 1 {
      assert cmp(s[j - 2], s[j - 1]) <= 0;
    }
  }

  /** Swapping two neighbours inside `s[..i + 1]` permutes that prefix and leaves the rest. */
  lemma SwapPermutes(s: seq<string>, j: int, i: int)
    requires 0 < j <= i < |s|
    ensures var t := s[j - 1 := s[j]][j := s[j - 1]];
      && multiset(t) == multiset(s)
      && t[i + 1..] == s[i + 1..] && multiset(t[..i + 1]) == multiset(s[..i + 1])
  {
    var t := s[j - 1 := s[j]][j := s[j - 1]];
    assert t[..i + 1] == s[..i + 1][j - 1 := s[j]][j := s[j - 1]];
  }

  /** Two ordered stretches that meet at an ordered pair form one ordered stretch. */
  lemma JoinSorted(s: seq<string>, j: int, i: int, cmp: (string, string) -> int)
    requires 0 <= j <= i < |s|
    requires AdjacentSorted(s, 0, j, cmp) && AdjacentSorted(s, j, i + 1, cmp)
    requires j > 0 ==> cmp(s[j - 1], s[j]) <= 0
    ensures AdjacentSorted(s, 0, i + 1, cmp)
  {
  }

  /** One pass of insertion sort: moves `a[i]` left past every neighbour that must follow it,
      so that `a[..i + 1]` is ordered. */
  method SiftDown(a: array<string>, i: int, cmp: (string, string) -> int)
    requires Antisymmetric(cmp) && 1 <= i < a.Length && AdjacentSorted(a[..], 0, i, cmp)
    modifies a
    ensures AdjacentSorted(a[..], 0, i + 1, cmp)
    ensures multiset(a[..]) == multiset(old(a[..]))
    ensures multiset(a[..i + 1]) == multiset(old(a[..i + 1])) && a[i + 1..] == old(a[i + 1..])
  {
    var j := i;
    while j > 0 && cmp(a[j - 1], a[j]) > 0
      invariant 0 <= j <= i
      invariant AdjacentSorted(a[..], 0, j, cmp)
      invariant AdjacentSorted(a[..], j, i + 1, cmp)
      invariant 0 < j < i ==> cmp(a[j - 1], a[j + 1]) <= 0
      invariant multiset(a[..]) == multiset(old(a[..]))
      invariant multiset(a[..i + 1]) == multiset(old(a[..i + 1])) && a[i + 1..] == old(a[i + 1..])
    {
      ghost var s := a[..];
      SwapStep(s, j, i, cmp);
      SwapPermutes(s, j, i);
      a[j - 1], a[j] := a[j], a[j - 1];
      assert a[..] == s[j - 1 := s[j]][j := s[j - 1]];
      j := j - 1;
    }
    JoinSorted(a[..], j, i, cmp);
  }

  /** slices.SortFunc(a, cmp), as an insertion sort that swaps neighbours in place. */
  method SortFunc(a: array<string>, cmp: (string, string) -> int)
    requires TotalOrder(cmp)
    modifies a
    ensures a[..] == SortOf(old(a[..]), cmp)
  {
    var i := 1;
    while i < a.Length
      invariant 1 <= i
      invariant AdjacentSorted(a[..], 0, i, cmp)
      invariant multiset(a[..]) == multiset(old(a[..]))
    {
      SiftDown(a, i, cmp);
      i := i + 1;
    }
    AdjacentSortedIsSorted(a[..], cmp);
    SortOfMeaning(old(a[..]), a[..], cmp);
  }
}
