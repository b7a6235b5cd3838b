/**
 * The functions of Go's `strings` package that the generator relies on, over strings viewed
 * as sequences of Unicode code points (a Go string is their UTF-8 encoding).
 */
module GoStrings {

  /** `sep` occurs in `s` starting at index `i`. */
  predicate OccursAt(s: string, sep: string, i: int)
  {
    0 <= i && i + |sep| <= |s| && s[i..i + |sep|] == sep
  }

  /** strings.Index: the first index at which `sep` occurs in `s`, or -1. */
  function Index(s: string, sep: string): (i: int)
    ensures -1 <= i <= |s|
    ensures i >= 0 ==> OccursAt(s, sep, i)
    ensures forall j :: 0 <= j && (i < 0 || j < i) ==> !OccursAt(s, sep, j)
    decreases |s|
  {
    if |s| < |sep| then -1
    else if s[..|sep|] == sep then 0
    else
      var j := Index(s[1..], sep);
      assert !OccursAt(s, sep, 0) by { assert s[0..|sep|] == s[..|sep|]; }
      assert forall k :: 0 <= k ==> (OccursAt(s[1..], sep, k) <==> OccursAt(s, sep, k + 1)) by {
        forall k | 0 <= k
          ensures OccursAt(s[1..], sep, k) <==> OccursAt(s, sep, k + 1)
        {
          if k + |sep| <= |s[1..]| {
            assert s[1..][k..k + |sep|] == s[k + 1..k + 1 + |sep|];
          }
        }
      }
      assert forall m :: 0 < m && (j < 0 || m < j + 1) ==> !OccursAt(s, sep, m) by {
        forall m | 0 < m && (j < 0 || m < j + 1) ensures !OccursAt(s, sep, m) {
          assert !OccursAt(s[1..], sep, m - 1);
        }
      }
      if j < 0 then -1 else j + 1
  }

  /** strings.Contains: `sub` occurs somewhere in `s`. */
  predicate Contains(s: string, sub: string)
  {
    Index(s, sub) >= 0
  }

  /** `sub` is contained in `s` exactly when it occurs at some index. */
  lemma ContainsMeaning(s: string, sub: string)
    ensures Contains(s, sub) <==> exists i :: OccursAt(s, sub, i)
  {
  }

  /** strings.HasPrefix. */
  predicate HasPrefix(s: string, prefix: string)
  {
    |prefix| <= |s| && s[..|prefix|] == prefix
  }

  /** The result of strings.Cut. */
  datatype Cut = Cut(before: string, after: string, found: bool)

  /** strings.Cut: the text around the first occurrence of `sep`. */
  function CutAt(s: string, sep: string): (c: Cut)
    ensures c.found ==> s == c.before + sep + c.after
    ensures c.found ==> forall j :: 0 <= j < |c.before| ==> !OccursAt(s, sep, j)
    ensures !c.found ==> c == Cut(s, [], false) && forall j :: !OccursAt(s, sep, j)
  {
    var i := Index(s, sep);
    if i < 0 then Cut(s, [], false)
    else
      assert s == s[..i] + s[i..i + |sep|] + s[i + |sep|..];
      Cut(s[..i], s[i + |sep|..], true)
  }

  /** The index of the first `c` in `s`, or |s| when there is none. */
  function FirstIndexOf(s: string, c: char): (i: nat)
    ensures i <= |s|
    ensures c !in s[..i]
    ensures i < |s| ==> s[i] == c
  {
    if s == [] then 0
    else if s[0] == c then 0
    else
      var j := FirstIndexOf(s[1..], c);
      assert s[..j + 1] == [s[0]] + s[1..][..j];
      j + 1
  }

  /** strings.Join. */
  function Join(parts: seq<string>, sep: string): string
  {
    if |parts| == 0 then []
    else if |parts| == 1 then parts[0]
    else parts[0] + sep + Join(parts[1..], sep)
  }

  /** Joining a first part onto non-empty other parts puts a separator between them. */
  lemma JoinCons(first: string, rest: seq<string>, sep: string)
    requires rest != []
    ensures Join([first] + rest, sep) == first + sep + Join(rest, sep)
  {
    assert ([first] + rest)[1..] == rest;
  }

  /** strings.Split with a one-character separator: every piece, empty ones included. */
  function SplitOn(s: string, sep: char): (parts: seq<string>)
    ensures |parts| >= 1
    ensures forall k :: 0 <= k < |parts| ==> sep !in parts[k]
    ensures Join(parts, [sep]) == s
    decreases |s|
  {
    var i := FirstIndexOf(s, sep);
    if i == |s| then [s]
    else
      var rest := SplitOn(s[i + 1..], sep);
      JoinCons(s[..i], rest, [sep]);
      assert s == s[..i] + [sep] + s[i + 1..];
      [s[..i]] + rest
  }

  /** strings.SplitN with a one-character separator and n >= 1: at most n pieces, the last
      one holding the unsplit remainder. */
  function SplitN(s: string, sep: char, n: nat): (parts: seq<string>)
    requires n >= 1
    ensures 1 <= |parts| <= n
    ensures Join(parts, [sep]) == s
    ensures forall k :: 0 <= k < |parts| - 1 ==> sep !in parts[k]
    ensures |parts| < n ==> sep !in parts[|parts| - 1]
    decreases n
  {
    if n == 1 then [s]
    else
      var i := FirstIndexOf(s, sep);
      if i == |s| then [s]
      else
        var rest := SplitN(s[i + 1..], sep, n - 1);
        JoinCons(s[..i], rest, [sep]);
        assert s == s[..i] + [sep] + s[i + 1..];
        [s[..i]] + rest
  }

  /** unicode.IsSpace: the characters with the Unicode White_Space property. */
  predicate IsSpace(c: char)
  {
    || c == '\t' || c == '\n' || c == '\U{B}' || c == '\U{C}' || c == '\r' || c == ' '
    || c == '\U{85}' || c == '\U{A0}' || c == '\U{1680}'
    || ('\U{2000}' <= c <= '\U{200A}')
    || c == '\U{2028}' || c == '\U{2029}' || c == '\U{202F}' || c == '\U{205F}' || c == '\U{3000}'
  }

  /** `s` with its leading white space removed. */
  function TrimLeftSpace(s: string): (r: string)
    ensures |r| <= |s| && r == s[|s| - |r|..]
    ensures forall k :: 0 <= k < |s| - |r| ==> IsSpace(s[k])
    ensures r == [] || !IsSpace(r[0])
  {
    if s != [] && IsSpace(s[0]) then TrimLeftSpace(s[1..]) else s
  }

  /** `s` with its trailing white space removed. */
  function TrimRightSpace(s: string): (r: string)
    ensures |r| <= |s| && r == s[..|r|]
    ensures forall k :: |r| <= k < |s| ==> IsSpace(s[k])
    ensures r == [] || !IsSpace(r[|r| - 1])
  {
    if s != [] && IsSpace(s[|s| - 1]) then TrimRightSpace(s[..|s| - 1]) else s
  }

  /** strings.TrimSpace: `s` without leading and trailing white space. */
  function TrimSpace(s: string): (r: string)
    ensures |r| <= |s|
    ensures r == [] || (!IsSpace(r[0]) && !IsSpace(r[|r| - 1]))
  {
    TrimRightSpace(TrimLeftSpace(s))
  }

  /** No character of `f` belongs to `seps`. */
  predicate Avoids(f: string, seps: set<char>)
  {
    forall k :: 0 <= k < |f| ==> f[k] !in seps
  }

  /** The length of the run of non-separators that starts `s`. */
  function RunLength(s: string, seps: set<char>): (n: nat)
    ensures n <= |s|
    ensures Avoids(s[..n], seps)
    ensures n < |s| ==> s[n] in seps
  {
    if s == [] || s[0] in seps then 0
    else
      var m := RunLength(s[1..], seps);
      assert s[..m + 1] == [s[0]] + s[1..][..m];
      m + 1
  }

  /** strings.FieldsFunc with "is in `seps`" as the predicate: the maximal non-empty runs of
      characters outside `seps`, in order. */
  function Fields(s: string, seps: set<char>): (fs: seq<string>)
    ensures forall k :: 0 <= k < |fs| ==> fs[k] != [] && Avoids(fs[k], seps)
    decreases |s|
  {
    if s == [] then []
    else if s[0] in seps then Fields(s[1..], seps)
    else
      var n := RunLength(s, seps);
      [s[..n]] + Fields(s[n..], seps)
  }

  /** `s` with every character of `seps` deleted. */
  function Without(s: string, seps: set<char>): string
  {
    if s == [] then [] else (if s[0] in seps then [] else [s[0]]) + Without(s[1..], seps)
  }

  /** All strings of `parts`, concatenated. */
  function Concat(parts: seq<string>): string
  {
    if parts == [] then [] else parts[0] + Concat(parts[1..])
  }

  lemma {:induction false} WithoutAppend(a: string, b: string, seps: set<char>)
    ensures Without(a + b, seps) == Without(a, seps) + Without(b, seps)
    decreases |a|
  {
    if a != [] {
      assert (a + b)[1..] == a[1..] + b;
      WithoutAppend(a[1..], b, seps);
    } else {
      assert a + b == b;
    }
  }

  lemma {:induction false} WithoutAvoiding(s: string, seps: set<char>)
    requires Avoids(s, seps)
    ensures Without(s, seps) == s
    decreases |s|
  {
    if s != [] {
      WithoutAvoiding(s[1..], seps);
    }
  }

  /** Splitting into fields loses exactly the separators: the fields, glued back together,
      are `s` with its separators deleted. */
  lemma {:induction false} FieldsDropOnlySeparators(s: string, seps: set<char>)
    ensures Concat(Fields(s, seps)) == Without(s, seps)
    decreases |s|
  {
    if s == [] {
    } else if s[0] in seps {
      FieldsDropOnlySeparators(s[1..], seps);
    } else {
      var n := RunLength(s, seps);
      FieldsDropOnlySeparators(s[n..], seps);
      assert s == s[..n] + s[n..];
      WithoutAppend(s[..n], s[n..], seps);
      WithoutAvoiding(s[..n], seps);
    }
  }

  /** strings.Compare: -1, 0 or 1 as `a` sorts before, equal to or after `b`. Go compares the
      UTF-8 bytes; on valid UTF-8 that is the same as comparing code points. */
  function Compare(a: string, b: string): (r: int)
    ensures -1 <= r <= 1
    ensures r == 0 <==> a == b
    decreases |a|
  {
    if a == [] then (if b == [] then 0 else -1)
    else if b == [] then 1
    else if a[0] < b[0] then -1
    else if a[0] > b[0] then 1
    else
      var r := Compare(a[1..], b[1..]);
      assert a == [a[0]] + a[1..] && b == [b[0]] + b[1..];
      r
  }

  /** `a` sorts before `b` in lexicographic code-point order: it is a proper prefix of `b`, or
      at the first position where they differ its code point is smaller. */
  predicate LexLess(a: string, b: string)
  {
    (|a| < |b| && b[..|a|] == a)
    || exists i :: 0 <= i < |a| && i < |b| && a[..i] == b[..i] && a[i] < b[i]
  }

  /** strings.Compare is the lexicographic order of the code points: negative exactly when `a`
      sorts before `b`, positive exactly when `b` sorts before `a`. */
  lemma {:induction false} CompareIsLexicographic(a: string, b: string)
    ensures Compare(a, b) < 0 <==> LexLess(a, b)
    ensures Compare(a, b) > 0 <==> LexLess(b, a)
    decreases |a|
  {
    if a != [] && b != [] {
      if a[0] == b[0] {
        CompareIsLexicographic(a[1..], b[1..]);
        LexLessTail(a, b);
        LexLessTail(b, a);
      } else {
        assert a[..0] == b[..0];
        if a[0] < b[0] {
          assert LexLess(a, b);
          assert !LexLess(b, a) by { LexLessHead(b, a); }
        } else {
          assert LexLess(b, a);
          assert !LexLess(a, b) by { LexLessHead(a, b); }
        }
      }
    } else if a == [] && b != [] {
      assert b[..0] == a;
    } else if b == [] && a != [] {
      assert a[..0] == b;
    }
  }

  /** When the first code points differ, only the smaller one may come first. */
  lemma LexLessHead(a: string, b: string)
    requires a != [] && b != [] && a[0] > b[0]
    ensures !LexLess(a, b)
  {
    if exists i :: 0 <= i < |a| && i < |b| && a[..i] == b[..i] && a[i] < b[i] {
      var i :| 0 <= i < |a| && i < |b| && a[..i] == b[..i] && a[i] < b[i];
      if i > 0 {
        assert a[..i][0] == b[..i][0];
      }
    }
  }

  /** Strings with the same first code point are ordered as their tails are. */
  lemma LexLessTail(a: string, b: string)
    requires a != [] && b != [] && a[0] == b[0]
    ensures LexLess(a, b) <==> LexLess(a[1..], b[1..])
  {
    PrefixTail(a, b);
    DifferenceTail(a, b);
  }

  /** With equal first code points, `a` is a proper prefix of `b` exactly when its tail is a
      proper prefix of the tail of `b`. */
  lemma PrefixTail(a: string, b: string)
    requires a != [] && b != [] && a[0] == b[0]
    ensures (|a| < |b| && b[..|a|] == a) <==> (|a| - 1 < |b| - 1 && b[1..][..|a| - 1] == a[1..])
  {
    if |a| < |b| {
      assert b[..|a|] == [b[0]] + b[1..][..|a| - 1];
      assert a == [a[0]] + a[1..];
    }
  }

  /** With equal first code points, `a` and `b` first differ with `a` smaller exactly when their
      tails do. */
  lemma DifferenceTail(a: string, b: string)
    requires a != [] && b != [] && a[0] == b[0]
    ensures (exists i :: 0 <= i < |a| && i < |b| && a[..i] == b[..i] && a[i] < b[i]) <==>
      (exists i :: 0 <= i < |a| - 1 && i < |b| - 1 && a[1..][..i] == b[1..][..i] && a[1..][i] < b[1..][i])
  {
    var ta, tb := a[1..], b[1..];
    if exists i :: 0 <= i < |a| && i < |b| && a[..i] == b[..i] && a[i] < b[i] {
      var i :| 0 <= i < |a| && i < |b| && a[..i] == b[..i] && a[i] < b[i];
      assert ta[..i - 1] == a[..i][1..] && tb[..i - 1] == b[..i][1..];
      assert ta[i - 1] < tb[i - 1];
    }
    if exists i :: 0 <= i < |ta| && i < |tb| && ta[..i] == tb[..i] && ta[i] < tb[i] {
      var i :| 0 <= i < |ta| && i < |tb| && ta[..i] == tb[..i] && ta[i] < tb[i];
      assert a[..i + 1] == [a[0]] + ta[..i] && b[..i + 1] == [b[0]] + tb[..i];
      assert a[i + 1] < b[i + 1];
    }
  }

  lemma {:induction false} CompareAntisymmetric(a: string, b: string)
    ensures Compare(b, a) == -Compare(a, b)
    decreases |a|
  {
    if a != [] && b != [] && a[0] == b[0] {
      CompareAntisymmetric(a[1..], b[1..]);
    }
  }

  lemma {:induction false} CompareTransitive(a: string, b: string, c: string)
    requires Compare(a, b) <= 0 && Compare(b, c) <= 0
    ensures Compare(a, c) <= 0
    decreases |a|
  {
    if a != [] && b != [] && c != [] && a[0] == b[0] == c[0] {
      CompareTransitive(a[1..], b[1..], c[1..]);
    }
  }
}
