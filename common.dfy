/**
 * Small sequence vocabulary shared by the simulator and the deck editor:
 * Python's list.remove (first occurrence), the list comprehension
 * `[x for x in s if x not in xs]`, and "is a sub-sequence of".
 */
module Common {

  datatype Option<T> = None | Some(value: T)

  /** No element occurs twice. */
  predicate NoDups<T(==)>(s: seq<T>) {
    forall i, j :: 0 <= i < j < |s| ==> s[i] != s[j]
  }

  /** Python's `list.remove(x)`: drops the first occurrence of x (callers check `x in s`). */
  function RemoveFirst<T(==)>(s: seq<T>, x: T): (r: seq<T>)
    ensures x in s ==> |r| == |s| - 1
    ensures x !in s ==> r == s
    ensures x in s ==> multiset(r) + multiset{x} == multiset(s)
  {
    if s == [] then []
    else if s[0] == x then
      assert s == [s[0]] + s[1..];
      s[1..]
    else
      assert s == [s[0]] + s[1..];
      [s[0]] + RemoveFirst(s[1..], x)
  }

  /** `[y for y in s if y not in xs]`: keeps the order of what stays. */
  function Without<T(==)>(s: seq<T>, xs: set<T>): (r: seq<T>)
    ensures forall i :: 0 <= i < |r| ==> r[i] in s && r[i] !in xs
    ensures forall i :: 0 <= i < |s| && s[i] !in xs ==> s[i] in r
    ensures |r| <= |s|
  {
    if s == [] then []
    else if s[|s| - 1] in xs then Without(s[..|s| - 1], xs)
    else Without(s[..|s| - 1], xs) + [s[|s| - 1]]
  }

  /** a is obtained from b by deleting elements (order kept). */
  predicate IsSubseq<T(==)>(a: seq<T>, b: seq<T>)
    decreases |b|
  {
    if a == [] then true
    else if b == [] then false
    else if a[|a| - 1] == b[|b| - 1] then IsSubseq(a[..|a| - 1], b[..|b| - 1])
    else IsSubseq(a, b[..|b| - 1])
  }

  lemma {:induction false} SubseqAppend<T>(a: seq<T>, b: seq<T>, x: T)
    requires IsSubseq(a, b)
    ensures IsSubseq(a + [x], b + [x]) && IsSubseq(a, b + [x])
  {
    assert (a + [x])[..|a|] == a;
    assert (b + [x])[..|b|] == b;
    if a != [] {
      if a[|a| - 1] == x {
        SubseqDropLast(a, b);
      }
    }
  }

  lemma {:induction false} SubseqDropLast<T>(a: seq<T>, b: seq<T>)
    requires a != [] && IsSubseq(a, b)
    ensures IsSubseq(a[..|a| - 1], b)
    decreases |b|, 1
  {
    if b != [] && a[|a| - 1] == b[|b| - 1] {
      SubseqWeaken(a[..|a| - 1], b[..|b| - 1], b);
    } else if b != [] {
      SubseqDropLast(a, b[..|b| - 1]);
      SubseqWeaken(a[..|a| - 1], b[..|b| - 1], b);
    }
  }

  /** A sub-sequence of a prefix is a sub-sequence of the whole. */
  lemma {:induction false} SubseqWeaken<T>(a: seq<T>, p: seq<T>, b: seq<T>)
    requires b != [] && p == b[..|b| - 1] && IsSubseq(a, p)
    ensures IsSubseq(a, b)
    decreases |b|, 0
  {
    if a != [] && a[|a| - 1] == b[|b| - 1] {
      SubseqDropLast(a, p);
    }
  }

  lemma {:induction false} NoDupsAppend<T>(s: seq<T>, x: T)
    requires NoDups(s) && x !in s
    ensures NoDups(s + [x])
  {
  }

  lemma NoDupsPrepend<T>(x: T, s: seq<T>)
    requires NoDups(s) && x !in s
    ensures NoDups([x] + s)
  {
    forall i, j | 0 <= i < j < |[x] + s| ensures ([x] + s)[i] != ([x] + s)[j] {
      assert ([x] + s)[j] == s[j - 1];
      if i > 0 {
        assert ([x] + s)[i] == s[i - 1];
      }
    }
  }

  /** Two duplicate-free sequences with no element in common concatenate without duplicates. */
  lemma NoDupsConcat<T>(a: seq<T>, b: seq<T>)
    requires NoDups(a) && NoDups(b)
    requires forall i, j :: 0 <= i < |a| && 0 <= j < |b| ==> a[i] != b[j]
    ensures NoDups(a + b)
  {
    forall i, j | 0 <= i < j < |a + b| ensures (a + b)[i] != (a + b)[j] {
      if j < |a| {
        assert (a + b)[i] == a[i] && (a + b)[j] == a[j];
      } else if i < |a| {
        assert (a + b)[i] == a[i] && (a + b)[j] == b[j - |a|];
      } else {
        assert (a + b)[i] == b[i - |a|] && (a + b)[j] == b[j - |a|];
      }
    }
  }

  /** A reordering of a sequence without duplicates has none either. */
  lemma PermutationNoDups<T>(a: seq<T>, b: seq<T>)
    requires multiset(a) == multiset(b) && NoDups(a)
    ensures NoDups(b)
  {
    forall i, j | 0 <= i < j < |b| ensures b[i] != b[j] {
      NoDupsCount(a, b[j]);
      CountBefore(b, j);
      assert b[..j][i] == b[i];
    }
  }

  /** Sequences with the same multiset have the same members. */
  lemma SameMembers<T>(a: seq<T>, b: seq<T>)
    requires multiset(a) == multiset(b)
    ensures forall x :: x in a <==> x in b
  {
    assert forall x :: x in a <==> x in multiset(a);
    assert forall x :: x in b <==> x in multiset(b);
  }

  lemma CountBefore<T>(b: seq<T>, j: nat)
    requires j < |b|
    ensures multiset(b)[b[j]] >= multiset(b[..j])[b[j]] + 1
  {
    assert b == b[..j] + [b[j]] + b[j + 1..];
  }

  lemma {:induction false} RemoveFirstNoDups<T>(s: seq<T>, x: T)
    requires NoDups(s)
    ensures NoDups(RemoveFirst(s, x)) && x !in RemoveFirst(s, x)
    ensures forall y :: y in s && y != x ==> y in RemoveFirst(s, x)
    ensures forall i :: 0 <= i < |RemoveFirst(s, x)| ==> RemoveFirst(s, x)[i] in s
    decreases |s|
  {
    if s != [] && s[0] != x {
      RemoveFirstNoDups(s[1..], x);
      var r := RemoveFirst(s[1..], x);
      assert s[0] !in r;
      forall i, j | 0 <= i < j < |[s[0]] + r| ensures ([s[0]] + r)[i] != ([s[0]] + r)[j] {
        if i > 0 { assert ([s[0]] + r)[i] == r[i - 1]; }
      }
    } else if s != [] {
      assert forall i, j :: 0 <= i < j < |s[1..]| ==> s[1..][i] == s[i + 1] && s[1..][j] == s[j + 1];
      assert forall y :: y in s[1..] ==> y != s[0];
    }
  }

  /** Removing an element that was appended last gives back what was there before. */
  lemma {:induction false} RemoveFirstAppended<T>(s: seq<T>, x: T)
    requires x !in s
    ensures RemoveFirst(s + [x], x) == s
    decreases |s|
  {
    if s != [] {
      assert (s + [x])[1..] == s[1..] + [x];
      RemoveFirstAppended(s[1..], x);
    }
  }

  lemma {:induction false} WithoutNoDups<T>(s: seq<T>, xs: set<T>)
    requires NoDups(s)
    ensures NoDups(Without(s, xs))
    ensures IsSubseq(Without(s, xs), s)
    decreases |s|
  {
    if s != [] {
      var p := s[..|s| - 1];
      assert NoDups(p);
      WithoutNoDups(p, xs);
      assert s == p + [s[|s| - 1]];
      SubseqAppend(Without(p, xs), p, s[|s| - 1]);
      if s[|s| - 1] !in xs {
        assert s[|s| - 1] !in p;
        NoDupsAppend(Without(p, xs), s[|s| - 1]);
      }
    }
  }

  /** When xs lists only elements of s, `Without(s, xs) + xs` is a permutation of s. */
  lemma {:induction false} WithoutThenAppendIsPermutation<T>(s: seq<T>, xs: seq<T>)
    requires NoDups(s) && NoDups(xs)
    requires forall y :: y in xs ==> y in s
    ensures multiset(Without(s, set y | y in xs) + xs) == multiset(s)
  {
    var set_xs := set y | y in xs;
    WithoutNoDups(s, set_xs);
    var w := Without(s, set_xs);
    forall y ensures multiset(w + xs)[y] == multiset(s)[y] {
      NoDupsCount(s, y);
      NoDupsCount(w, y);
      NoDupsCount(xs, y);
      assert y in w + xs <==> y in s;
    }
    assert multiset(w + xs) == multiset(s);
  }

  lemma {:induction false} NoDupsCount<T>(s: seq<T>, y: T)
    requires NoDups(s)
    ensures multiset(s)[y] == if y in s then 1 else 0
    decreases |s|
  {
    if s != [] {
      var p := s[..|s| - 1];
      assert s == p + [s[|s| - 1]];
      assert NoDups(p);
      NoDupsCount(p, y);
      assert s[|s| - 1] !in p;
    }
  }

  /** Python's `s.index(x)`: the position of the first occurrence (callers check `x in s`). */
  function FirstIndex<T(==)>(s: seq<T>, x: T): (i: nat)
    requires x in s
    ensures i < |s| && s[i] == x && x !in s[..i]
  {
    if s[0] == x then 0
    else
      var i := 1 + FirstIndex(s[1..], x);
      assert s[..i] == [s[0]] + s[1..][..i - 1];
      i
  }

  /** The first occurrence of x in `a + [x] + b`, when a does not hold x, is right after a. */
  lemma FirstIndexAfter<T>(a: seq<T>, x: T, b: seq<T>)
    requires x !in a
    ensures FirstIndex(a + [x] + b, x) == |a|
  {
    var s := a + [x] + b;
    assert s[|a|] == x && s[..|a|] == a;
  }
}
