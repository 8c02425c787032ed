/**
 * Python's `list.sort()` on the two kinds of element the programs sort:
 * strings (card ids) and `(display text, id)` pairs. Python compares
 * strings code point by code point and tuples field by field; both orders
 * are total and antisymmetric, so every sorting algorithm (stable or not)
 * yields the same list: the unique sorted permutation.
 */
module Sorting {

  /** Python's `a < b` on str: lexicographic by code point, a proper prefix first. */
  predicate StrLt(a: string, b: string) {
    if a == [] then b != []
    else b != [] && (a[0] < b[0] || (a[0] == b[0] && StrLt(a[1..], b[1..])))
  }

  /** Python's `a <= b` on str. */
  predicate StrLe(a: string, b: string) {
    a == b || StrLt(a, b)
  }

  lemma {:induction false} StrLtIrreflexive(a: string)
    ensures !StrLt(a, a)
    decreases |a|
  {
    if a != [] {
      StrLtIrreflexive(a[1..]);
    }
  }

  lemma {:induction false} StrLtTotal(a: string, b: string)
    ensures a == b || StrLt(a, b) || StrLt(b, a)
    decreases |a|
  {
    if a != [] && b != [] && a[0] == b[0] {
      StrLtTotal(a[1..], b[1..]);
      if a[1..] == b[1..] {
        assert a == [a[0]] + a[1..] && b == [b[0]] + b[1..];
      }
    }
  }

  lemma {:induction false} StrLtTransitive(a: string, b: string, c: string)
    requires StrLt(a, b) && StrLt(b, c)
    ensures StrLt(a, c)
    decreases |a|
  {
    if a != [] && a[0] == b[0] && b[0] == c[0] {
      StrLtTransitive(a[1..], b[1..], c[1..]);
    }
  }

  lemma {:induction false} StrLtAsymmetric(a: string, b: string)
    requires StrLt(a, b)
    ensures !StrLt(b, a)
    decreases |a|
  {
    if a != [] && a[0] == b[0] {
      StrLtAsymmetric(a[1..], b[1..]);
    }
  }

  /** Python's tuple comparison `(d1, i1) <= (d2, i2)`. */
  predicate PairLe(p: (string, string), q: (string, string)) {
    StrLt(p.0, q.0) || (p.0 == q.0 && StrLe(p.1, q.1))
  }

  /** le is a total, antisymmetric and transitive relation: a linear order. */
  ghost predicate LinearOrder<T(!new)>(le: (T, T) -> bool) {
    (forall a, b :: le(a, b) || le(b, a))
    && (forall a, b :: le(a, b) && le(b, a) ==> a == b)
    && (forall a, b, c :: le(a, b) && le(b, c) ==> le(a, c))
  }

  lemma StrLeIsLinear()
    ensures LinearOrder(StrLe)
  {
    forall a, b ensures StrLe(a, b) || StrLe(b, a) {
      StrLtTotal(a, b);
    }
    forall a, b | StrLe(a, b) && StrLe(b, a) ensures a == b {
      if a != b {
        StrLtAsymmetric(a, b);
      }
    }
    forall a, b, c | StrLe(a, b) && StrLe(b, c) ensures StrLe(a, c) {
      if a != b && b != c {
        StrLtTransitive(a, b, c);
      }
    }
  }

  lemma PairLeIsLinear()
    ensures LinearOrder(PairLe)
  {
    StrLeIsLinear();
    forall p, q ensures PairLe(p, q) || PairLe(q, p) {
      StrLtTotal(p.0, q.0);
    }
    forall p, q | PairLe(p, q) && PairLe(q, p) ensures p == q {
      if p.0 != q.0 {
        StrLtAsymmetric(p.0, q.0);
      } else {
        StrLtIrreflexive(p.0);
        assert StrLe(p.1, q.1) && StrLe(q.1, p.1);
        assert p.1 == q.1;
      }
    }
    forall p, q, r | PairLe(p, q) && PairLe(q, r) ensures PairLe(p, r) {
      if StrLt(p.0, q.0) && StrLt(q.0, r.0) {
        StrLtTransitive(p.0, q.0, r.0);
      }
    }
  }

  predicate SortedBy<T>(s: seq<T>, le: (T, T) -> bool) {
    forall i, j :: 0 <= i < j < |s| ==> le(s[i], s[j])
  }

  function Insert<T(!new)>(x: T, s: seq<T>, le: (T, T) -> bool): (r: seq<T>)
    requires LinearOrder(le) && SortedBy(s, le)
    ensures SortedBy(r, le)
    ensures multiset(r) == multiset(s) + multiset{x}
  {
    if s == [] then [x]
    else if le(x, s[0]) then
      var r := [x] + s;
      assert forall i :: 0 < i < |r| ==> r[i] == s[i - 1];
      r
    else
      var tail := Insert(x, s[1..], le);
      assert s == [s[0]] + s[1..];
      var r := [s[0]] + tail;
      assert forall y :: y in multiset(tail) ==> le(s[0], y) by {
        forall y | y in multiset(tail) ensures le(s[0], y) {
          assert y == x || y in multiset(s[1..]);
          if y != x {
            var k :| 0 <= k < |s[1..]| && s[1..][k] == y;
            assert s[k + 1] == y;
          }
        }
      }
      assert forall i :: 0 < i < |r| ==> r[i] == tail[i - 1] && r[i] in multiset(tail);
      r
  }

  /** `list.sort()`: the sorted permutation of s (insertion sort; any algorithm gives the same list). */
  function Sort<T(!new)>(s: seq<T>, le: (T, T) -> bool): (r: seq<T>)
    requires LinearOrder(le)
    ensures SortedBy(r, le)
    ensures multiset(r) == multiset(s)
  {
    if s == [] then []
    else
      assert s == s[..|s| - 1] + [s[|s| - 1]];
      Insert(s[|s| - 1], Sort(s[..|s| - 1], le), le)
  }

  /** The head of a sorted list is below everything in it. */
  lemma HeadIsLeast<T>(s: seq<T>, y: T, le: (T, T) -> bool)
    requires SortedBy(s, le) && s != [] && y in s && y != s[0]
    ensures le(s[0], y)
  {
    var k :| 0 <= k < |s| && s[k] == y;
  }

  lemma SameHead<T(!new)>(a: seq<T>, b: seq<T>, le: (T, T) -> bool)
    requires LinearOrder(le)
    requires SortedBy(a, le) && SortedBy(b, le) && multiset(a) == multiset(b) && a != []
    ensures b != [] && a[0] == b[0]
  {
    assert a[0] in multiset(b);
    assert b != [];
    assert b[0] in multiset(a);
    if a[0] != b[0] {
      HeadIsLeast(b, a[0], le);
    }
  }

  /** Under a linear order there is exactly one sorted permutation of a list. */
  lemma {:induction false} SortedPermutationUnique<T(!new)>(a: seq<T>, b: seq<T>, le: (T, T) -> bool)
    requires LinearOrder(le)
    requires SortedBy(a, le) && SortedBy(b, le) && multiset(a) == multiset(b)
    ensures a == b
    decreases |a|
  {
    if a != [] {
      SameHead(a, b, le);
      TailMultiset(a);
      TailMultiset(b);
      SortedTail(a, le);
      SortedTail(b, le);
      SortedPermutationUnique(a[1..], b[1..], le);
      HeadTail(a, b);
    } else {
      assert |b| == |multiset(b)| == 0;
    }
  }

  lemma TailMultiset<T>(s: seq<T>)
    requires s != []
    ensures multiset(s[1..]) == multiset(s) - multiset{s[0]}
  {
    assert s == [s[0]] + s[1..];
  }

  lemma SortedTail<T>(s: seq<T>, le: (T, T) -> bool)
    requires SortedBy(s, le) && s != []
    ensures SortedBy(s[1..], le)
  {
    forall i, j | 0 <= i < j < |s[1..]| ensures le(s[1..][i], s[1..][j]) {
      assert s[1..][i] == s[i + 1] && s[1..][j] == s[j + 1];
    }
  }

  lemma HeadTail<T>(a: seq<T>, b: seq<T>)
    requires a != [] && b != [] && a[0] == b[0] && a[1..] == b[1..]
    ensures a == b
  {
    assert a == [a[0]] + a[1..];
    assert b == [b[0]] + b[1..];
  }

  /** Sorting what is already sorted changes nothing. */
  lemma SortIdempotent<T(!new)>(s: seq<T>, le: (T, T) -> bool)
    requires LinearOrder(le)
    ensures Sort(Sort(s, le), le) == Sort(s, le)
  {
    SortedPermutationUnique(Sort(Sort(s, le), le), Sort(s, le), le);
  }
}
