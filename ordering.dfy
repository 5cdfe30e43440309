/**
 * Python's ordering of strings (lexicographic by code point) and the
 * `sorted(...)` of a set under a total order, used wherever the original
 * programs sort names or group keys.
 */
module Ordering {

  /** `a <= b` for Python strings. */
  predicate StrLe(a: string, b: string) {
    if a == [] then true
    else if b == [] then false
    else if a[0] != b[0] then a[0] < b[0]
    else StrLe(a[1..], b[1..])
  }

  /** `a < b` for Python strings. */
  predicate StrLt(a: string, b: string) { StrLe(a, b) && a != b }

  lemma StrLeReflexive(a: string)
    ensures StrLe(a, a)
  {
  }

  lemma {:induction false} StrLeAntisymmetric(a: string, b: string)
    ensures StrLe(a, b) && StrLe(b, a) ==> a == b
  {
    if a != [] && b != [] && a[0] == b[0] {
      StrLeAntisymmetric(a[1..], b[1..]);
      if StrLe(a, b) && StrLe(b, a) {
        assert a == [a[0]] + a[1..] && b == [b[0]] + b[1..];
      }
    }
  }

  lemma {:induction false} StrLeTransitive(a: string, b: string, c: string)
    ensures StrLe(a, b) && StrLe(b, c) ==> StrLe(a, c)
  {
    if a != [] && b != [] && c != [] && a[0] == b[0] && b[0] == c[0] {
      StrLeTransitive(a[1..], b[1..], c[1..]);
    }
  }

  lemma {:induction false} StrLeTotal(a: string, b: string)
    ensures StrLe(a, b) || StrLe(b, a)
  {
    if a != [] && b != [] && a[0] == b[0] {
      StrLeTotal(a[1..], b[1..]);
    }
  }

  /** `le` is reflexive, antisymmetric, transitive and total. */
  ghost predicate TotalOrder<T(!new)>(le: (T, T) -> bool) {
    && (forall a :: le(a, a))
    && (forall a, b :: le(a, b) && le(b, a) ==> a == b)
    && (forall a, b, c :: le(a, b) && le(b, c) ==> le(a, c))
    && (forall a, b :: le(a, b) || le(b, a))
  }

  lemma StrLeIsTotalOrder()
    ensures TotalOrder(StrLe)
  {
    forall a: string ensures StrLe(a, a) { StrLeReflexive(a); }
    forall a: string, b: string ensures StrLe(a, b) && StrLe(b, a) ==> a == b {
      StrLeAntisymmetric(a, b);
    }
    forall a: string, b: string, c: string ensures StrLe(a, b) && StrLe(b, c) ==> StrLe(a, c) {
      StrLeTransitive(a, b, c);
    }
    forall a: string, b: string ensures StrLe(a, b) || StrLe(b, a) { StrLeTotal(a, b); }
  }

  predicate IsLeast<T>(le: (T, T) -> bool, m: T, s: set<T>) {
    m in s && forall x :: x in s ==> le(m, x)
  }

  /** Every finite non-empty set has a least element under a total order. */
  lemma {:induction false} LeastExists<T(!new)>(s: set<T>, le: (T, T) -> bool)
    requires TotalOrder(le) && s != {}
    ensures exists m :: IsLeast(le, m, s)
    decreases s
  {
    var y :| y in s;
    if s - {y} == {} {
      assert s == {y};
      assert IsLeast(le, y, s);
    } else {
      LeastExists(s - {y}, le);
      var m :| IsLeast(le, m, s - {y});
      if le(m, y) {
        assert IsLeast(le, m, s);
      } else {
        assert IsLeast(le, y, s);
      }
    }
  }

  /** Python's `sorted(s)` for a set: its elements in ascending order. */
  function SortSet<T(!new)>(s: set<T>, le: (T, T) -> bool): (r: seq<T>)
    requires TotalOrder(le)
    ensures |r| == |s|
    ensures forall x :: x in r <==> x in s
    ensures forall i, j :: 0 <= i < j < |r| ==> le(r[i], r[j]) && r[i] != r[j]
    decreases s
  {
    if s == {} then []
    else
      LeastExists(s, le);
      var m :| IsLeast(le, m, s);
      var rest := SortSet(s - {m}, le);
      assert forall j :: 0 <= j < |rest| ==> rest[j] in s - {m};
      ConsSorted(m, rest, le);
      [m] + rest
  }

  /** A sorted sequence stays sorted behind an element below all of it. */
  lemma ConsSorted<T>(m: T, rest: seq<T>, le: (T, T) -> bool)
    requires forall j :: 0 <= j < |rest| ==> le(m, rest[j]) && m != rest[j]
    requires forall i, j :: 0 <= i < j < |rest| ==> le(rest[i], rest[j]) && rest[i] != rest[j]
    ensures forall i, j :: 0 <= i < j < |[m] + rest| ==> le(([m] + rest)[i], ([m] + rest)[j]) && ([m] + rest)[i] != ([m] + rest)[j]
  {
    var r := [m] + rest;
    forall i, j | 0 <= i < j < |r| ensures le(r[i], r[j]) && r[i] != r[j] {
      assert r[j] == rest[j - 1];
      if i > 0 {
        assert r[i] == rest[i - 1];
      }
    }
  }

  /** The elements of `s` that satisfy `p`, in their order (a list
      comprehension with a condition). */
  function Filter<T(!new)>(s: seq<T>, p: T -> bool): (r: seq<T>)
    ensures |r| <= |s|
    ensures forall x :: x in r <==> x in s && p(x)
  {
    if s == [] then [] else (if p(s[0]) then [s[0]] else []) + Filter(s[1..], p)
  }
}
