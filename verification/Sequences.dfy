/** Filtering, regrouping and slicing sequences, and totals over maps. */
module Sequences {

  /** The elements that satisfy `keep`, in order. */
  function Filter<T>(s: seq<T>, keep: T -> bool): seq<T> {
    if s == [] then [] else (if keep(s[0]) then [s[0]] else []) + Filter(s[1..], keep)
  }

  lemma {:induction false} FilterOfSum<T>(a: seq<T>, b: seq<T>, keep: T -> bool)
    ensures Filter(a + b, keep) == Filter(a, keep) + Filter(b, keep)
  {
    if a == [] {
      assert a + b == b;
    } else {
      FilterOfSum(a[1..], b, keep);
      assert (a + b)[0] == a[0] && (a + b)[1..] == a[1..] + b;
      Regroup(if keep(a[0]) then [a[0]] else [], Filter(a[1..], keep), Filter(b, keep));
    }
  }

  /** One step of filtering from the left. */
  lemma FilterOfNext<T>(s: seq<T>, n: nat, keep: T -> bool)
    requires n < |s|
    ensures Filter(s[..n + 1], keep) == Filter(s[..n], keep) + if keep(s[n]) then [s[n]] else []
  {
    assert s[..n + 1] == s[..n] + [s[n]];
    FilterOfSum(s[..n], [s[n]], keep);
  }

  lemma FilterOfPrefix<T>(s: seq<T>, n: nat, keep: T -> bool)
    requires n <= |s|
    ensures Filter(s[..n], keep) <= Filter(s, keep)
  {
    assert s == s[..n] + s[n..];
    FilterOfSum(s[..n], s[n..], keep);
  }

  lemma {:induction false} FilterMembers<T>(s: seq<T>, keep: T -> bool)
    ensures |Filter(s, keep)| <= |s|
    ensures forall x :: x in Filter(s, keep) <==> x in s && keep(x)
  {
    if s != [] {
      FilterMembers(s[1..], keep);
      assert s == [s[0]] + s[1..];
    }
  }

  lemma {:induction false} FilterCounts<T>(s: seq<T>, keep: T -> bool, x: T)
    ensures multiset(Filter(s, keep))[x] == if keep(x) then multiset(s)[x] else 0
  {
    if s != [] {
      FilterCounts(s[1..], keep, x);
      assert s == [s[0]] + s[1..];
    }
  }

  lemma {:induction false} FilterKeepsAll<T>(s: seq<T>, keep: T -> bool)
    requires forall x | x in s :: keep(x)
    ensures Filter(s, keep) == s
  {
    if s != [] {
      FilterKeepsAll(s[1..], keep);
      assert s == [s[0]] + s[1..];
    }
  }

  lemma {:induction false} FilterAlike<T>(s: seq<T>, keep: T -> bool, also: T -> bool)
    requires forall x | x in s :: keep(x) == also(x)
    ensures Filter(s, keep) == Filter(s, also)
  {
    if s != [] { FilterAlike(s[1..], keep, also); }
  }

  lemma Regroup<T>(a: seq<T>, b: seq<T>, c: seq<T>)
    ensures a + b + c == a + (b + c)
  {}

  lemma CutInThree<T>(s: seq<T>, a: nat, b: nat, c: nat)
    requires a <= b <= c <= |s|
    ensures s[a..] == s[a..b] + s[b..c] + s[c..]
  {
    var whole, parts := s[a..], s[a..b] + s[b..c] + s[c..];
    assert |whole| == |parts| && forall j | 0 <= j < |whole| :: whole[j] == parts[j];
  }

  lemma Tail<T>(s: seq<T>, a: nat)
    requires a <= |s|
    ensures s[a..] == s[a..|s|]
  {
    var x, y := s[a..], s[a..|s|];
    assert |x| == |y| && forall j | 0 <= j < |x| :: x[j] == y[j];
  }

  // ---- totals over maps

  /** The sizes of all values together. */
  ghost function Total<K, V>(m: map<K, V>, size: V -> nat): nat {
    if m == map[] then 0 else
    var k :| k in m;
    size(m[k]) + Total(m - {k}, size)
  }

  lemma {:induction false} TotalWithout<K, V>(m: map<K, V>, size: V -> nat, k: K)
    requires k in m
    ensures Total(m, size) == size(m[k]) + Total(m - {k}, size)
    decreases |m|
  {
    var first :| first in m && Total(m, size) == size(m[first]) + Total(m - {first}, size);
    if first != k {
      TotalWithout(m - {first}, size, k);
      TotalWithout(m - {k}, size, first);
      assert m - {first} - {k} == m - {k} - {first};
    }
  }

  lemma TotalWith<K, V>(m: map<K, V>, size: V -> nat, k: K, v: V)
    ensures Total(m[k := v], size) == Total(m, size) - (if k in m then size(m[k]) else 0) + size(v)
  {
    TotalWithout(m[k := v], size, k);
    assert m[k := v] - {k} == m - {k};
    if k in m { TotalWithout(m, size, k); } else { assert m - {k} == m; }
  }
}
