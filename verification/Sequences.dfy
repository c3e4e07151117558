/** Sequences without repetition, and the two edits the engine makes to a list of
    children: taking an element out and putting one in at a position. */
module Sequences {

  ghost predicate Distinct<T>(s: seq<T>) {
    forall i, j :: 0 <= i < j < |s| ==> s[i] != s[j]
  }

  lemma NothingDistinct<T>()
    ensures Distinct<T>([])
  {
  }

  function IndexOf<T(==)>(s: seq<T>, x: T): (i: nat)
    requires x in s
    ensures i < |s| && s[i] == x
    ensures x !in s[..i]
  {
    if s[0] == x then 0 else 1 + IndexOf(s[1..], x)
  }

  /** `s` with the first occurrence of `x`, if any, taken out. */
  function Without<T(==)>(s: seq<T>, x: T): seq<T> {
    if x in s then var k := IndexOf(s, x); s[..k] + s[k + 1..] else s
  }

  function Insert<T>(s: seq<T>, position: nat, x: T): seq<T>
    requires position <= |s|
  {
    s[..position] + [x] + s[position..]
  }

  function Repeat(n: nat, x: int): (s: seq<int>)
    ensures |s| == n && forall i :: 0 <= i < n ==> s[i] == x
  {
    seq(n, _ => x)
  }

  lemma RepeatMore(n: nat, x: int)
    ensures Repeat(n + 1, x) == Repeat(n, x) + [x]
  {
  }

  lemma IndexOfDistinct<T>(s: seq<T>, i: nat)
    requires Distinct(s) && i < |s|
    ensures IndexOf(s, s[i]) == i
  {
    assert s[IndexOf(s, s[i])] == s[i];
  }

  lemma WithoutDistinct<T>(s: seq<T>, x: T)
    requires Distinct(s)
    ensures Distinct(Without(s, x))
    ensures x !in Without(s, x)
    ensures forall y :: y in Without(s, x) <==> y in s && y != x
    ensures |Without(s, x)| == if x in s then |s| - 1 else |s|
  {
    if x in s {
      var k := IndexOf(s, x);
      assert s == s[..k] + [x] + s[k + 1..];
    }
  }

  lemma InsertDistinct<T>(s: seq<T>, position: nat, x: T)
    requires Distinct(s) && x !in s && position <= |s|
    ensures Distinct(Insert(s, position, x))
    ensures forall y :: y in Insert(s, position, x) <==> y in s || y == x
  {
    var t := Insert(s, position, x);
    assert t[position] == x;
    forall y | y in s ensures y in t {
      var i :| 0 <= i < |s| && s[i] == y;
      assert t[if i < position then i else i + 1] == y;
    }
  }

  lemma ConcatAssociative<T>(a: seq<T>, b: seq<T>, c: seq<T>)
    ensures (a + b) + c == a + (b + c)
  {
  }

  lemma DistinctConcat<T>(s: seq<T>, t: seq<T>)
    requires Distinct(s) && Distinct(t) && forall x :: x in s ==> x !in t
    ensures Distinct(s + t)
  {
    forall i, j | 0 <= i < j < |s + t| ensures (s + t)[i] != (s + t)[j] {
      if i < |s| <= j {
        assert s[i] in s && t[j - |s|] in t;
      }
    }
  }

  lemma {:induction false} DistinctBound<T>(s: seq<T>, within: set<T>)
    requires Distinct(s)
    requires forall x :: x in s ==> x in within
    ensures |s| <= |within|
  {
    if s == [] {
    } else {
      var last := s[|s| - 1];
      DistinctBound(s[..|s| - 1], within - {last});
    }
  }

  /** The first `n` numbers. */
  ghost function Below(n: nat): (all: set<nat>)
    ensures |all| == n && forall i: nat :: i in all <==> i < n
  {
    if n == 0 then {} else Below(n - 1) + {n - 1}
  }

  lemma Fewer<T>(a: set<T>, b: set<T>)
    requires a <= b
    ensures |a| <= |b|
  {
    assert b == a + (b - a);
  }

  lemma OneMore<T>(s: set<T>, x: T)
    ensures |s + {x}| <= |s| + 1
  {
    assert x in s ==> s + {x} == s;
  }

  lemma FewerTogether<T>(a: set<T>, b: set<T>, c: set<T>)
    requires a <= b + c
    ensures |a| <= |b| + |c|
  {
    Fewer(a, b + c);
    assert b + c == b + (c - b) && |c - b| <= |c| by { Fewer(c - b, c); }
  }

  /** A map has no more values than keys. */
  lemma {:induction false} FewerValues<K, V>(m: map<K, V>)
    ensures |m.Values| <= |m.Keys|
  {
    if m.Keys == {} {
      assert m.Values == {};
    } else {
      var k :| k in m;
      var less := m - {k};
      FewerValues(less);
      assert m.Keys == less.Keys + {k};
      FewerTogether(m.Values, less.Values, {m[k]});
    }
  }
}
