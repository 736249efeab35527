/** Small value types and list functions shared by the models. */
module Basics {

  datatype Option<+T> = None | Some(value: T)

  ghost predicate Distinct<T>(s: seq<T>) {
    forall i, j :: 0 <= i < j < |s| ==> s[i] != s[j]
  }

  ghost function SetOf<T>(s: seq<T>): set<T> {
    set x | x in s
  }

  lemma EmptyMeet<T>(a: set<T>, b: set<T>)
    ensures a * b == {} <==> a !! b
  {
    if a * b == {} {
      forall x | x in a
        ensures x !in b
      {
        assert x in b ==> x in a * b;
      }
    }
  }

  lemma EmptySetOf<T>(s: seq<T>)
    ensures SetOf(s) == {} <==> s == []
  {
    if s != [] {
      assert s[0] in SetOf(s);
    }
  }

  lemma EmptyRest<T>(a: set<T>, b: set<T>)
    ensures a - b == {} <==> a <= b
  {
    if a - b == {} {
      forall x | x in a
        ensures x in b
      {
        assert x !in b ==> x in a - b;
      }
    }
  }

  ghost predicate Share<T>(a: seq<T>, b: seq<T>) {
    exists i, j :: 0 <= i < |a| && 0 <= j < |b| && a[i] == b[j]
  }

  /** Some element of `a` is not in `b`. */
  ghost predicate Exceeds<T>(a: seq<T>, b: seq<T>) {
    exists i :: 0 <= i < |a| && a[i] !in b
  }

  lemma SharedElement<T>(a: seq<T>, b: seq<T>)
    ensures SetOf(a) * SetOf(b) != {} <==> Share(a, b)
  {
    if Share(a, b) {
      var i, j :| 0 <= i < |a| && 0 <= j < |b| && a[i] == b[j];
      assert a[i] in SetOf(a) * SetOf(b);
    }
  }

  lemma MissingElement<T>(a: seq<T>, b: seq<T>)
    ensures SetOf(a) - SetOf(b) != {} <==> Exceeds(a, b)
  {
    assert forall x :: x in SetOf(a) - SetOf(b) <==> x in a && x !in b;
  }

  lemma AroundIndex<T>(s: seq<T>, i: nat)
    requires i < |s|
    ensures s == s[..i] + [s[i]] + s[i + 1..]
  {
  }

  // ---------- sorted lists of integers ----------

  ghost predicate Ascending(s: seq<int>) {
    forall i, j :: 0 <= i < j < |s| ==> s[i] < s[j]
  }

  method Pick<T(==)>(s: set<T>) returns (x: T)
    requires s != {}
    ensures x in s
  {
    x :| x in s;
  }

  method Minimum(s: set<int>) returns (m: int)
    requires s != {}
    ensures m in s && forall x :: x in s ==> m <= x
  {
    m := Pick(s);
    var rest := s - {m};
    while rest != {}
      invariant m in s && rest <= s
      invariant forall x :: x in s ==> x in rest || m <= x
      decreases rest
    {
      var x := Pick(rest);
      rest := rest - {x};
      if x < m {
        m := x;
      }
    }
  }

  /** `list(s)` followed by `sort()`. */
  method SortedList(s: set<int>) returns (list: seq<int>)
    ensures Ascending(list) && Distinct(list) && SetOf(list) == s
  {
    list := [];
    var rest := s;
    while rest != {}
      invariant rest <= s && Ascending(list) && SetOf(list) == s - rest
      invariant forall x, y :: x in list && y in rest ==> x < y
      decreases rest
    {
      var m := Minimum(rest);
      assert forall i :: 0 <= i < |list| ==> list[i] in list;
      assert SetOf(list + [m]) == SetOf(list) + {m};
      list, rest := list + [m], rest - {m};
    }
  }

  lemma SameSetSameMultiset<T>(a: seq<T>, b: seq<T>)
    requires Distinct(a) && Distinct(b) && SetOf(a) == SetOf(b)
    ensures multiset(a) == multiset(b)
  {
    DistinctMultiset(a);
    DistinctMultiset(b);
    forall x
      ensures multiset(a)[x] == multiset(b)[x]
    {
      assert x in a <==> x in SetOf(a);
      assert x in b <==> x in SetOf(b);
    }
  }

  lemma {:induction false} DistinctMultiset<T>(a: seq<T>)
    requires Distinct(a)
    ensures forall x :: multiset(a)[x] == if x in a then 1 else 0
  {
    if a == [] {
    } else {
      var front, last := a[..|a| - 1], a[|a| - 1];
      assert a == front + [last];
      DistinctMultiset(front);
    }
  }
}
