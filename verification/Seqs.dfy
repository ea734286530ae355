/** Small facts about sequences and sets shared by the components. */
module Seqs {

  ghost predicate Distinct<T>(s: seq<T>) {
    forall i, j | 0 <= i < j < |s| :: s[i] != s[j]
  }

  function Elems<T>(s: seq<T>): set<T> {
    set x | x in s
  }

  lemma DistinctAppend<T>(s: seq<T>, t: seq<T>)
    requires Distinct(s) && Distinct(t) && (forall x <- s :: x !in t)
    ensures Distinct(s + t)
  {
    forall i, j | 0 <= i < j < |s + t|
      ensures (s + t)[i] != (s + t)[j]
    {
      if i < |s| && j >= |s| {
        assert s[i] in s && t[j - |s|] in t;
      }
    }
  }

  lemma DistinctHead<T>(s: seq<T>, t: seq<T>)
    requires Distinct(s + t) && t != []
    ensures t[0] !in s
  {
    var st := s + t;
    assert st[|s|] == t[0];
    assert forall i | 0 <= i < |s| :: st[i] == s[i];
  }

  /** A result set: every row once, in an order of the engine's choosing. */
  method Enumerate<T(==)>(rows: set<T>) returns (s: seq<T>)
    ensures Distinct(s) && forall x :: x in s <==> x in rows
  {
    s := [];
    var rest := rows;
    while rest != {}
      invariant rest <= rows && Distinct(s)
      invariant forall x :: x in s <==> x in rows && x !in rest
      decreases rest
    {
      var x :| x in rest;
      DistinctAppend(s, [x]);
      s, rest := s + [x], rest - {x};
    }
  }

  lemma {:induction false} DistinctCount<T>(s: seq<T>)
    requires Distinct(s)
    ensures |Elems(s)| == |s|
  {
    if s != [] {
      var init, x := s[..|s| - 1], s[|s| - 1];
      DistinctCount(init);
      assert s == init + [x];
      assert Elems(s) == Elems(init) + {x};
    } else {
      assert Elems(s) == {};
    }
  }

  lemma {:induction false} DistinctMultiset<T>(s: seq<T>)
    ensures Distinct(s) <==> forall x :: multiset(s)[x] <= 1
  {
    if s != [] {
      var init, x := s[..|s| - 1], s[|s| - 1];
      assert s == init + [x];
      assert forall y :: multiset(s)[y] == multiset(init)[y] + if y == x then 1 else 0;
      DistinctMultiset(init);
      assert x in init <==> multiset(init)[x] > 0;
      if Distinct(s) {
        assert Distinct(init) && x !in init;
      } else if Distinct(init) {
        assert x in init;
      }
    }
  }

  lemma SameMultisetDistinct<T>(s: seq<T>, t: seq<T>)
    requires multiset(s) == multiset(t) && Distinct(s)
    ensures Distinct(t) && forall x :: x in s <==> x in t
  {
    DistinctMultiset(s);
    DistinctMultiset(t);
    assert forall x :: x in s <==> multiset(s)[x] > 0;
    assert forall x :: x in t <==> multiset(t)[x] > 0;
  }

  lemma SplitLast<T>(s: seq<T>)
    requires s != []
    ensures s == s[..|s| - 1] + [s[|s| - 1]]
  {
  }

  lemma ConcatAssociates<T>(a: seq<T>, b: seq<T>, c: seq<T>)
    ensures a + (b + c) == (a + b) + c
  {
  }

  lemma SumAssociates<T>(a: multiset<T>, b: multiset<T>, c: multiset<T>)
    ensures (a + b) + c == a + (b + c) && (a + b) + c == (a + c) + b
  {
  }

  /** The place in b of the last element of a, and what is left of both without it. */
  lemma LastIn<T>(a: seq<T>, b: seq<T>) returns (k: nat)
    requires a != [] && multiset(a) == multiset(b)
    ensures k < |b| && b[k] == a[|a| - 1] && b == b[..k] + [b[k]] + b[k + 1..]
    ensures multiset(a[..|a| - 1]) == multiset(b[..k] + b[k + 1..])
  {
    SplitLast(a);
    assert a[|a| - 1] in multiset(b);
    k :| 0 <= k < |b| && b[k] == a[|a| - 1];
    assert b == b[..k] + [b[k]] + b[k + 1..];
    assert multiset(a[..|a| - 1]) == multiset(a) - multiset{b[k]};
  }
}
