/** Comparison functions in Go's style, their laws, and sorting by them. */
module Ordering {
  import opened Seqs

  function Sign(n: int): int {
    if n < 0 then -1 else if n > 0 then 1 else 0
  }

  /** The laws a comparison needs for sorting to be well defined up to ties: the sign flips with
      the arguments, and "not after" is transitive. */
  ghost predicate Comparator<T(!new)>(cmp: (T, T) -> int) {
    && (forall a, b :: Sign(cmp(a, b)) == -Sign(cmp(b, a)))
    && (forall a, b, c :: cmp(a, b) <= 0 && cmp(b, c) <= 0 ==> cmp(a, c) <= 0)
  }

  ghost predicate SortedBy<T>(s: seq<T>, cmp: (T, T) -> int) {
    forall i, j | 0 <= i < j < |s| :: cmp(s[i], s[j]) <= 0
  }

  /** First a, and b where a ties. */
  function Then<T>(a: (T, T) -> int, b: (T, T) -> int): (T, T) -> int {
    (x, y) => if a(x, y) != 0 then a(x, y) else b(x, y)
  }

  lemma TiesTransitive<T(!new)>(cmp: (T, T) -> int, x: T, y: T, z: T)
    requires Comparator(cmp)
    ensures cmp(x, y) == 0 && cmp(y, z) <= 0 ==> cmp(x, z) <= 0
    ensures cmp(x, y) < 0 && cmp(y, z) <= 0 ==> cmp(x, z) < 0
    ensures cmp(x, y) <= 0 && cmp(y, z) < 0 ==> cmp(x, z) < 0
    ensures cmp(x, y) == 0 && cmp(y, z) == 0 ==> cmp(x, z) == 0
  {
    assert forall a, b :: Sign(cmp(a, b)) == -Sign(cmp(b, a));
  }

  lemma ThenComparator<T(!new)>(a: (T, T) -> int, b: (T, T) -> int)
    requires Comparator(a) && Comparator(b)
    ensures Comparator(Then(a, b))
  {
    var cmp := Then(a, b);
    forall x, y ensures Sign(cmp(x, y)) == -Sign(cmp(y, x)) {
      assert Sign(a(x, y)) == -Sign(a(y, x)) && Sign(b(x, y)) == -Sign(b(y, x));
    }
    forall x, y, z | cmp(x, y) <= 0 && cmp(y, z) <= 0
      ensures cmp(x, z) <= 0
    {
      TiesTransitive(a, x, y, z);
      assert a(x, y) <= 0 && a(y, z) <= 0;
    }
  }

  /** Comparing a projection. */
  lemma OnComparator<S(!new), T(!new)>(cmp: (T, T) -> int, f: S -> T)
    requires Comparator(cmp)
    ensures Comparator((x: S, y: S) => cmp(f(x), f(y)))
  {
    var on := (x: S, y: S) => cmp(f(x), f(y));
    forall x, y ensures Sign(on(x, y)) == -Sign(on(y, x)) {
      assert Sign(cmp(f(x), f(y))) == -Sign(cmp(f(y), f(x)));
    }
  }

  lemma ReverseComparator<T(!new)>(cmp: (T, T) -> int)
    requires Comparator(cmp)
    ensures Comparator((x: T, y: T) => cmp(y, x))
  {
    var rev := (x: T, y: T) => cmp(y, x);
    forall x, y ensures Sign(rev(x, y)) == -Sign(rev(y, x)) {
      assert Sign(cmp(x, y)) == -Sign(cmp(y, x));
    }
  }

  /** slices.SortFunc: some order of the same elements that the comparison accepts. Ties may come
      out in any order; callers know no more than this contract. */
  method SortFunc<T(!new)>(s: seq<T>, cmp: (T, T) -> int) returns (r: seq<T>)
    requires Comparator(cmp)
    ensures multiset(r) == multiset(s) && SortedBy(r, cmp)
  {
    r := [];
    for i := 0 to |s|
      invariant multiset(r) == multiset(s[..i]) && SortedBy(r, cmp)
    {
      var k := 0;
      while k < |r| && cmp(r[k], s[i]) <= 0
        invariant 0 <= k <= |r|
        invariant forall j | 0 <= j < k :: cmp(r[j], s[i]) <= 0
      {
        k := k + 1;
      }
      assert s[..i + 1] == s[..i] + [s[i]];
      InsertSorted(r, s[i], k, cmp);
      assert r == r[..k] + r[k..];
      r := r[..k] + [s[i]] + r[k..];
    }
    assert s[..|s|] == s;
  }

  lemma InsertSorted<T(!new)>(r: seq<T>, x: T, k: nat, cmp: (T, T) -> int)
    requires Comparator(cmp) && SortedBy(r, cmp) && k <= |r|
    requires forall j | 0 <= j < k :: cmp(r[j], x) <= 0
    requires k < |r| ==> cmp(r[k], x) > 0
    ensures SortedBy(r[..k] + [x] + r[k..], cmp)
  {
    forall j | k <= j < |r| ensures cmp(x, r[j]) <= 0 {
      assert Sign(cmp(r[k], x)) == -Sign(cmp(x, r[k]));
      if j > k {
        assert cmp(r[k], r[j]) <= 0;
      }
    }
  }

  // ---------------------------------------------------------------- text

  /** strings.Compare, on code points. */
  function CompareStrings(a: string, b: string): int {
    if a == [] then (if b == [] then 0 else -1)
    else if b == [] then 1
    else if a[0] < b[0] then -1
    else if a[0] > b[0] then 1
    else CompareStrings(a[1..], b[1..])
  }

  lemma {:induction false} CompareStringsZero(a: string, b: string)
    ensures CompareStrings(a, b) == 0 <==> a == b
  {
    if a != [] && b != [] {
      CompareStringsZero(a[1..], b[1..]);
      assert a == [a[0]] + a[1..] && b == [b[0]] + b[1..];
    }
  }

  lemma {:induction false} CompareStringsFlips(a: string, b: string)
    ensures CompareStrings(a, b) == -CompareStrings(b, a)
  {
    if a != [] && b != [] {
      CompareStringsFlips(a[1..], b[1..]);
    }
  }

  lemma {:induction false} CompareStringsTransitive(a: string, b: string, c: string)
    requires CompareStrings(a, b) <= 0 && CompareStrings(b, c) <= 0
    ensures CompareStrings(a, c) <= 0
  {
    if a != [] && b != [] && c != [] && a[0] == b[0] == c[0] {
      CompareStringsTransitive(a[1..], b[1..], c[1..]);
    }
  }

  lemma StringsComparator()
    ensures Comparator(CompareStrings)
  {
    forall a, b ensures Sign(CompareStrings(a, b)) == -Sign(CompareStrings(b, a)) {
      CompareStringsFlips(a, b);
    }
    forall a, b, c | CompareStrings(a, b) <= 0 && CompareStrings(b, c) <= 0
      ensures CompareStrings(a, c) <= 0
    {
      CompareStringsTransitive(a, b, c);
    }
  }

  /** slices.Sorted over the keys of a set or map: each once, ascending. */
  method SortedNames(names: set<string>) returns (sorted: seq<string>)
    ensures forall n :: n in sorted <==> n in names
    ensures forall i, j | 0 <= i < j < |sorted| :: CompareStrings(sorted[i], sorted[j]) < 0
  {
    var some := Enumerate(names);
    StringsComparator();
    sorted := SortFunc(some, CompareStrings);
    SameMultisetDistinct(some, sorted);
    forall i, j | 0 <= i < j < |sorted| ensures CompareStrings(sorted[i], sorted[j]) < 0 {
      CompareStringsZero(sorted[i], sorted[j]);
    }
  }

  // ---------------------------------------------------------------- ORDER BY

  /** Strictly ascending by key. */
  ghost predicate AscendingBy<T>(s: seq<T>, key: T -> string) {
    forall i, j | 0 <= i < j < |s| :: CompareStrings(key(s[i]), key(s[j])) < 0
  }

  lemma ByKeyComparator<T(!new)>(key: T -> string)
    ensures Comparator((x: T, y: T) => CompareStrings(key(x), key(y)))
  {
    StringsComparator();
    OnComparator(CompareStrings, key);
  }

  /** ORDER BY a text column, with binary collation. */
  method OrderBy<T(!new)>(s: seq<T>, key: T -> string) returns (r: seq<T>)
    ensures multiset(r) == multiset(s)
    ensures forall i, j | 0 <= i < j < |r| :: CompareStrings(key(r[i]), key(r[j])) <= 0
  {
    ByKeyComparator(key);
    r := SortFunc(s, (x: T, y: T) => CompareStrings(key(x), key(y)));
  }

  /** Sorted elements with different keys ascend strictly. */
  lemma StrictlyAscending<T(!new)>(s: seq<T>, r: seq<T>, key: T -> string)
    requires multiset(r) == multiset(s) && forall i, j | 0 <= i < j < |s| :: key(s[i]) != key(s[j])
    requires forall i, j | 0 <= i < j < |r| :: CompareStrings(key(r[i]), key(r[j])) <= 0
    ensures AscendingBy(r, key) && forall x :: x in r <==> x in s
  {
    SameMultisetDistinct(s, r);
    forall i, j | 0 <= i < j < |r| ensures CompareStrings(key(r[i]), key(r[j])) < 0 {
      assert r[i] in s && r[j] in s && r[i] != r[j];
      CompareStringsZero(key(r[i]), key(r[j]));
    }
  }
}
