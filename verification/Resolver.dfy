/** Resolution: one catalog, the graphs asked for, the union of their bundles, a filter, an order. */
module Resolver {
  import opened Wrappers
  import opened Ordering
  import opened Releases
  import opened Seqs

  datatype Identity<V> = Identity(id: string, nvr: NameVersionRelease<V>)
  datatype Bundle<V> = Bundle(identity: Identity<V>, deprecated: bool)

  /** One element of a bundle stream. */
  datatype Answer<V> = Got(bundle: Bundle<V>) | Failed

  /** An update graph; the composite ones have children. `children` holds what GetGraph finds, by the name
      asked for, which need not be the name of the graph found: a store finds a child under "" too. */
  datatype Graph<!V> = Graph(
    name: string,
    listing: seq<Answer<V>>,
    successors: Identity<V> -> seq<Answer<V>>,
    children: Option<map<string, Graph<V>>>)

  /** `packages` holds what GetPackage finds, by the name asked for. */
  datatype Catalog<!V> = Catalog(name: string, priority: int, packages: map<string, Graph<V>>)

  datatype Config<!V> = Config(
    paths: seq<seq<string>>,
    constraint: Option<V -> bool>,
    from: Option<Identity<V>>,
    preferNonDeprecated: bool)

  datatype Selection<!V> = Chosen(catalog: Catalog<V>, pkg: Graph<V>) | Ambiguous(priority: int,
                                  names: seq<string>) | NotFound

  // ---------------------------------------------------------------- priority groups

  function Concat<T>(groups: seq<seq<T>>): seq<T> {
    if groups == [] then [] else Concat(groups[..|groups| - 1]) + groups[|groups| - 1]
  }

  ghost predicate IsGroup<V>(group: seq<Catalog<V>>) {
    group != [] && forall i | 0 <= i < |group| :: group[i].priority == group[0].priority
  }

  ghost predicate Descending<V>(groups: seq<seq<Catalog<V>>>) {
    && (forall i | 0 <= i < |groups| :: IsGroup(groups[i]))
    && (forall i, j | 0 <= i < j < |groups| :: groups[i][0].priority > groups[j][0].priority)
  }

  function ByPriority<V>(a: Catalog<V>, b: Catalog<V>): int {
    if b.priority < a.priority then -1 else if b.priority > a.priority then 1 else 0
  }

  lemma ByPriorityComparator<V(!new)>()
    ensures Comparator<Catalog<V>>(ByPriority)
  {
  }

  lemma ConcatLast<T>(groups: seq<seq<T>>, group: seq<T>)
    ensures Concat(groups + [group]) == Concat(groups) + group
  {
    assert (groups + [group])[..|groups|] == groups;
  }

  /** The groups are closed, current is the one being filled, all above what is still to come. */
  ghost predicate Grouping<V>(groups: seq<seq<Catalog<V>>>, current: seq<Catalog<V>>, priority: int) {
    && Descending(groups)
    && (forall k | 0 <= k < |groups| :: groups[k][0].priority > priority)
    && current != []
    && (forall k | 0 <= k < |current| :: current[k].priority == priority)
  }

  lemma CloseGroup<V>(groups: seq<seq<Catalog<V>>>, current: seq<Catalog<V>>, priority: int)
    requires Grouping(groups, current, priority)
    ensures Descending(groups + [current])
  {
    assert IsGroup(current);
  }

  lemma NextGroup<V>(groups: seq<seq<Catalog<V>>>, current: seq<Catalog<V>>, priority: int, c: Catalog<V>)
    requires Grouping(groups, current, priority) && c.priority < priority
    ensures Grouping(groups + [current], [c], c.priority)
  {
    CloseGroup(groups, current, priority);
  }

  /** The groups and the current one split what comes before i, whose last priority is given. */
  ghost predicate SplitTo<V>(
    sorted: seq<Catalog<V>>, i: nat, groups: seq<seq<Catalog<V>>>, current: seq<Catalog<V>>, priority: int
  )
    requires 0 < i <= |sorted|
  {
    && Concat(groups) + current == sorted[..i]
    && Grouping(groups, current, priority)
    && priority == sorted[i - 1].priority
  }

  lemma SplitNext<V>(
    sorted: seq<Catalog<V>>, i: nat, groups: seq<seq<Catalog<V>>>, current: seq<Catalog<V>>, priority: int
  )
    requires 0 < i < |sorted| && sorted[i].priority <= sorted[i - 1].priority
    requires SplitTo(sorted, i, groups, current, priority)
    ensures sorted[i].priority == priority ==> SplitTo(sorted, i + 1, groups, current + [sorted[i]], priority)
    ensures sorted[i].priority != priority
            ==> SplitTo(sorted, i + 1, groups + [current], [sorted[i]], sorted[i].priority)
  {
    assert sorted[..i + 1] == sorted[..i] + [sorted[i]];
    if sorted[i].priority == priority {
      ConcatAssociates(Concat(groups), current, [sorted[i]]);
    } else {
      NextGroup(groups, current, priority, sorted[i]);
      ConcatLast(groups, current);
    }
  }

  method SplitSorted<V>(sorted: seq<Catalog<V>>) returns (groups: seq<seq<Catalog<V>>>)
    requires sorted != [] && forall k | 0 < k < |sorted| :: sorted[k].priority <= sorted[k - 1].priority
    ensures Concat(groups) == sorted && Descending(groups)
  {
    groups := [];
    var current: seq<Catalog<V>> := [];
    var priority := sorted[0].priority;
    for i := 0 to |sorted|
      invariant if i == 0 then groups == [] && current == [] && priority == sorted[0].priority
                else SplitTo(sorted, i, groups, current, priority)
    {
      if i > 0 {
        SplitNext(sorted, i, groups, current, priority);
      }
      if sorted[i].priority != priority {
        groups, current, priority := groups + [current], [], sorted[i].priority;
      }
      current := current + [sorted[i]];
    }
    assert sorted[..|sorted|] == sorted;
    CloseGroup(groups, current, priority);
    ConcatLast(groups, current);
    groups := groups + [current];
  }

  /** Non-empty groups of one priority each, priorities strictly descending, no catalog lost. */
  method GroupByPriority<V(!new)>(catalogs: seq<Catalog<V>>) returns (groups: seq<seq<Catalog<V>>>)
    ensures multiset(Concat(groups)) == multiset(catalogs)
    ensures Descending(groups)
  {
    if |catalogs| == 0 {
      return [];
    }
    ByPriorityComparator<V>();
    var sorted := SortFunc(catalogs, ByPriority);
    assert |multiset(sorted)| == |multiset(catalogs)|;
    forall k | 0 < k < |sorted| ensures sorted[k].priority <= sorted[k - 1].priority {
      assert ByPriority(sorted[k - 1], sorted[k]) <= 0;
    }
    groups := SplitSorted(sorted);
  }

  // ---------------------------------------------------------------- package selection

  /** The names of the catalogs at priority p that have the package, each as often as it occurs. */
  function NamesAt<V>(catalogs: seq<Catalog<V>>, pkg: string, p: int): multiset<string> {
    if catalogs == [] then multiset{}
    else
      var c := catalogs[|catalogs| - 1];
      NamesAt(catalogs[..|catalogs| - 1], pkg, p) + NameAt(c, pkg, p)
  }

  function NameAt<V>(c: Catalog<V>, pkg: string, p: int): multiset<string> {
    if c.priority == p && pkg in c.packages then multiset{c.name} else multiset{}
  }

  /** p is the highest priority that has the package. */
  ghost predicate Highest<V>(catalogs: seq<Catalog<V>>, pkg: string, p: int) {
    && (exists c <- catalogs :: c.priority == p && pkg in c.packages)
    && (forall c <- catalogs :: pkg in c.packages ==> c.priority <= p)
  }

  /** What selectPackage promises. */
  ghost predicate Selects<V>(catalogs: seq<Catalog<V>>, pkg: string, s: Selection<V>) {
    match s
    case Chosen(c, g) =>
      && c in catalogs && pkg in c.packages && g == c.packages[pkg]
      && Highest(catalogs, pkg, c.priority)
      && NamesAt(catalogs, pkg, c.priority) == multiset{c.name}
    case Ambiguous(p, names) =>
      && Highest(catalogs, pkg, p)
      && |names| > 1 && multiset(names) == NamesAt(catalogs, pkg, p)
      && SortedBy(names, CompareStrings)
    case NotFound => Lacks(catalogs, pkg)
  }

  lemma NamesAtLast<V>(a: seq<Catalog<V>>, c: Catalog<V>, pkg: string, p: int)
    ensures NamesAt(a + [c], pkg, p) == NamesAt(a, pkg, p) + NameAt(c, pkg, p)
  {
    assert (a + [c])[..|a|] == a;
  }

  lemma {:induction false} NamesAtAppend<V>(a: seq<Catalog<V>>, b: seq<Catalog<V>>, pkg: string, p: int)
    ensures NamesAt(a + b, pkg, p) == NamesAt(a, pkg, p) + NamesAt(b, pkg, p)
  {
    if b == [] {
      assert a + b == a;
    } else {
      var init, last := b[..|b| - 1], b[|b| - 1];
      NamesAtAppend(a, init, pkg, p);
      SplitLast(b);
      ConcatAssociates(a, init, [last]);
      NamesAtLast(a + init, last, pkg, p);
      NamesAtLast(init, last, pkg, p);
      SumAssociates(NamesAt(a, pkg, p), NamesAt(init, pkg, p), NameAt(last, pkg, p));
    }
  }

  lemma NamesAtInsert<V>(init: seq<Catalog<V>>, x: Catalog<V>, rest: seq<Catalog<V>>, pkg: string, p: int)
    ensures NamesAt(init + [x] + rest, pkg, p) == NamesAt(init + rest, pkg, p) + NameAt(x, pkg, p)
  {
    NamesAtAppend(init + [x], rest, pkg, p);
    NamesAtAppend(init, rest, pkg, p);
    NamesAtLast(init, x, pkg, p);
    SumAssociates(NamesAt(init, pkg, p), NameAt(x, pkg, p), NamesAt(rest, pkg, p));
  }

  lemma {:induction false} NamesAtPermuted<V>(a: seq<Catalog<V>>, b: seq<Catalog<V>>, pkg: string, p: int)
    requires multiset(a) == multiset(b)
    ensures NamesAt(a, pkg, p) == NamesAt(b, pkg, p)
    decreases |a|
  {
    if a == [] {
      assert |multiset(b)| == 0;
    } else {
      var k := LastIn(a, b);
      NamesAtPermuted(a[..|a| - 1], b[..k] + b[k + 1..], pkg, p);
      NamesAtInsert(b[..k], b[k], b[k + 1..], pkg, p);
    }
  }

  /** Which selection is promised depends on the catalogs, not on their order. */
  lemma SelectsPermuted<V>(a: seq<Catalog<V>>, b: seq<Catalog<V>>, pkg: string, s: Selection<V>)
    requires multiset(a) == multiset(b) && Selects(a, pkg, s)
    ensures Selects(b, pkg, s)
  {
    forall c ensures c in a <==> c in b {
      assert c in multiset(a) <==> c in multiset(b);
    }
    match s
    case Chosen(c, _) => NamesAtPermuted(a, b, pkg, c.priority);
    case Ambiguous(p, _) => NamesAtPermuted(a, b, pkg, p);
    case NotFound =>
  }

  lemma {:induction false} InConcat<T>(groups: seq<seq<T>>, x: T)
    ensures x in Concat(groups) <==> exists k :: 0 <= k < |groups| && x in groups[k]
  {
    if groups != [] {
      var n := |groups| - 1;
      InConcat(groups[..n], x);
      if x in groups[n] {
      } else if k :| 0 <= k < |groups| && x in groups[k] {
        assert x in groups[..n][k];
      }
    }
  }

  lemma {:induction false} NamesAtNone<V>(s: seq<Catalog<V>>, pkg: string, p: int)
    requires forall c <- s :: c.priority == p ==> pkg !in c.packages
    ensures NamesAt(s, pkg, p) == multiset{}
  {
    if s != [] {
      assert s[|s| - 1] in s;
      NamesAtNone(s[..|s| - 1], pkg, p);
    }
  }

  /** Only the group of that priority has names at it. */
  lemma {:induction false} NamesAtGroup<V>(groups: seq<seq<Catalog<V>>>, i: nat, pkg: string)
    requires Descending(groups) && i < |groups|
    ensures NamesAt(Concat(groups), pkg, groups[i][0].priority) == NamesAt(groups[i], pkg, groups[i][0].priority)
  {
    var n, p := |groups| - 1, groups[i][0].priority;
    var init := groups[..n];
    NamesAtAppend(Concat(init), groups[n], pkg, p);
    if i == n {
      forall c: Catalog<V> | c in Concat(init) ensures c.priority != p {
        InConcat(init, c);
        var k :| 0 <= k < |init| && c in init[k];
        assert IsGroup(groups[k]) && groups[k][0].priority > p;
      }
      NamesAtNone(Concat(init), pkg, p);
    } else {
      NamesAtGroup(init, i, pkg);
      forall c: Catalog<V> | c in groups[n] ensures c.priority != p {
        assert IsGroup(groups[n]) && p > groups[n][0].priority;
      }
      NamesAtNone(groups[n], pkg, p);
    }
  }

  ghost predicate Lacks<V>(group: seq<Catalog<V>>, pkg: string) {
    forall c <- group :: pkg !in c.packages
  }

  lemma {:induction false} GroupOf<T>(groups: seq<seq<T>>, x: T) returns (k: nat)
    requires x in Concat(groups)
    ensures k < |groups| && x in groups[k]
  {
    var n := |groups| - 1;
    if x in groups[n] {
      k := n;
    } else {
      k := GroupOf(groups[..n], x);
    }
  }

  lemma GroupPriority<V>(group: seq<Catalog<V>>, d: Catalog<V>)
    requires IsGroup(group) && d in group
    ensures d.priority == group[0].priority
  {
  }

  lemma NotAbove<V>(groups: seq<seq<Catalog<V>>>, i: nat, pkg: string, k: nat, d: Catalog<V>)
    requires Descending(groups) && i < |groups| && forall k | 0 <= k < i :: Lacks(groups[k], pkg)
    requires k < |groups| && d in groups[k] && pkg in d.packages
    ensures d.priority <= groups[i][0].priority
  {
    assert !Lacks(groups[k], pkg);
    GroupPriority(groups[k], d);
  }

  lemma HighestGroup<V>(groups: seq<seq<Catalog<V>>>, i: nat, pkg: string, c: Catalog<V>)
    requires Descending(groups) && i < |groups| && forall k | 0 <= k < i :: Lacks(groups[k], pkg)
    requires c in groups[i] && pkg in c.packages
    ensures c in Concat(groups) && c.priority == groups[i][0].priority
    ensures Highest(Concat(groups), pkg, groups[i][0].priority)
  {
    assert IsGroup(groups[i]);
    InConcat(groups, c);
    forall d: Catalog<V> | d in Concat(groups) && pkg in d.packages ensures d.priority <= groups[i][0].priority {
      var k := GroupOf(groups, d);
      NotAbove(groups, i, pkg, k, d);
    }
  }

  /** The matches are catalogs seen that have the package, and there are some if any has it. */
  ghost predicate Matching<V>(seen: seq<Catalog<V>>, pkg: string, matches: seq<Catalog<V>>) {
    && (forall k | 0 <= k < |matches| :: matches[k] in seen && pkg in matches[k].packages)
    && (matches == [] ==> Lacks(seen, pkg))
  }

  /** What was found in the part of a group seen so far. */
  ghost predicate Found<V>(seen: seq<Catalog<V>>, pkg: string, p: int, matches: seq<Catalog<V>>, names: seq<string>) {
    && Matching(seen, pkg, matches)
    && |names| == |matches| && (forall k | 0 <= k < |names| :: names[k] == matches[k].name)
    && multiset(names) == NamesAt(seen, pkg, p)
  }

  lemma MatchingNext<V>(seen: seq<Catalog<V>>, pkg: string, matches: seq<Catalog<V>>, c: Catalog<V>)
    requires Matching(seen, pkg, matches)
    ensures pkg in c.packages ==> Matching(seen + [c], pkg, matches + [c])
    ensures pkg !in c.packages ==> Matching(seen + [c], pkg, matches)
  {
    assert c in seen + [c];
  }

  lemma FoundNext<V>(seen: seq<Catalog<V>>, pkg: string, p: int, matches: seq<Catalog<V>>, names: seq<string>,
                     c: Catalog<V>)
    requires Found(seen, pkg, p, matches, names) && c.priority == p
    ensures pkg in c.packages ==> Found(seen + [c], pkg, p, matches + [c], names + [c.name])
    ensures pkg !in c.packages ==> Found(seen + [c], pkg, p, matches, names)
  {
    MatchingNext(seen, pkg, matches, c);
    NamesAtLast(seen, c, pkg, p);
  }

  /** The catalogs of one group that have the package. */
  method MatchesIn<V>(group: seq<Catalog<V>>, pkg: string) returns (matches: seq<Catalog<V>>, names: seq<string>)
    requires IsGroup(group)
    ensures Found(group, pkg, group[0].priority, matches, names)
  {
    matches, names := [], [];
    for i := 0 to |group|
      invariant Found(group[..i], pkg, group[0].priority, matches, names)
    {
      assert group[..i + 1] == group[..i] + [group[i]];
      FoundNext(group[..i], pkg, group[0].priority, matches, names, group[i]);
      if pkg in group[i].packages {
        matches, names := matches + [group[i]], names + [group[i].name];
      }
    }
    assert group[..|group|] == group;
  }

  /** A group with matches decides the selection. */
  method Decide<V(!new)>(ghost groups: seq<seq<Catalog<V>>>, ghost i: nat, pkg: string, priority: int,
                         matches: seq<Catalog<V>>, names: seq<string>) returns (s: Selection<V>)
    requires Descending(groups) && i < |groups| && (forall k | 0 <= k < i :: Lacks(groups[k], pkg)) &&
             priority == groups[i][0].priority
    requires Found(groups[i], pkg, priority, matches, names) && matches != []
    ensures Selects(Concat(groups), pkg, s)
  {
    HighestGroup(groups, i, pkg, matches[0]);
    NamesAtGroup(groups, i, pkg);
    if |matches| == 1 {
      assert names == [matches[0].name];
      s := Chosen(matches[0], matches[0].packages[pkg]);
    } else {
      StringsComparator();
      var sorted := SortFunc(names, CompareStrings);
      assert |multiset(sorted)| == |multiset(names)|;
      s := Ambiguous(priority, sorted);
    }
  }

  method SelectPackage<V(!new)>(catalogs: seq<Catalog<V>>, pkg: string) returns (s: Selection<V>)
    ensures Selects(catalogs, pkg, s)
  {
    var groups := GroupByPriority(catalogs);
    for i := 0 to |groups|
      invariant forall k | 0 <= k < i :: Lacks(groups[k], pkg)
    {
      assert IsGroup(groups[i]);
      var matches, names := MatchesIn(groups[i], pkg);
      if |matches| > 0 {
        s := Decide(groups, i, pkg, groups[i][0].priority, matches, names);
        SelectsPermuted(Concat(groups), catalogs, pkg, s);
        return;
      }
    }
    s := NotFound;
    NoneHas(groups, pkg);
    SelectsPermuted(Concat(groups), catalogs, pkg, s);
  }

  lemma NoneHas<V>(groups: seq<seq<Catalog<V>>>, pkg: string)
    requires forall k | 0 <= k < |groups| :: Lacks(groups[k], pkg)
    ensures Lacks(Concat(groups), pkg)
  {
    forall c: Catalog<V> | c in Concat(groups) ensures pkg !in c.packages {
      InConcat(groups, c);
    }
  }
}
