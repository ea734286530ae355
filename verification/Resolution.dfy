/** Resolve: from a selected package to the sorted list of bundles. */
module Resolution {
  import opened Wrappers
  import opened Ordering
  import opened Releases
  import opened Resolver
  import opened Seqs

  // ---------------------------------------------------------------- graphs

  /** The graph a path leads to, if every name on it is a child. */
  function Walk<V>(root: Graph<V>, path: seq<string>): Option<Graph<V>>
    decreases |path|
  {
    if path == [] then Some(root)
    else if root.children.None? || path[0] !in root.children.value then None
    else Walk(root.children.value[path[0]], path[1..])
  }

  method WalkPath<V>(root: Graph<V>, path: seq<string>) returns (g: Option<Graph<V>>)
    ensures g == Walk(root, path)
  {
    var current := root;
    for i := 0 to |path|
      invariant Walk(root, path) == Walk(current, path[i..])
    {
      if current.children.None? || path[i] !in current.children.value {
        return None;
      }
      current := current.children.value[path[i]];
    }
    g := Some(current);
  }

  /** The graphs to look in: the package itself, or those the paths lead to, in their order. */
  function Reached<V>(pkg: Graph<V>, paths: seq<seq<string>>): seq<Graph<V>> {
    if paths == [] then []
    else
      var g := Walk(pkg, paths[|paths| - 1]);
      Reached(pkg, paths[..|paths| - 1]) + if g.Some? then [g.value] else []
  }

  function SelectedGraphs<V>(pkg: Graph<V>, paths: seq<seq<string>>): seq<Graph<V>> {
    if paths == [] then [pkg] else Reached(pkg, paths)
  }

  method SelectGraphs<V>(pkg: Graph<V>, paths: seq<seq<string>>) returns (graphs: seq<Graph<V>>)
    ensures graphs == SelectedGraphs(pkg, paths)
  {
    if |paths| == 0 {
      return [pkg];
    }
    graphs := [];
    for i := 0 to |paths|
      invariant graphs == Reached(pkg, paths[..i])
    {
      var g := WalkPath(pkg, paths[i]);
      assert paths[..i + 1][..i] == paths[..i];
      if g.Some? {
        graphs := graphs + [g.value];
      }
    }
    assert paths[..|paths|] == paths;
  }

  // ---------------------------------------------------------------- the union

  function AnswersOf<V>(g: Graph<V>, from: Option<Identity<V>>): seq<Answer<V>> {
    match from
    case Some(id) => g.successors(id)
    case None => g.listing
  }

  function AllAnswers<V>(graphs: seq<Graph<V>>, from: Option<Identity<V>>): seq<Answer<V>> {
    if graphs == [] then []
    else AllAnswers(graphs[..|graphs| - 1], from) + AnswersOf(graphs[|graphs| - 1], from)
  }

  lemma OneGraph<V>(g: Graph<V>, from: Option<Identity<V>>)
    ensures AllAnswers([g], from) == AnswersOf(g, from)
  {
    assert [g][..0] == [] && AllAnswers([g], from) == [] + AnswersOf(g, from);
  }

  /** The first answer with b's id is b. */
  ghost predicate First<V>(answers: seq<Answer<V>>, b: Bundle<V>) {
    exists i: nat :: FirstAt(answers, b, i)
  }

  ghost predicate FirstAt<V>(answers: seq<Answer<V>>, b: Bundle<V>, i: nat) {
    && i < |answers| && answers[i] == Got(b)
    && forall j | 0 <= j < i :: answers[j].Got? ==> answers[j].bundle.identity.id != b.identity.id
  }

  ghost predicate HasId<V(!new)>(answers: seq<Answer<V>>, id: string) {
    exists b :: Got(b) in answers && b.identity.id == id
  }

  ghost predicate OncePerId<V>(bundles: seq<Bundle<V>>) {
    forall i, j | 0 <= i < j < |bundles| :: bundles[i].identity.id != bundles[j].identity.id
  }

  /** What is collected once these answers have been seen. */
  ghost predicate Collected<V(!new)>(answers: seq<Answer<V>>, seen: set<string>, bundles: seq<Bundle<V>>) {
    && Failed !in answers
    && (forall id :: id in seen <==> HasId(answers, id))
    && (forall b :: b in bundles <==> First(answers, b))
    && OncePerId(bundles)
  }

  lemma FirstAtPrefix<V>(answers: seq<Answer<V>>, a: Answer<V>, b: Bundle<V>, i: nat)
    requires i < |answers|
    ensures FirstAt(answers + [a], b, i) <==> FirstAt(answers, b, i)
  {
    assert forall j | 0 <= j <= i :: (answers + [a])[j] == answers[j];
  }

  lemma FirstAtEnd<V(!new)>(answers: seq<Answer<V>>, a: Bundle<V>, b: Bundle<V>)
    ensures FirstAt(answers + [Got(a)], b, |answers|) <==> b == a && !HasId(answers, a.identity.id)
  {
    assert forall j | 0 <= j < |answers| :: answers[j].Got? ==> Got(answers[j].bundle) in answers;
    assert forall j | 0 <= j < |answers| :: (answers + [Got(a)])[j] == answers[j];
  }

  lemma FirstNext<V(!new)>(answers: seq<Answer<V>>, a: Bundle<V>, b: Bundle<V>)
    ensures First(answers + [Got(a)], b) <==> First(answers, b) || (b == a && !HasId(answers, a.identity.id))
  {
    forall i: nat | i < |answers| ensures FirstAt(answers + [Got(a)], b, i) <==> FirstAt(answers, b, i) {
      FirstAtPrefix(answers, Got(a), b, i);
    }
    FirstAtEnd(answers, a, b);
    assert forall i: nat :: FirstAt(answers + [Got(a)], b, i) ==> i < |answers| || i == |answers|;
  }

  lemma HasIdNext<V(!new)>(answers: seq<Answer<V>>, a: Bundle<V>, id: string)
    ensures HasId(answers + [Got(a)], id) <==> HasId(answers, id) || id == a.identity.id
  {
    if id == a.identity.id {
      assert Got(a) in answers + [Got(a)];
    } else if HasId(answers, id) {
      var b :| Got(b) in answers && b.identity.id == id;
      assert Got(b) in answers + [Got(a)];
    }
  }

  /** Main step of the union: an id that was seen is skipped, a new one is kept. */
  lemma CollectNext<V(!new)>(answers: seq<Answer<V>>, seen: set<string>, bundles: seq<Bundle<V>>, a: Bundle<V>)
    requires Collected(answers, seen, bundles)
    ensures a.identity.id in seen ==> Collected(answers + [Got(a)], seen, bundles)
    ensures a.identity.id !in seen ==> Collected(answers + [Got(a)], seen + {a.identity.id}, bundles + [a])
  {
    forall id ensures HasId(answers + [Got(a)], id) <==> HasId(answers, id) || id == a.identity.id {
      HasIdNext(answers, a, id);
    }
    forall b ensures First(answers + [Got(a)], b) <==> First(answers, b) || (b == a && !HasId(answers, a.identity.id)) {
      FirstNext(answers, a, b);
    }
    if a.identity.id !in seen {
      forall i | 0 <= i < |bundles| ensures bundles[i].identity.id != a.identity.id {
        assert bundles[i] in bundles;
        var k: nat :| FirstAt(answers, bundles[i], k);
        assert answers[k] in answers;
      }
    }
  }

  /** The loop over one graph's stream. */
  method CollectStream<V(!new)>(ghost before: seq<Answer<V>>, answers: seq<Answer<V>>, seen: set<string>,
                         bundles: seq<Bundle<V>>)
    returns (ok: bool, seen': set<string>, bundles': seq<Bundle<V>>)
    requires Collected(before, seen, bundles)
    ensures ok <==> Failed !in answers
    ensures ok ==> Collected(before + answers, seen', bundles')
  {
    seen', bundles' := seen, bundles;
    assert before + answers[..0] == before;
    for j := 0 to |answers|
      invariant Failed !in answers[..j] && Collected(before + answers[..j], seen', bundles')
    {
      if answers[j].Failed? {
        return false, seen', bundles';
      }
      var b := answers[j].bundle;
      CollectNext(before + answers[..j], seen', bundles', b);
      assert answers[..j + 1] == answers[..j] + [Got(b)];
      assert before + answers[..j + 1] == before + answers[..j] + [Got(b)];
      if b.identity.id !in seen' {
        seen', bundles' := seen' + {b.identity.id}, bundles' + [b];
      }
    }
    assert answers[..|answers|] == answers;
    ok := true;
  }

  method CollectBundles<V(!new)>(graphs: seq<Graph<V>>, from: Option<Identity<V>>) returns (r: Option<seq<Bundle<V>>>)
    ensures r.None? <==> Failed in AllAnswers(graphs, from)
    ensures r.Some? ==> exists seen :: Collected(AllAnswers(graphs, from), seen, r.value)
  {
    var seen: set<string> := {};
    var bundles: seq<Bundle<V>> := [];
    for i := 0 to |graphs|
      invariant Collected(AllAnswers(graphs[..i], from), seen, bundles)
    {
      AnswersPrefix(graphs, i, from);
      var ok;
      ok, seen, bundles := CollectStream(AllAnswers(graphs[..i], from), AnswersOf(graphs[i], from), seen, bundles);
      if !ok {
        return None;
      }
    }
    assert graphs[..|graphs|] == graphs;
    r := Some(bundles);
  }

  lemma {:induction false} AnswersPrefix<V>(graphs: seq<Graph<V>>, i: nat, from: Option<Identity<V>>)
    requires i < |graphs|
    ensures AllAnswers(graphs[..i + 1], from) == AllAnswers(graphs[..i], from) + AnswersOf(graphs[i], from)
    ensures forall a :: a in AllAnswers(graphs[..i + 1], from) ==> a in AllAnswers(graphs, from)
    decreases |graphs| - i
  {
    assert graphs[..i + 1][..i] == graphs[..i];
    if i + 1 == |graphs| {
      assert graphs[..i + 1] == graphs;
    } else {
      AnswersPrefix(graphs, i + 1, from);
    }
  }

  // ---------------------------------------------------------------- filter and order

  predicate Satisfies<V>(constraint: Option<V -> bool>, b: Bundle<V>) {
    constraint.Some? ==> constraint.value(b.identity.nvr.vr.version)
  }

  method FilterByConstraint<V(!new)>(bundles: seq<Bundle<V>>, constraint: Option<V -> bool>) returns (r: seq<Bundle<V>>)
    requires OncePerId(bundles)
    ensures forall b :: b in r <==> b in bundles && Satisfies(constraint, b)
    ensures OncePerId(r)
  {
    if constraint.None? {
      return bundles;
    }
    r := [];
    for i := 0 to |bundles|
      invariant forall b :: b in r <==> b in bundles[..i] && Satisfies(constraint, b)
      invariant OncePerId(r)
    {
      assert bundles[..i + 1] == bundles[..i] + [bundles[i]];
      if constraint.value(bundles[i].identity.nvr.vr.version) {
        forall j | 0 <= j < |r| ensures r[j].identity.id != bundles[i].identity.id {
          assert r[j] in bundles[..i];
        }
        r := r + [bundles[i]];
      }
    }
    assert bundles[..|bundles|] == bundles;
  }

  function CmpVersionDesc<V>(versions: (V, V) -> int, a: Bundle<V>, b: Bundle<V>): int {
    CompareNames(versions, b.identity.nvr, a.identity.nvr)
  }

  function CmpDeprecation<V>(a: Bundle<V>, b: Bundle<V>): int {
    if a.deprecated == b.deprecated then 0 else if a.deprecated then 1 else -1
  }

  function BundleOrder<V>(versions: (V, V) -> int, preferNonDeprecated: bool): (Bundle<V>, Bundle<V>) -> int {
    (a, b) =>
      if preferNonDeprecated && CmpDeprecation(a, b) != 0 then CmpDeprecation(a, b) else CmpVersionDesc(versions, a, b)
  }

  lemma VersionDescComparator<V(!new)>(versions: (V, V) -> int)
    requires Comparator(versions)
    ensures Comparator((a: Bundle<V>, b: Bundle<V>) => CmpVersionDesc(versions, a, b))
  {
    var names := (a: NameVersionRelease<V>, b: NameVersionRelease<V>) => CompareNames(versions, a, b);
    var nvr := (b: Bundle<V>) => b.identity.nvr;
    var ascending := (a: Bundle<V>, b: Bundle<V>) => names(nvr(a), nvr(b));
    NamesComparator(versions);
    SameComparator((a: NameVersionRelease<V>, b: NameVersionRelease<V>) => CompareNames(versions, a, b), names);
    OnComparator(names, nvr);
    SameComparator((a: Bundle<V>, b: Bundle<V>) => names(nvr(a), nvr(b)), ascending);
    ReverseComparator(ascending);
    SameComparator((a: Bundle<V>, b: Bundle<V>) => ascending(b, a),
      (a: Bundle<V>, b: Bundle<V>) => CmpVersionDesc(versions, a, b));
  }

  lemma DeprecationComparator<V(!new)>()
    ensures Comparator<Bundle<V>>(CmpDeprecation)
  {
  }

  /** Both sort orders obey the laws sorting needs. */
  lemma BundleOrderComparator<V(!new)>(versions: (V, V) -> int, preferNonDeprecated: bool)
    requires Comparator(versions)
    ensures Comparator(BundleOrder(versions, preferNonDeprecated))
  {
    var desc := (a: Bundle<V>, b: Bundle<V>) => CmpVersionDesc(versions, a, b);
    VersionDescComparator(versions);
    SameComparator((a: Bundle<V>, b: Bundle<V>) => CmpVersionDesc(versions, a, b), desc);
    if preferNonDeprecated {
      DeprecationComparator<V>();
      ThenComparator(CmpDeprecation, desc);
      SameComparator(Then(CmpDeprecation, desc), BundleOrder(versions, true));
    } else {
      SameComparator(desc, BundleOrder(versions, false));
    }
  }

  /** The order asked for puts every non-deprecated bundle before every deprecated one. */
  lemma NonDeprecatedFirst<V(!new)>(versions: (V, V) -> int, bundles: seq<Bundle<V>>, i: nat, j: nat)
    requires SortedBy(bundles, BundleOrder(versions, true)) && i < j < |bundles|
    ensures bundles[i].deprecated ==> bundles[j].deprecated
  {
    assert BundleOrder(versions, true)(bundles[i], bundles[j]) <= 0;
  }

  /** Names come first in the order: bundles are sorted by version and release, descending, as far
      as they carry the same package name. */
  lemma SameNameDescends<V(!new)>(versions: (V, V) -> int, bundles: seq<Bundle<V>>, prefer: bool, i: nat, j: nat)
    requires Comparator(versions) && SortedBy(bundles, BundleOrder(versions, prefer)) && i < j < |bundles|
    requires bundles[i].identity.nvr.name == bundles[j].identity.nvr.name
    requires prefer ==> bundles[i].deprecated == bundles[j].deprecated
    ensures CompareVersionReleases(versions, bundles[i].identity.nvr.vr, bundles[j].identity.nvr.vr) >= 0
  {
    var a, b := bundles[i].identity.nvr, bundles[j].identity.nvr;
    assert BundleOrder(versions, prefer)(bundles[i], bundles[j]) <= 0;
    CompareStringsZero(b.name, a.name);
    VersionReleasesComparator(versions);
    var vrs := (x: VersionRelease<V>, y: VersionRelease<V>) => CompareVersionReleases(versions, x, y);
    SameComparator((x: VersionRelease<V>, y: VersionRelease<V>) => CompareVersionReleases(versions, x, y), vrs);
    assert Sign(vrs(a.vr, b.vr)) == -Sign(vrs(b.vr, a.vr));
  }

  /** The order asked for compares a and b by name and version. */
  predicate SameClass<V>(prefer: bool, a: Bundle<V>, b: Bundle<V>) {
    prefer ==> a.deprecated == b.deprecated
  }

  predicate NoOlder<V>(versions: (V, V) -> int, a: Bundle<V>, b: Bundle<V>) {
    CompareVersionReleases(versions, a.identity.nvr.vr, b.identity.nvr.vr) >= 0
  }

  /** The documented order: descending by version and release, within each deprecation class if
      non-deprecated bundles are preferred. */
  predicate Descends<V>(versions: (V, V) -> int, prefer: bool, bundles: seq<Bundle<V>>) {
    forall i, j | 0 <= i < j < |bundles| && SameClass(prefer, bundles[i], bundles[j]) ::
      NoOlder(versions, bundles[i], bundles[j])
  }

  /** A greater package name never goes with a lower version. */
  predicate InNameOrder<V>(versions: (V, V) -> int, prefer: bool, a: Bundle<V>, b: Bundle<V>) {
    SameClass(prefer, a, b) && CompareStrings(a.identity.nvr.name, b.identity.nvr.name) > 0 ==> NoOlder(versions, a, b)
  }

  /** The earlier of two bundles has the greater name, or the same. */
  lemma EarlierName<V(!new)>(versions: (V, V) -> int, prefer: bool, bundles: seq<Bundle<V>>, i: nat, j: nat)
    requires SortedBy(bundles, BundleOrder(versions, prefer)) && i < j < |bundles|
    requires SameClass(prefer, bundles[i], bundles[j])
    ensures var a, b := bundles[i].identity.nvr.name, bundles[j].identity.nvr.name;
            a == b || CompareStrings(a, b) > 0
  {
    var a, b := bundles[i].identity.nvr.name, bundles[j].identity.nvr.name;
    assert BundleOrder(versions, prefer)(bundles[i], bundles[j]) <= 0;
    CompareStringsFlips(a, b);
    CompareStringsZero(b, a);
  }

  lemma DescendsOrders<V(!new)>(versions: (V, V) -> int, prefer: bool, bundles: seq<Bundle<V>>, i: nat, j: nat)
    requires SortedBy(bundles, BundleOrder(versions, prefer)) && Descends(versions, prefer, bundles)
    requires i < |bundles| && j < |bundles|
    ensures InNameOrder(versions, prefer, bundles[i], bundles[j])
  {
    var a, b := bundles[i], bundles[j];
    CompareStringsZero(a.identity.nvr.name, b.identity.nvr.name);
    CompareStringsFlips(a.identity.nvr.name, b.identity.nvr.name);
    if j < i && SameClass(prefer, b, a) {
      EarlierName(versions, prefer, bundles, j, i);
    }
  }

  lemma OrderDescends<V(!new)>(versions: (V, V) -> int, prefer: bool, bundles: seq<Bundle<V>>, i: nat, j: nat)
    requires Comparator(versions) && SortedBy(bundles, BundleOrder(versions, prefer)) && i < j < |bundles|
    requires InNameOrder(versions, prefer, bundles[i], bundles[j]) && SameClass(prefer, bundles[i], bundles[j])
    ensures NoOlder(versions, bundles[i], bundles[j])
  {
    EarlierName(versions, prefer, bundles, i, j);
    if bundles[i].identity.nvr.name == bundles[j].identity.nvr.name {
      SameNameDescends(versions, bundles, prefer, i, j);
    }
  }

  lemma DescendingInOrder<V(!new)>(versions: (V, V) -> int, prefer: bool, bundles: seq<Bundle<V>>, a: Bundle<V>,
                                   b: Bundle<V>)
    requires SortedBy(bundles, BundleOrder(versions, prefer)) && Descends(versions, prefer, bundles)
    requires a in bundles && b in bundles
    ensures InNameOrder(versions, prefer, a, b)
  {
    var i: nat, j: nat :| i < |bundles| && j < |bundles| && bundles[i] == a && bundles[j] == b;
    DescendsOrders(versions, prefer, bundles, i, j);
  }

  lemma InOrderDescends<V(!new)>(versions: (V, V) -> int, prefer: bool, bundles: seq<Bundle<V>>)
    requires Comparator(versions) && SortedBy(bundles, BundleOrder(versions, prefer))
    requires forall a, b | a in bundles && b in bundles :: InNameOrder(versions, prefer, a, b)
    ensures Descends(versions, prefer, bundles)
  {
    forall i, j | 0 <= i < j < |bundles| && SameClass(prefer, bundles[i], bundles[j])
      ensures NoOlder(versions, bundles[i], bundles[j])
    {
      OrderDescends(versions, prefer, bundles, i, j);
    }
  }

  /** Main result: a sorted list is in the documented order exactly when, among bundles the order
      compares by name, a greater name never goes with a lower version. */
  lemma DescendsExactly<V(!new)>(versions: (V, V) -> int, prefer: bool, bundles: seq<Bundle<V>>)
    requires Comparator(versions) && SortedBy(bundles, BundleOrder(versions, prefer))
    ensures Descends(versions, prefer, bundles) <==>
            forall a, b | a in bundles && b in bundles :: InNameOrder(versions, prefer, a, b)
  {
    if Descends(versions, prefer, bundles) {
      forall a, b | a in bundles && b in bundles ensures InNameOrder(versions, prefer, a, b) {
        DescendingInOrder(versions, prefer, bundles, a, b);
      }
    }
    if forall a, b | a in bundles && b in bundles :: InNameOrder(versions, prefer, a, b) {
      InOrderDescends(versions, prefer, bundles);
    }
  }

  // ---------------------------------------------------------------- Resolve

  datatype Resolved<!V> =
    | Bundles(catalog: Catalog<V>, pkg: Graph<V>, bundles: seq<Bundle<V>>)
    | AmbiguousPackage(priority: int, names: seq<string>)
    | NoPackage
    | StreamError

  function Searched<V>(pkg: Graph<V>, cfg: Config<V>): seq<Answer<V>> {
    AllAnswers(SelectedGraphs(pkg, cfg.paths), cfg.from)
  }

  /** b is the first answer with its id, and it satisfies the constraint. */
  ghost predicate Candidate<V>(pkg: Graph<V>, cfg: Config<V>, b: Bundle<V>) {
    First(Searched(pkg, cfg), b) && Satisfies(cfg.constraint, b)
  }

  /** The promised bundles: each id once, exactly those of the union that satisfy the constraint, in
      the order asked for. */
  ghost predicate Resolves<V(!new)>(versions: (V, V) -> int, pkg: Graph<V>, cfg: Config<V>, bundles: seq<Bundle<V>>) {
    && Failed !in Searched(pkg, cfg)
    && (forall b :: b in bundles <==> Candidate(pkg, cfg, b))
    && OncePerId(bundles)
    && SortedBy(bundles, BundleOrder(versions, cfg.preferNonDeprecated))
  }

  lemma OncePermuted<V>(a: seq<Bundle<V>>, b: seq<Bundle<V>>)
    requires OncePerId(a) && multiset(a) == multiset(b)
    ensures OncePerId(b)
  {
    forall i, j | 0 <= i < j < |b| ensures b[i].identity.id != b[j].identity.id {
      if b[i].identity.id == b[j].identity.id {
        Occurrences(b, i, j);
        assert b[i] in multiset(a) && b[j] in multiset(a);
        var k, l :| 0 <= k < |a| && 0 <= l < |a| && a[k] == b[i] && a[l] == b[j];
        assert k == l;
        AtMostOnce(a, k);
      }
    }
  }

  lemma Occurrences<T>(s: seq<T>, i: nat, j: nat)
    requires i < j < |s|
    ensures s[i] == s[j] ==> multiset(s)[s[i]] >= 2
  {
    assert s == s[..j] + s[j..];
    assert s[i] in s[..j] && s[j] in s[j..];
  }

  lemma AtMostOnce<V>(a: seq<Bundle<V>>, k: nat)
    requires OncePerId(a) && k < |a|
    ensures multiset(a)[a[k]] == 1
  {
    assert a == a[..k] + [a[k]] + a[k + 1..];
    assert a[k] !in a[..k] && a[k] !in a[k + 1..];
  }

  method SortBundles<V(!new)>(versions: (V, V) -> int, bundles: seq<Bundle<V>>, prefer: bool)
    returns (r: seq<Bundle<V>>)
    requires Comparator(versions) && OncePerId(bundles)
    ensures OncePerId(r) && forall b :: b in r <==> b in bundles
    ensures SortedBy(r, BundleOrder(versions, prefer))
  {
    BundleOrderComparator(versions, prefer);
    r := SortFunc(bundles, BundleOrder(versions, prefer));
    OncePermuted(bundles, r);
    forall b ensures b in r <==> b in bundles {
      assert b in multiset(r) <==> b in multiset(bundles);
    }
  }

  method Resolve<V(!new)>(versions: (V, V) -> int, catalogs: seq<Catalog<V>>, name: string, cfg: Config<V>)
    returns (r: Resolved<V>)
    requires Comparator(versions)
    ensures r.NoPackage? ==> Selects(catalogs, name, NotFound)
    ensures r.AmbiguousPackage? ==> Selects(catalogs, name, Ambiguous(r.priority, r.names))
    ensures r.Bundles? ==>
            Selects(catalogs, name, Chosen(r.catalog, r.pkg)) && Resolves(versions, r.pkg, cfg, r.bundles)
    ensures r.StreamError? ==> exists c, g :: Selects(catalogs, name, Chosen(c, g)) && Failed in Searched(g, cfg)
  {
    var selection := SelectPackage(catalogs, name);
    match selection
    case NotFound => r := NoPackage;
    case Ambiguous(priority, names) => r := AmbiguousPackage(priority, names);
    case Chosen(catalog, pkg) =>
      var graphs := SelectGraphs(pkg, cfg.paths);
      if |graphs| == 0 {
        return Bundles(catalog, pkg, []);
      }
      var union := CollectBundles(graphs, cfg.from);
      if union.None? {
        return StreamError;
      }
      var kept := FilterByConstraint(union.value, cfg.constraint);
      var sorted := SortBundles(versions, kept, cfg.preferNonDeprecated);
      r := Bundles(catalog, pkg, sorted);
  }

  // ---------------------------------------------------------------- the order of the paths

  lemma {:induction false} ReachedBy<V(!new)>(pkg: Graph<V>, paths: seq<seq<string>>, g: Graph<V>)
    ensures g in Reached(pkg, paths) <==> exists path :: path in paths && Walk(pkg, path) == Some(g)
  {
    if paths != [] {
      var init, last := paths[..|paths| - 1], paths[|paths| - 1];
      ReachedBy(pkg, init, g);
      assert g in Reached(pkg, paths) <==> g in Reached(pkg, init) || Walk(pkg, last) == Some(g);
      assert paths == init + [last];
      if path :| path in init && Walk(pkg, path) == Some(g) {
        assert path in paths;
      }
      if Walk(pkg, last) == Some(g) {
        assert last in paths;
      }
    }
  }

  lemma {:induction false} InAnswers<V(!new)>(graphs: seq<Graph<V>>, from: Option<Identity<V>>, a: Answer<V>)
    ensures a in AllAnswers(graphs, from) <==> exists g :: g in graphs && a in AnswersOf(g, from)
  {
    if graphs != [] {
      var n := |graphs| - 1;
      InAnswers(graphs[..n], from, a);
      assert graphs == graphs[..n] + [graphs[n]];
    }
  }

  lemma SameAnswers<V(!new)>(pkg: Graph<V>, paths: seq<seq<string>>, others: seq<seq<string>>,
                      from: Option<Identity<V>>, a: Answer<V>)
    requires forall path :: path in paths <==> path in others
    ensures a in AllAnswers(SelectedGraphs(pkg, paths), from) <==> a in AllAnswers(SelectedGraphs(pkg, others), from)
  {
    assert paths == [] <==> others == [] by {
      assert paths != [] ==> paths[0] in others;
      assert others != [] ==> others[0] in paths;
    }
    if paths != [] {
      forall g ensures g in Reached(pkg, paths) <==> g in Reached(pkg, others) {
        ReachedBy(pkg, paths, g);
        ReachedBy(pkg, others, g);
      }
      InAnswers(Reached(pkg, paths), from, a);
      InAnswers(Reached(pkg, others), from, a);
    }
  }

  lemma {:induction false} FirstExists<V(!new)>(answers: seq<Answer<V>>, i: nat) returns (b: Bundle<V>)
    requires i < |answers| && answers[i].Got?
    ensures First(answers, b) && b.identity.id == answers[i].bundle.identity.id
    decreases i
  {
    if j :| 0 <= j < i && answers[j].Got? && answers[j].bundle.identity.id == answers[i].bundle.identity.id {
      b := FirstExists(answers, j);
    } else {
      b := answers[i].bundle;
      assert FirstAt(answers, b, i);
    }
  }

  ghost predicate Offered<V(!new)>(bundles: seq<Bundle<V>>, id: string) {
    exists b :: b in bundles && b.identity.id == id
  }

  /** The resolved ids are those of the candidates. */
  ghost predicate Finds<V(!new)>(pkg: Graph<V>, cfg: Config<V>, id: string) {
    exists b :: Candidate(pkg, cfg, b) && b.identity.id == id
  }

  lemma OfferedExactly<V(!new)>(versions: (V, V) -> int, pkg: Graph<V>, cfg: Config<V>, bundles: seq<Bundle<V>>,
                         id: string)
    requires Resolves(versions, pkg, cfg, bundles)
    ensures Offered(bundles, id) <==> Finds(pkg, cfg, id)
  {
    if b :| b in bundles && b.identity.id == id {
      assert Candidate(pkg, cfg, b);
    }
    if b :| Candidate(pkg, cfg, b) && b.identity.id == id {
      assert b in bundles;
    }
  }

  /** Main result: what Resolve returns is in the documented order exactly when no candidate with a
      greater package name has a lower version. */
  lemma ResolvedDescends<V(!new)>(versions: (V, V) -> int, pkg: Graph<V>, cfg: Config<V>, bundles: seq<Bundle<V>>)
    requires Comparator(versions) && Resolves(versions, pkg, cfg, bundles)
    ensures Descends(versions, cfg.preferNonDeprecated, bundles) <==>
            forall a, b | Candidate(pkg, cfg, a) && Candidate(pkg, cfg, b) ::
              InNameOrder(versions, cfg.preferNonDeprecated, a, b)
  {
    DescendsExactly(versions, cfg.preferNonDeprecated, bundles);
    assert forall b :: b in bundles <==> Candidate(pkg, cfg, b);
  }

  ghost predicate SamePaths(paths: seq<seq<string>>, others: seq<seq<string>>) {
    forall path :: path in paths <==> path in others
  }

  /** No order of the paths, and no repetition, changes which ids are found. */
  ghost predicate Independent<V(!new)>(pkg: Graph<V>, cfg: Config<V>) {
    forall others, id | SamePaths(cfg.paths, others) :: Finds(pkg, cfg, id) <==> Finds(pkg, cfg.(paths := others), id)
  }

  /** The first answers of g and h for one id agree on the constraint. */
  ghost predicate Agree<V(!new)>(g: Graph<V>, h: Graph<V>, cfg: Config<V>) {
    forall b, c | First(AnswersOf(g, cfg.from), b) && First(AnswersOf(h, cfg.from), c) &&
      b.identity.id == c.identity.id ::
      Satisfies(cfg.constraint, b) <==> Satisfies(cfg.constraint, c)
  }

  ghost predicate AgreeAcross<V(!new)>(pkg: Graph<V>, cfg: Config<V>) {
    forall g, h | g in SelectedGraphs(pkg, cfg.paths) && h in SelectedGraphs(pkg, cfg.paths) :: Agree(g, h, cfg)
  }

  lemma NotEarlier<V>(answers: seq<Answer<V>>, b: Bundle<V>, c: Bundle<V>, i: nat, j: nat)
    requires FirstAt(answers, b, i) && FirstAt(answers, c, j) && b.identity.id == c.identity.id
    ensures i <= j
  {
  }

  /** One id has one first answer. */
  lemma OneFirst<V>(answers: seq<Answer<V>>, b: Bundle<V>, c: Bundle<V>)
    requires First(answers, b) && First(answers, c) && b.identity.id == c.identity.id
    ensures b == c
  {
    var i: nat :| FirstAt(answers, b, i);
    var j: nat :| FirstAt(answers, c, j);
    NotEarlier(answers, b, c, i, j);
    NotEarlier(answers, c, b, j, i);
  }

  lemma FirstOfFront<V>(a: seq<Answer<V>>, b: seq<Answer<V>>, x: Bundle<V>)
    requires First(a, x)
    ensures First(a + b, x)
  {
    var i: nat :| FirstAt(a, x, i);
    assert forall j | 0 <= j <= i :: (a + b)[j] == a[j];
    assert FirstAt(a + b, x, i);
  }

  /** The first answer of a concatenation is the first answer of the part it comes from. */
  lemma FirstOfPart<V>(a: seq<Answer<V>>, b: seq<Answer<V>>, x: Bundle<V>)
    requires First(a + b, x)
    ensures First(a, x) || First(b, x)
  {
    var i: nat :| FirstAt(a + b, x, i);
    if i < |a| {
      assert forall j | 0 <= j <= i :: (a + b)[j] == a[j];
      assert FirstAt(a, x, i);
    } else {
      assert forall j | 0 <= j <= i - |a| :: (a + b)[|a| + j] == b[j];
      assert FirstAt(b, x, i - |a|);
    }
  }

  lemma {:induction false} FirstOfGraph<V(!new)>(graphs: seq<Graph<V>>, from: Option<Identity<V>>, x: Bundle<V>)
    returns (g: Graph<V>)
    requires First(AllAnswers(graphs, from), x)
    ensures g in graphs && First(AnswersOf(g, from), x)
  {
    if graphs == [] {
      assert false;
    }
    var n := |graphs| - 1;
    FirstOfPart(AllAnswers(graphs[..n], from), AnswersOf(graphs[n], from), x);
    if First(AnswersOf(graphs[n], from), x) {
      g := graphs[n];
    } else {
      g := FirstOfGraph(graphs[..n], from, x);
    }
  }

  lemma SameSelected<V(!new)>(pkg: Graph<V>, paths: seq<seq<string>>, others: seq<seq<string>>, g: Graph<V>)
    requires SamePaths(paths, others)
    ensures g in SelectedGraphs(pkg, paths) <==> g in SelectedGraphs(pkg, others)
  {
    assert paths == [] <==> others == [] by {
      assert paths != [] ==> paths[0] in others;
      assert others != [] ==> others[0] in paths;
    }
    if paths != [] {
      ReachedBy(pkg, paths, g);
      ReachedBy(pkg, others, g);
    }
  }

  /** Where the answers agree, what one order finds every other finds. */
  lemma AgreeFinds<V(!new)>(pkg: Graph<V>, cfg: Config<V>, paths: seq<seq<string>>, others: seq<seq<string>>,
                     id: string)
    requires AgreeAcross(pkg, cfg) && SamePaths(cfg.paths, paths) && SamePaths(cfg.paths, others)
    requires Finds(pkg, cfg.(paths := paths), id)
    ensures Finds(pkg, cfg.(paths := others), id)
  {
    var b :| Candidate(pkg, cfg.(paths := paths), b) && b.identity.id == id;
    var mine, theirs := Searched(pkg, cfg.(paths := paths)), Searched(pkg, cfg.(paths := others));
    var i: nat :| FirstAt(mine, b, i);
    assert Got(b) in mine;
    SameAnswers(pkg, paths, others, cfg.from, Got(b));
    var k: nat :| k < |theirs| && theirs[k] == Got(b);
    var c := FirstExists(theirs, k);
    var g := FirstOfGraph(SelectedGraphs(pkg, paths), cfg.from, b);
    var h := FirstOfGraph(SelectedGraphs(pkg, others), cfg.from, c);
    SameSelected(pkg, cfg.paths, paths, g);
    SameSelected(pkg, cfg.paths, others, h);
    assert Agree(g, h, cfg);
    assert Candidate(pkg, cfg.(paths := others), c);
  }

  lemma {:induction false} ReachedFront<V>(pkg: Graph<V>, p: seq<string>, paths: seq<seq<string>>)
    requires Walk(pkg, p).Some?
    ensures Reached(pkg, [p] + paths) == [Walk(pkg, p).value] + Reached(pkg, paths)
  {
    var all := [p] + paths;
    if paths == [] {
      assert all[..0] == [] && Reached(pkg, all[..0]) == [];
    } else {
      assert all[..|all| - 1] == [p] + paths[..|paths| - 1] && all[|all| - 1] == paths[|paths| - 1];
      ReachedFront(pkg, p, paths[..|paths| - 1]);
    }
  }

  lemma {:induction false} AnswersFront<V>(g: Graph<V>, graphs: seq<Graph<V>>, from: Option<Identity<V>>)
    ensures AllAnswers([g] + graphs, from) == AnswersOf(g, from) + AllAnswers(graphs, from)
  {
    var all := [g] + graphs;
    if graphs == [] {
      assert all[..0] == [] && AllAnswers(all[..0], from) == [];
    } else {
      var n := |graphs| - 1;
      assert all[..|all| - 1] == [g] + graphs[..n] && all[|all| - 1] == graphs[n];
      AnswersFront(g, graphs[..n], from);
      ConcatAssociates(AnswersOf(g, from), AllAnswers(graphs[..n], from), AnswersOf(graphs[n], from));
    }
  }

  /** Naming a path first makes its graph's first answers the ones that count. */
  lemma FrontDecides<V(!new)>(pkg: Graph<V>, cfg: Config<V>, p: seq<string>, b: Bundle<V>)
    requires Walk(pkg, p).Some? && First(AnswersOf(Walk(pkg, p).value, cfg.from), b)
    ensures Finds(pkg, cfg.(paths := [p] + cfg.paths), b.identity.id) <==> Satisfies(cfg.constraint, b)
  {
    var cfg' := cfg.(paths := [p] + cfg.paths);
    var g := Walk(pkg, p).value;
    ReachedFront(pkg, p, cfg.paths);
    AnswersFront(g, Reached(pkg, cfg.paths), cfg.from);
    FirstOfFront(AnswersOf(g, cfg.from), AllAnswers(Reached(pkg, cfg.paths), cfg.from), b);
    assert First(Searched(pkg, cfg'), b);
    if c :| Candidate(pkg, cfg', c) && c.identity.id == b.identity.id {
      OneFirst(Searched(pkg, cfg'), b, c);
    }
    if Satisfies(cfg.constraint, b) {
      assert Candidate(pkg, cfg', b);
    }
  }

  lemma FrontsAgree<V(!new)>(pkg: Graph<V>, cfg: Config<V>, p: seq<string>, q: seq<string>, id: string)
    requires Independent(pkg, cfg) && p in cfg.paths && q in cfg.paths
    ensures Finds(pkg, cfg.(paths := [p] + cfg.paths), id) <==> Finds(pkg, cfg.(paths := [q] + cfg.paths), id)
  {
    assert SamePaths(cfg.paths, [p] + cfg.paths) && SamePaths(cfg.paths, [q] + cfg.paths);
  }

  /** Where it does not matter which of two paths comes first, their first answers agree. */
  lemma FrontVerdicts<V(!new)>(pkg: Graph<V>, cfg: Config<V>, p: seq<string>, q: seq<string>, b: Bundle<V>,
                        c: Bundle<V>)
    requires Walk(pkg, p).Some? && First(AnswersOf(Walk(pkg, p).value, cfg.from), b)
    requires Walk(pkg, q).Some? && First(AnswersOf(Walk(pkg, q).value, cfg.from), c)
    requires b.identity.id == c.identity.id
    requires Finds(pkg, cfg.(paths := [p] + cfg.paths), b.identity.id) <==>
             Finds(pkg, cfg.(paths := [q] + cfg.paths), b.identity.id)
    ensures Satisfies(cfg.constraint, b) <==> Satisfies(cfg.constraint, c)
  {
    FrontDecides(pkg, cfg, p, b);
    FrontDecides(pkg, cfg, q, c);
  }

  lemma PathTo<V(!new)>(pkg: Graph<V>, paths: seq<seq<string>>, g: Graph<V>) returns (p: seq<string>)
    requires g in Reached(pkg, paths)
    ensures p in paths && Walk(pkg, p) == Some(g)
  {
    ReachedBy(pkg, paths, g);
    p :| p in paths && Walk(pkg, p) == Some(g);
  }

  lemma IndependentAgrees<V(!new)>(pkg: Graph<V>, cfg: Config<V>, g: Graph<V>, h: Graph<V>, b: Bundle<V>, c: Bundle<V>)
    requires Independent(pkg, cfg) && g in SelectedGraphs(pkg, cfg.paths) && h in SelectedGraphs(pkg, cfg.paths)
    requires First(AnswersOf(g, cfg.from), b) && First(AnswersOf(h, cfg.from), c) && b.identity.id == c.identity.id
    ensures Satisfies(cfg.constraint, b) <==> Satisfies(cfg.constraint, c)
  {
    if cfg.paths == [] {
      OneFirst(AnswersOf(g, cfg.from), b, c);
    } else {
      var p := PathTo(pkg, cfg.paths, g);
      var q := PathTo(pkg, cfg.paths, h);
      FrontsAgree(pkg, cfg, p, q, b.identity.id);
      FrontVerdicts(pkg, cfg, p, q, b, c);
    }
  }

  /** Main result: the order of the paths, and naming one twice, is irrelevant to which ids are
      found exactly when the first answers of any two of the graphs agree on the constraint. */
  lemma PathOrderIrrelevant<V(!new)>(pkg: Graph<V>, cfg: Config<V>)
    ensures Independent(pkg, cfg) <==> AgreeAcross(pkg, cfg)
  {
    if AgreeAcross(pkg, cfg) {
      forall others, id | SamePaths(cfg.paths, others)
        ensures Finds(pkg, cfg, id) <==> Finds(pkg, cfg.(paths := others), id)
      {
        assert cfg.(paths := cfg.paths) == cfg && SamePaths(cfg.paths, cfg.paths);
        if Finds(pkg, cfg, id) {
          AgreeFinds(pkg, cfg, cfg.paths, others, id);
        }
        if Finds(pkg, cfg.(paths := others), id) {
          AgreeFinds(pkg, cfg, others, cfg.paths, id);
        }
      }
    }
    if Independent(pkg, cfg) {
      forall g, h | g in SelectedGraphs(pkg, cfg.paths) && h in SelectedGraphs(pkg, cfg.paths)
        ensures Agree(g, h, cfg)
      {
        forall b, c | First(AnswersOf(g, cfg.from), b) && First(AnswersOf(h, cfg.from), c) &&
          b.identity.id == c.identity.id
          ensures Satisfies(cfg.constraint, b) <==> Satisfies(cfg.constraint, c)
        {
          IndependentAgrees(pkg, cfg, g, h, b, c);
        }
      }
    }
  }

  /** Nor does it change whether a stream error ends the resolution. */
  lemma PathOrderErrors<V(!new)>(pkg: Graph<V>, cfg: Config<V>, others: seq<seq<string>>)
    requires forall path :: path in cfg.paths <==> path in others
    ensures Failed in Searched(pkg, cfg) <==> Failed in Searched(pkg, cfg.(paths := others))
  {
    SameAnswers(pkg, cfg.paths, others, cfg.from, Failed);
  }

  // ---------------------------------------------------------------- why the hypotheses are there

  function Sample(id: string, name: string, version: int): Bundle<int> {
    Bundle(Identity(id, NameVersionRelease(name, VersionRelease(version, []))), false)
  }

  function SampleChannel(name: string, b: Bundle<int>): Graph<int> {
    Graph(name, [Got(b)], _ => [], None)
  }

  /** Without coherent answers the order of the graphs decides: where two channels list one id with
      two versions and the constraint accepts only the first, one order finds the bundle and the
      other finds nothing. */
  lemma IncoherentOrderMatters()
    ensures var one, two, below2 := Sample("x", "p", 1), Sample("x", "p", 2), Some((v: int) => v < 2);
            var g, h := SampleChannel("a", one), SampleChannel("b", two);
            && First(AllAnswers([g, h], None), one) && Satisfies(below2, one)
            && forall b | First(AllAnswers([h, g], None), b) :: !Satisfies(below2, b)
  {
    var one, two := Sample("x", "p", 1), Sample("x", "p", 2);
    var g, h := SampleChannel("a", one), SampleChannel("b", two);
    TwoAnswers(g, h);
    TwoAnswers(h, g);
    assert AllAnswers([g, h], None) == [Got(one), Got(two)] && AllAnswers([h, g], None) == [Got(two), Got(one)];
    assert FirstAt([Got(one), Got(two)], one, 0);
    var answers := [Got(two), Got(one)];
    forall b | First(answers, b) ensures b == two {
      var i: nat :| FirstAt(answers, b, i);
      assert answers[0].Got? && answers[0].bundle.identity.id == "x" && one.identity.id == "x";
    }
  }

  lemma TwoAnswers(g: Graph<int>, h: Graph<int>)
    ensures AllAnswers([g, h], None) == g.listing + h.listing
  {
    assert [g, h][..1] == [g] && [g][..0] == [];
    assert AllAnswers([g], None) == [] + g.listing;
  }

  function ByNumber(m: int, n: int): int {
    m - n
  }

  const OLD_B := Sample("x", "b", 1)
  const NEW_A := Sample("y", "a", 2)
  const TWO_NAMES: Graph<int> := Graph("p", [Got(OLD_B), Got(NEW_A)], _ => [], None)
  const EVERYTHING: Config<int> := Config([], None, None, false)

  lemma TwoFirsts(x: Bundle<int>, y: Bundle<int>, b: Bundle<int>)
    requires x.identity.id != y.identity.id
    ensures First([Got(x), Got(y)], b) <==> b == x || b == y
  {
    assert FirstAt([Got(x), Got(y)], x, 0) && FirstAt([Got(x), Got(y)], y, 1);
    if i: nat :| FirstAt([Got(x), Got(y)], b, i) {
      assert i == 0 || i == 1;
    }
  }

  lemma TwoNamesListed(b: Bundle<int>)
    ensures Candidate(TWO_NAMES, EVERYTHING, b) <==> b == OLD_B || b == NEW_A
  {
    assert OLD_B.identity.id[0] != NEW_A.identity.id[0];
    OneGraph(TWO_NAMES, None);
    TwoFirsts(OLD_B, NEW_A, b);
  }

  lemma BBeforeA()
    ensures !InNameOrder(ByNumber, false, OLD_B, NEW_A)
    ensures BundleOrder(ByNumber, false)(OLD_B, NEW_A) <= 0
  {
    assert CompareStrings("a", "b") == -1 && CompareStrings("b", "a") == 1;
  }

  lemma TwoNamesResolve()
    ensures Resolves(ByNumber, TWO_NAMES, EVERYTHING, [OLD_B, NEW_A])
  {
    BBeforeA();
    OneGraph(TWO_NAMES, None);
    forall b ensures Candidate(TWO_NAMES, EVERYTHING, b) <==> b in [OLD_B, NEW_A] {
      TwoNamesListed(b);
    }
    assert OLD_B.identity.id == "x" && NEW_A.identity.id == "y";
  }

  /** Across package names the name decides: a package that lists "b" at version 1 and "a" at version 2
      resolves to them in that order, and no answer for it is in the documented order. */
  lemma NamesOutrankVersions(bundles: seq<Bundle<int>>)
    ensures Resolves(ByNumber, TWO_NAMES, EVERYTHING, [OLD_B, NEW_A])
    ensures Resolves(ByNumber, TWO_NAMES, EVERYTHING, bundles) ==> !Descends(ByNumber, false, bundles)
  {
    TwoNamesResolve();
    if Resolves(ByNumber, TWO_NAMES, EVERYTHING, bundles) {
      BBeforeA();
      ResolvedDescends(ByNumber, TWO_NAMES, EVERYTHING, bundles);
      TwoNamesListed(OLD_B);
      TwoNamesListed(NEW_A);
    }
  }
}
