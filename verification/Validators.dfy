/** The registry+v1 bundle validators: what each one reports, and when all of them report nothing. */
module Validators {
  import opened Wrappers
  import opened Text
  import opened Seqs
  import opened Ordering

  const CONVERSION := "ConversionWebhook"
  const VALIDATING := "ValidatingAdmissionWebhook"
  const MUTATING := "MutatingAdmissionWebhook"
  const ALL_NAMESPACES := "AllNamespaces"

  /** A container port by number or by name. */
  datatype Target = Number(n: int) | Named(name: string)

  /** What a rule of an admission webhook selects; `rest` is its versions, operations and scope. */
  datatype WebhookRule = WebhookRule(apiGroups: seq<string>, resources: seq<string>, rest: string)

  /** `rest` stands for the policies and review versions, which are copied as they are. */
  datatype Webhook = Webhook(
    kind: string,
    generateName: string,
    deployment: string,
    containerPort: int,
    targetPort: Option<Target>,
    path: Option<string>,
    conversionCrds: seq<string>,
    rules: seq<WebhookRule>,
    rest: string)

  datatype DeploymentSpec = DeploymentSpec(name: string, selector: map<string, string>)
  datatype Crd = Crd(name: string, preserveUnknownFields: bool, body: string)
  datatype Resource = Resource(kind: string, name: string, namespace: string)

  datatype Bundle = Bundle(
    packageName: string,
    deployments: seq<DeploymentSpec>,
    webhooks: seq<Webhook>,
    crds: seq<Crd>,
    ownedCrds: seq<string>,
    installModes: set<string>,
    others: seq<Resource>)

  // ---------------------------------------------------------------- names

  predicate LowerAlnum(c: char) {
    'a' <= c <= 'z' || '0' <= c <= '9'
  }

  predicate IsLabelPart(s: string) {
    s != "" && LowerAlnum(s[0]) && LowerAlnum(s[|s| - 1]) && forall c <- s :: LowerAlnum(c) || c == '-'
  }

  /** validation.IsDNS1123Subdomain. */
  predicate IsDNS1123Subdomain(s: string) {
    0 < |s| <= 253 && forall part <- Split(s, '.') :: IsLabelPart(part)
  }

  ghost predicate Ascending(s: seq<string>) {
    forall i, j | 0 <= i < j < |s| :: CompareStrings(s[i], s[j]) < 0
  }

  /** The name occurs more than once. */
  ghost predicate Repeats<T>(names: seq<T>, n: T) {
    exists i, j :: 0 <= i < j < |names| && names[i] == n && names[j] == n
  }

  lemma RepeatsNext<T>(names: seq<T>, x: T, n: T)
    ensures Repeats(names + [x], n) <==> Repeats(names, n) || (n == x && n in names)
  {
    var next := names + [x];
    if Repeats(names, n) {
      var i, j :| 0 <= i < j < |names| && names[i] == n && names[j] == n;
      assert next[i] == n && next[j] == n;
    } else if n == x && n in names {
      var i :| 0 <= i < |names| && names[i] == n;
      assert next[i] == n && next[|names|] == n;
    }
  }

  lemma DistinctMeansNoRepeats<T(!new)>(names: seq<T>)
    ensures Distinct(names) <==> forall n :: !Repeats(names, n)
  {
    if !Distinct(names) {
      var i, j :| 0 <= i < j < |names| && names[i] == names[j];
      assert Repeats(names, names[i]);
    }
  }

  /** The names that occur more than once, each once, ascending: the loop of both uniqueness checks. */
  method SortedDuplicates(names: seq<string>) returns (errs: seq<string>)
    ensures Ascending(errs) && forall n :: n in errs <==> Repeats(names, n)
  {
    var seen: set<string> := {};
    var duplicates: set<string> := {};
    for i := 0 to |names|
      invariant forall n :: n in seen <==> n in names[..i]
      invariant forall n :: n in duplicates <==> Repeats(names[..i], n)
    {
      assert names[..i + 1] == names[..i] + [names[i]];
      forall n ensures Repeats(names[..i + 1], n) <==> Repeats(names[..i], n) || (n == names[i] && n in names[..i]) {
        RepeatsNext(names[..i], names[i], n);
      }
      if names[i] in seen {
        duplicates := duplicates + {names[i]};
      }
      seen := seen + {names[i]};
    }
    assert names[..|names|] == names;
    errs := SortedNames(duplicates);
  }

  function DeploymentNames(b: Bundle): seq<string> {
    seq(|b.deployments|, i requires 0 <= i < |b.deployments| => b.deployments[i].name)
  }

  function CrdNames(b: Bundle): seq<string> {
    seq(|b.crds|, i requires 0 <= i < |b.crds| => b.crds[i].name)
  }

  method CheckDeploymentSpecUniqueness(b: Bundle) returns (errs: seq<string>)
    ensures Ascending(errs) && forall n :: n in errs <==> Repeats(DeploymentNames(b), n)
    ensures errs == [] <==> Distinct(DeploymentNames(b))
  {
    errs := SortedDuplicates(DeploymentNames(b));
    DistinctMeansNoRepeats(DeploymentNames(b));
    assert errs != [] ==> errs[0] in errs;
  }

  method CheckCRDResourceUniqueness(b: Bundle) returns (errs: seq<string>)
    ensures Ascending(errs) && forall n :: n in errs <==> Repeats(CrdNames(b), n)
    ensures errs == [] <==> Distinct(CrdNames(b))
  {
    errs := SortedDuplicates(CrdNames(b));
    DistinctMeansNoRepeats(CrdNames(b));
    assert errs != [] ==> errs[0] in errs;
  }

  method CheckDeploymentNameIsDNS1123SubDomain(b: Bundle) returns (errs: seq<string>)
    ensures Ascending(errs) && forall n :: n in errs <==> n in DeploymentNames(b) && !IsDNS1123Subdomain(n)
    ensures errs == [] <==> forall n <- DeploymentNames(b) :: IsDNS1123Subdomain(n)
  {
    var names := DeploymentNames(b);
    var invalid: set<string> := {};
    for i := 0 to |names|
      invariant forall n :: n in invalid <==> n in names[..i] && !IsDNS1123Subdomain(n)
    {
      assert names[..i + 1] == names[..i] + [names[i]];
      if !IsDNS1123Subdomain(names[i]) {
        invalid := invalid + {names[i]};
      }
    }
    assert names[..|names|] == names;
    errs := SortedNames(invalid);
    assert errs != [] ==> errs[0] in errs;
  }

  method CheckOwnedCRDExistence(b: Bundle) returns (errs: seq<string>)
    ensures Ascending(errs) && forall n :: n in errs <==> n in b.ownedCrds && n !in CrdNames(b)
    ensures errs == [] <==> forall n <- b.ownedCrds :: n in CrdNames(b)
  {
    var missing: set<string> := {};
    for i := 0 to |b.ownedCrds|
      invariant forall n :: n in missing <==> n in b.ownedCrds[..i] && n !in CrdNames(b)
    {
      assert b.ownedCrds[..i + 1] == b.ownedCrds[..i] + [b.ownedCrds[i]];
      if b.ownedCrds[i] !in CrdNames(b) {
        missing := missing + {b.ownedCrds[i]};
      }
    }
    assert b.ownedCrds[..|b.ownedCrds|] == b.ownedCrds;
    errs := SortedNames(missing);
    assert errs != [] ==> errs[0] in errs;
  }

  // ---------------------------------------------------------------- webhooks

  /** Type and name of a webhook. */
  function KeyOf(wh: Webhook): (string, string) {
    (wh.kind, wh.generateName)
  }

  function WebhookKeys(whs: seq<Webhook>): seq<(string, string)> {
    seq(|whs|, i requires 0 <= i < |whs| => KeyOf(whs[i]))
  }

  ghost predicate PairsAscending(s: seq<(string, string)>) {
    forall i, j | 0 <= i < j < |s| ::
      CompareStrings(s[i].0, s[j].0) < 0 || (s[i].0 == s[j].0 && CompareStrings(s[i].1, s[j].1) < 0)
  }

  /** Nested sorted loops over a map from types to names. */
  method SortedPairs(pairs: set<(string, string)>) returns (errs: seq<(string, string)>)
    ensures PairsAscending(errs) && forall p :: p in errs <==> p in pairs
  {
    var kinds := SortedNames(set p | p in pairs :: p.0);
    errs := [];
    for i := 0 to |kinds|
      invariant PairsAscending(errs)
      invariant forall p :: p in errs <==> p in pairs && p.0 in kinds[..i]
    {
      var names := SortedNames(set p | p in pairs && p.0 == kinds[i] :: p.1);
      assert kinds[..i + 1] == kinds[..i] + [kinds[i]];
      ghost var before := errs;
      forall p <- before ensures CompareStrings(p.0, kinds[i]) < 0 {
        assert p.0 in kinds[..i];
      }
      for j := 0 to |names|
        invariant PairsAscending(errs)
        invariant forall p :: p in errs <==> p in before || (p.0 == kinds[i] && p.1 in names[..j])
      {
        assert names[..j + 1] == names[..j] + [names[j]];
        forall k | 0 <= k < |errs|
          ensures CompareStrings(errs[k].0, kinds[i]) < 0 ||
                  (errs[k].0 == kinds[i] && CompareStrings(errs[k].1, names[j]) < 0) {
          assert errs[k] in errs;
        }
        errs := errs + [(kinds[i], names[j])];
      }
      assert names[..|names|] == names;
      forall p ensures p in errs <==> p in pairs && p.0 in kinds[..i + 1] {
        assert p in pairs && p.0 == kinds[i] ==> p.1 in names;
      }
    }
    assert kinds[..|kinds|] == kinds;
    forall p <- pairs ensures p in errs {
      assert p.0 in kinds;
    }
  }

  method CheckWebhookNameUniqueness(b: Bundle) returns (errs: seq<(string, string)>)
    ensures PairsAscending(errs) && forall k :: k in errs <==> Repeats(WebhookKeys(b.webhooks), k)
    ensures errs == [] <==> Distinct(WebhookKeys(b.webhooks))
  {
    var keys := WebhookKeys(b.webhooks);
    var seen: set<(string, string)> := {};
    var duplicates: set<(string, string)> := {};
    for i := 0 to |keys|
      invariant forall n :: n in seen <==> n in keys[..i]
      invariant forall n :: n in duplicates <==> Repeats(keys[..i], n)
    {
      assert keys[..i + 1] == keys[..i] + [keys[i]];
      forall n ensures Repeats(keys[..i + 1], n) <==> Repeats(keys[..i], n) || (n == keys[i] && n in keys[..i]) {
        RepeatsNext(keys[..i], keys[i], n);
      }
      if keys[i] in seen {
        duplicates := duplicates + {keys[i]};
      }
      seen := seen + {keys[i]};
    }
    assert keys[..|keys|] == keys;
    errs := SortedPairs(duplicates);
    DistinctMeansNoRepeats(keys);
    assert errs != [] ==> errs[0] in errs;
  }

  method CheckWebhookNameIsDNS1123SubDomain(b: Bundle) returns (errs: seq<(string, string)>)
    ensures PairsAscending(errs) && forall k :: k in errs <==> k in WebhookKeys(b.webhooks) && !IsDNS1123Subdomain(k.1)
    ensures errs == [] <==> forall wh <- b.webhooks :: IsDNS1123Subdomain(wh.generateName)
  {
    var keys := WebhookKeys(b.webhooks);
    var invalid: set<(string, string)> := {};
    for i := 0 to |keys|
      invariant forall k :: k in invalid <==> k in keys[..i] && !IsDNS1123Subdomain(k.1)
    {
      assert keys[..i + 1] == keys[..i] + [keys[i]];
      if !IsDNS1123Subdomain(keys[i].1) {
        invalid := invalid + {keys[i]};
      }
    }
    assert keys[..|keys|] == keys;
    errs := SortedPairs(invalid);
    assert errs != [] ==> errs[0] in errs;
    forall wh <- b.webhooks ensures KeyOf(wh) in keys {
      var i :| 0 <= i < |b.webhooks| && b.webhooks[i] == wh;
      assert keys[i] == KeyOf(wh);
    }
  }

  /** Deployment, type, name. */
  function DanglingOrder(a: Webhook, b: Webhook): int {
    if CompareStrings(a.deployment, b.deployment) != 0 then CompareStrings(a.deployment, b.deployment)
    else if CompareStrings(a.kind, b.kind) != 0 then CompareStrings(a.kind, b.kind)
    else CompareStrings(a.generateName, b.generateName)
  }

  lemma DanglingComparator()
    ensures Comparator(DanglingOrder)
  {
    forall a, b ensures Sign(DanglingOrder(a, b)) == -Sign(DanglingOrder(b, a)) {
      CompareStringsFlips(a.deployment, b.deployment);
      CompareStringsFlips(a.kind, b.kind);
      CompareStringsFlips(a.generateName, b.generateName);
    }
    forall a, b, c | DanglingOrder(a, b) <= 0 && DanglingOrder(b, c) <= 0 ensures DanglingOrder(a, c) <= 0 {
      StringsComparator();
      TiesTransitive(CompareStrings, a.deployment, b.deployment, c.deployment);
      TiesTransitive(CompareStrings, a.kind, b.kind, c.kind);
      if DanglingOrder(a, b) <= 0 {
        assert CompareStrings(a.deployment, b.deployment) <= 0;
      }
    }
  }

  function Dangling(whs: seq<Webhook>, deployments: seq<string>): seq<Webhook> {
    if whs == [] then []
    else Dangling(whs[..|whs| - 1], deployments) + if whs[|whs| - 1].deployment in deployments
         then [] else [whs[|whs| - 1]]
  }

  lemma {:induction false} InDangling(whs: seq<Webhook>, deployments: seq<string>, wh: Webhook)
    ensures wh in Dangling(whs, deployments) <==> wh in whs && wh.deployment !in deployments
  {
    if whs != [] {
      var n := |whs| - 1;
      InDangling(whs[..n], deployments, wh);
      assert whs == whs[..n] + [whs[n]];
    }
  }

  method CheckWebhookDeploymentReferentialIntegrity(b: Bundle) returns (errs: seq<Webhook>)
    ensures multiset(errs) == multiset(Dangling(b.webhooks, DeploymentNames(b))) && SortedBy(errs, DanglingOrder)
    ensures errs == [] <==> forall wh <- b.webhooks :: wh.deployment in DeploymentNames(b)
  {
    var dangling: seq<Webhook> := [];
    for i := 0 to |b.webhooks|
      invariant dangling == Dangling(b.webhooks[..i], DeploymentNames(b))
    {
      assert b.webhooks[..i + 1][..i] == b.webhooks[..i];
      if b.webhooks[i].deployment !in DeploymentNames(b) {
        dangling := dangling + [b.webhooks[i]];
      }
    }
    assert b.webhooks[..|b.webhooks|] == b.webhooks;
    DanglingComparator();
    errs := SortFunc(dangling, DanglingOrder);
    NoneDangling(b, errs);
  }

  lemma NoneDangling(b: Bundle, errs: seq<Webhook>)
    requires multiset(errs) == multiset(Dangling(b.webhooks, DeploymentNames(b)))
    ensures errs == [] <==> forall wh <- b.webhooks :: wh.deployment in DeploymentNames(b)
  {
    var dangling := Dangling(b.webhooks, DeploymentNames(b));
    assert |multiset(errs)| == |multiset(dangling)|;
    forall wh ensures wh in dangling <==> wh in b.webhooks && wh.deployment !in DeploymentNames(b) {
      InDangling(b.webhooks, DeploymentNames(b), wh);
    }
    if dangling != [] {
      assert dangling[0] in dangling;
    }
  }

  // ---------------------------------------------------------------- conversion webhooks

  function ConversionNames(whs: seq<Webhook>): seq<string> {
    if whs == [] then []
    else
      var wh := whs[|whs| - 1];
      ConversionNames(whs[..|whs| - 1]) + if wh.kind == CONVERSION then [wh.generateName] else []
  }

  lemma {:induction false} NoConversionNames(whs: seq<Webhook>)
    ensures ConversionNames(whs) == [] <==> forall wh <- whs :: wh.kind != CONVERSION
  {
    if whs != [] {
      var n := |whs| - 1;
      NoConversionNames(whs[..n]);
      assert whs == whs[..n] + [whs[n]];
    }
  }

  method CheckConversionWebhookSupport(b: Bundle) returns (errs: seq<string>)
    ensures errs == if b.installModes == {ALL_NAMESPACES} then [] else ConversionNames(b.webhooks)
    ensures errs == [] <==> b.installModes == {ALL_NAMESPACES} || forall wh <- b.webhooks :: wh.kind != CONVERSION
  {
    var names: seq<string> := [];
    for i := 0 to |b.webhooks|
      invariant names == ConversionNames(b.webhooks[..i])
    {
      assert b.webhooks[..i + 1][..i] == b.webhooks[..i];
      if b.webhooks[i].kind == CONVERSION {
        names := names + [b.webhooks[i].generateName];
      }
    }
    assert b.webhooks[..|b.webhooks|] == b.webhooks;
    NoConversionNames(b.webhooks);
    errs := if |names| > 0 && b.installModes != {ALL_NAMESPACES} then names else [];
  }

  /** Every CRD name a conversion webhook gives, as often as one gives it. */
  function ConversionRefs(whs: seq<Webhook>): seq<string> {
    if whs == [] then []
    else
      var wh := whs[|whs| - 1];
      ConversionRefs(whs[..|whs| - 1]) + if wh.kind == CONVERSION then wh.conversionCrds else []
  }

  lemma {:induction false} InConversionRefs(whs: seq<Webhook>, crd: string)
    ensures crd in ConversionRefs(whs) <==> exists wh <- whs :: wh.kind == CONVERSION && crd in wh.conversionCrds
  {
    if whs != [] {
      var n := |whs| - 1;
      InConversionRefs(whs[..n], crd);
      assert whs == whs[..n] + [whs[n]];
    }
  }

  lemma CountsNext(byCrd: map<string, seq<string>>, refs: seq<string>, crd: string, webhook: string)
    requires Counts(byCrd, refs)
    ensures Counts(byCrd[crd := (if crd in byCrd then byCrd[crd] else []) + [webhook]], refs + [crd])
  {
  }

  /** The inner loop: one webhook's CRD names. */
  method CountCrds(byCrd: map<string, seq<string>>, ghost before: seq<string>, wh: Webhook)
    returns (next: map<string, seq<string>>)
    requires Counts(byCrd, before)
    ensures Counts(next, before + wh.conversionCrds)
  {
    next := byCrd;
    assert before + wh.conversionCrds[..0] == before;
    for j := 0 to |wh.conversionCrds|
      invariant Counts(next, before + wh.conversionCrds[..j])
    {
      var crd := wh.conversionCrds[j];
      assert before + wh.conversionCrds[..j + 1] == before + wh.conversionCrds[..j] + [crd];
      CountsNext(next, before + wh.conversionCrds[..j], crd, wh.generateName);
      next := next[crd := (if crd in next then next[crd] else []) + [wh.generateName]];
    }
    assert wh.conversionCrds[..|wh.conversionCrds|] == wh.conversionCrds;
  }

  method CheckConversionWebhookCRDReferenceUniqueness(b: Bundle) returns (errs: seq<string>)
    ensures Ascending(errs) && forall n :: n in errs <==> multiset(ConversionRefs(b.webhooks))[n] > 1
    ensures errs == [] <==> Distinct(ConversionRefs(b.webhooks))
  {
    var byCrd: map<string, seq<string>> := map[];
    for i := 0 to |b.webhooks|
      invariant Counts(byCrd, ConversionRefs(b.webhooks[..i]))
    {
      assert b.webhooks[..i + 1][..i] == b.webhooks[..i];
      if b.webhooks[i].kind == CONVERSION {
        byCrd := CountCrds(byCrd, ConversionRefs(b.webhooks[..i]), b.webhooks[i]);
      }
    }
    assert b.webhooks[..|b.webhooks|] == b.webhooks;
    errs := SortedNames(set crd | crd in byCrd && |byCrd[crd]| != 1);
    CountsRepeats(byCrd, ConversionRefs(b.webhooks), errs);
  }

  ghost predicate Counts(byCrd: map<string, seq<string>>, refs: seq<string>) {
    forall crd ::
      (if crd in byCrd then |byCrd[crd]| else 0) == multiset(refs)[crd] && (crd in byCrd ==> byCrd[crd] != [])
  }

  lemma CountsRepeats(byCrd: map<string, seq<string>>, refs: seq<string>, errs: seq<string>)
    requires Counts(byCrd, refs) && forall n :: n in errs <==> n in byCrd && |byCrd[n]| != 1
    ensures forall n :: n in errs <==> multiset(refs)[n] > 1
    ensures errs == [] <==> Distinct(refs)
  {
    if errs != [] {
      assert errs[0] in errs;
      assert multiset(refs)[errs[0]] > 1;
      if Distinct(refs) {
        DistinctCount(refs);
        DistinctMultiset(refs);
      }
    }
    if !Distinct(refs) {
      var i, j :| 0 <= i < j < |refs| && refs[i] == refs[j];
      assert refs == refs[..j] + refs[j..];
      assert refs[i] in refs[..j] && refs[j] in refs[j..];
      assert refs[i] in errs;
    }
  }

  ghost predicate UnownedRef(b: Bundle, e: (string, string)) {
    exists wh <- b.webhooks ::
      wh.kind == CONVERSION && wh.generateName == e.0 && e.1 in wh.conversionCrds && e.1 !in b.ownedCrds
  }

  function ByName(a: Webhook, b: Webhook): int {
    CompareStrings(a.generateName, b.generateName)
  }

  lemma ByNameComparator()
    ensures Comparator(ByName)
  {
    StringsComparator();
    forall a, b ensures Sign(ByName(a, b)) == -Sign(ByName(b, a)) {
      CompareStringsFlips(a.generateName, b.generateName);
    }
  }

  function ConversionsIn(whs: seq<Webhook>): seq<Webhook> {
    if whs == [] then []
    else ConversionsIn(whs[..|whs| - 1]) + if whs[|whs| - 1].kind == CONVERSION then [whs[|whs| - 1]] else []
  }

  lemma {:induction false} InConversions(whs: seq<Webhook>, wh: Webhook)
    ensures wh in ConversionsIn(whs) <==> wh in whs && wh.kind == CONVERSION
  {
    if whs != [] {
      InConversions(whs[..|whs| - 1], wh);
      SplitLast(whs);
    }
  }

  /** The conversion webhooks, by ascending name; equal names in any order. */
  ghost predicate ByNames(b: Bundle, whs: seq<Webhook>) {
    SortedBy(whs, ByName) && multiset(whs) == multiset(ConversionsIn(b.webhooks))
  }

  method ConversionWebhooks(b: Bundle) returns (whs: seq<Webhook>)
    ensures ByNames(b, whs)
  {
    var found: seq<Webhook> := [];
    for i := 0 to |b.webhooks|
      invariant found == ConversionsIn(b.webhooks[..i])
    {
      assert b.webhooks[..i + 1][..i] == b.webhooks[..i];
      if b.webhooks[i].kind == CONVERSION {
        found := found + [b.webhooks[i]];
      }
    }
    assert b.webhooks[..|b.webhooks|] == b.webhooks;
    ByNameComparator();
    whs := SortFunc(found, ByName);
  }

  /** One pair per reference to a CRD that is not owned. */
  function Unowned(wh: Webhook, crds: seq<string>, owned: seq<string>): seq<(string, string)> {
    if crds == [] then []
    else
      var crd := crds[|crds| - 1];
      Unowned(wh, crds[..|crds| - 1], owned) + if crd in owned then [] else [(wh.generateName, crd)]
  }

  lemma {:induction false} InUnowned(wh: Webhook, crds: seq<string>, owned: seq<string>, e: (string, string))
    ensures e in Unowned(wh, crds, owned) <==> e.0 == wh.generateName && e.1 in crds && e.1 !in owned
  {
    if crds != [] {
      InUnowned(wh, crds[..|crds| - 1], owned, e);
      SplitLast(crds);
    }
  }

  /** refs holds, per webhook, its references in ascending order. */
  ghost predicate SortedRefs(whs: seq<Webhook>, refs: seq<seq<string>>) {
    && |refs| == |whs|
    && forall i | 0 <= i < |whs| ::
       multiset(refs[i]) == multiset(whs[i].conversionCrds) && SortedBy(refs[i], CompareStrings)
  }

  /** The report of one webhook after the other. */
  function UnownedAll(whs: seq<Webhook>, refs: seq<seq<string>>, owned: seq<string>): seq<(string, string)>
    requires |refs| == |whs|
  {
    if whs == [] then []
    else
      var n := |whs| - 1;
      UnownedAll(whs[..n], refs[..n], owned) + Unowned(whs[n], refs[n], owned)
  }

  lemma {:induction false} InUnownedAll(whs: seq<Webhook>, refs: seq<seq<string>>, owned: seq<string>,
                                        e: (string, string))
    requires SortedRefs(whs, refs)
    ensures e in UnownedAll(whs, refs, owned) <==>
            exists wh <- whs :: e.0 == wh.generateName && e.1 in wh.conversionCrds && e.1 !in owned
  {
    if whs != [] {
      var n := |whs| - 1;
      InUnownedAll(whs[..n], refs[..n], owned, e);
      InUnowned(whs[n], refs[n], owned, e);
      assert e.1 in multiset(refs[n]) <==> e.1 in multiset(whs[n].conversionCrds);
      SplitLast(whs);
      assert forall wh :: wh in whs <==> wh in whs[..n] || wh == whs[n];
    }
  }

  method UnownedOf(wh: Webhook, owned: seq<string>) returns (errs: seq<(string, string)>, ghost refs: seq<string>)
    ensures multiset(refs) == multiset(wh.conversionCrds) && SortedBy(refs, CompareStrings) &&
            errs == Unowned(wh, refs, owned)
  {
    StringsComparator();
    var crds := SortFunc(wh.conversionCrds, CompareStrings);
    refs := crds;
    errs := [];
    for j := 0 to |crds|
      invariant errs == Unowned(wh, crds[..j], owned)
    {
      assert crds[..j + 1][..j] == crds[..j];
      if crds[j] !in owned {
        errs := errs + [(wh.generateName, crds[j])];
      }
    }
    assert crds[..|crds|] == crds;
  }

  /** The references to CRDs that are not owned, webhook by webhook in the order of their names. */
  ghost predicate ReportsUnowned(b: Bundle, errs: seq<(string, string)>) {
    exists whs, refs :: ByNames(b, whs) && SortedRefs(whs, refs) && errs == UnownedAll(whs, refs, b.ownedCrds)
  }

  method CheckConversionWebhooksReferenceOwnedCRDs(b: Bundle) returns (errs: seq<(string, string)>)
    ensures ReportsUnowned(b, errs)
    ensures forall e :: e in errs <==> UnownedRef(b, e)
    ensures errs == [] <==> forall crd <- ConversionRefs(b.webhooks) :: crd in b.ownedCrds
  {
    var whs := ConversionWebhooks(b);
    ghost var refs: seq<seq<string>> := [];
    errs := [];
    for i := 0 to |whs|
      invariant SortedRefs(whs[..i], refs) && errs == UnownedAll(whs[..i], refs, b.ownedCrds)
    {
      var more;
      ghost var more';
      more, more' := UnownedOf(whs[i], b.ownedCrds);
      UnownedNext(whs[..i], refs, whs[i], more', b.ownedCrds);
      assert whs[..i + 1] == whs[..i] + [whs[i]];
      errs, refs := errs + more, refs + [more'];
    }
    assert whs[..|whs|] == whs;
    UnownedMeans(b, whs, refs, errs);
  }

  lemma UnownedNext(whs: seq<Webhook>, refs: seq<seq<string>>, wh: Webhook, more: seq<string>, owned: seq<string>)
    requires SortedRefs(whs, refs) && multiset(more) == multiset(wh.conversionCrds) && SortedBy(more, CompareStrings)
    ensures SortedRefs(whs + [wh], refs + [more])
    ensures UnownedAll(whs + [wh], refs + [more], owned) == UnownedAll(whs, refs, owned) + Unowned(wh, more, owned)
  {
    assert (whs + [wh])[..|whs|] == whs && (refs + [more])[..|whs|] == refs;
  }

  lemma UnownedMeans(b: Bundle, whs: seq<Webhook>, refs: seq<seq<string>>, errs: seq<(string, string)>)
    requires ByNames(b, whs) && SortedRefs(whs, refs) && errs == UnownedAll(whs, refs, b.ownedCrds)
    ensures forall e :: e in errs <==> UnownedRef(b, e)
    ensures errs == [] <==> forall crd <- ConversionRefs(b.webhooks) :: crd in b.ownedCrds
  {
    forall e ensures e in errs <==> UnownedRef(b, e) {
      InUnownedAll(whs, refs, b.ownedCrds, e);
      SortedConversions(b, whs);
    }
    NoneUnowned(b, errs);
  }

  lemma SortedConversions(b: Bundle, whs: seq<Webhook>)
    requires ByNames(b, whs)
    ensures forall wh :: wh in whs <==> wh in b.webhooks && wh.kind == CONVERSION
  {
    forall wh ensures wh in whs <==> wh in b.webhooks && wh.kind == CONVERSION {
      assert wh in multiset(whs) <==> wh in multiset(ConversionsIn(b.webhooks));
      InConversions(b.webhooks, wh);
    }
  }

  lemma NoneUnowned(b: Bundle, errs: seq<(string, string)>)
    requires forall e :: e in errs <==> UnownedRef(b, e)
    ensures errs == [] <==> forall crd <- ConversionRefs(b.webhooks) :: crd in b.ownedCrds
  {
    if errs != [] {
      assert UnownedRef(b, errs[0]) by {
        assert errs[0] in errs;
      }
      InConversionRefs(b.webhooks, errs[0].1);
    }
    forall crd | crd in ConversionRefs(b.webhooks) && crd !in b.ownedCrds ensures errs != [] {
      InConversionRefs(b.webhooks, crd);
      var wh :| wh in b.webhooks && wh.kind == CONVERSION && crd in wh.conversionCrds;
      assert UnownedRef(b, (wh.generateName, crd));
      assert (wh.generateName, crd) in errs;
    }
  }

  // ---------------------------------------------------------------- webhook rules

  const ADMISSION_REGISTRATION := "admissionregistration.k8s.io"
  const FORBIDDEN_GROUPS: set<string> := {"olm.operatorframework.io", "*"}
  const FORBIDDEN_RESOURCES: set<string> :=
    {"*", "mutatingwebhookconfiguration", "mutatingwebhookconfigurations",
     "validatingwebhookconfiguration", "validatingwebhookconfigurations"}

  /** unicode.ToLower, where the result is ASCII: besides the letters, the dotted capital I and the
      Kelvin sign. No other character's lower case is ASCII, so none of them matters here. */
  function LowerChar(c: char): char {
    if 'A' <= c <= 'Z' then c - 'A' + 'a'
    else if c == '\U{130}' then 'i'
    else if c == '\U{212A}' then 'k'
    else c
  }

  function Lower(s: string): string {
    seq(|s|, i requires 0 <= i < |s| => LowerChar(s[i]))
  }

  /** A group of its own is forbidden, or a resource of the group that holds webhook configurations. */
  datatype RuleError = GroupError(webhook: string, group: string) | ResourceError(webhook: string, group: string,
                                  resource: string)

  /** What one group of a rule is reported for. */
  function GroupErrors(name: string, group: string, resources: seq<string>): seq<RuleError> {
    (if group in FORBIDDEN_GROUPS then [GroupError(name, group)] else [])
    + if group == ADMISSION_REGISTRATION then ResourceErrors(name, group, resources) else []
  }

  function ResourceErrors(name: string, group: string, resources: seq<string>): seq<RuleError> {
    if resources == [] then []
    else
      var r := resources[|resources| - 1];
      ResourceErrors(name, group, resources[..|resources| - 1])
      + if Lower(r) in FORBIDDEN_RESOURCES then [ResourceError(name, group, r)] else []
  }

  function RuleErrors(name: string, groups: seq<string>, resources: seq<string>): seq<RuleError> {
    if groups == [] then []
    else RuleErrors(name, groups[..|groups| - 1], resources) + GroupErrors(name, groups[|groups| - 1], resources)
  }

  function RulesErrors(name: string, rules: seq<WebhookRule>): seq<RuleError> {
    if rules == [] then []
    else
      var rule := rules[|rules| - 1];
      RulesErrors(name, rules[..|rules| - 1]) + RuleErrors(name, rule.apiGroups, rule.resources)
  }

  function WebhookErrors(whs: seq<Webhook>): seq<RuleError> {
    if whs == [] then []
    else
      var wh := whs[|whs| - 1];
      WebhookErrors(whs[..|whs| - 1]) + if wh.kind == CONVERSION then [] else RulesErrors(wh.generateName, wh.rules)
  }

  /** The group may be selected together with these resources. */
  predicate GroupAllowed(group: string, resources: seq<string>) {
    && group !in FORBIDDEN_GROUPS
    && (group == ADMISSION_REGISTRATION ==> forall r <- resources :: Lower(r) !in FORBIDDEN_RESOURCES)
  }

  predicate RuleAllowed(rule: WebhookRule) {
    forall group <- rule.apiGroups :: GroupAllowed(group, rule.resources)
  }

  /** Conversion webhooks have no rules that count. */
  predicate RulesAllowed(whs: seq<Webhook>) {
    forall wh <- whs | wh.kind != CONVERSION :: forall rule <- wh.rules :: RuleAllowed(rule)
  }

  lemma {:induction false} NoResourceErrors(name: string, group: string, resources: seq<string>)
    ensures ResourceErrors(name, group, resources) == [] <==> forall r <- resources :: Lower(r) !in FORBIDDEN_RESOURCES
  {
    if resources != [] {
      var init, r := resources[..|resources| - 1], resources[|resources| - 1];
      NoResourceErrors(name, group, init);
      SplitLast(resources);
      assert forall x :: x in resources <==> x in init || x == r;
    }
  }

  lemma NoGroupErrors(name: string, group: string, resources: seq<string>)
    ensures GroupErrors(name, group, resources) == [] <==> GroupAllowed(group, resources)
  {
    NoResourceErrors(name, group, resources);
  }

  lemma {:induction false} NoRuleErrors(name: string, groups: seq<string>, resources: seq<string>)
    ensures RuleErrors(name, groups, resources) == [] <==> forall group <- groups :: GroupAllowed(group, resources)
  {
    if groups != [] {
      var init, group := groups[..|groups| - 1], groups[|groups| - 1];
      NoRuleErrors(name, init, resources);
      NoGroupErrors(name, group, resources);
      SplitLast(groups);
      assert forall x :: x in groups <==> x in init || x == group;
    }
  }

  lemma {:induction false} NoRulesErrors(name: string, rules: seq<WebhookRule>)
    ensures RulesErrors(name, rules) == [] <==> forall rule <- rules :: RuleAllowed(rule)
  {
    if rules != [] {
      var init, rule := rules[..|rules| - 1], rules[|rules| - 1];
      NoRulesErrors(name, init);
      NoRuleErrors(name, rule.apiGroups, rule.resources);
      SplitLast(rules);
      assert RuleAllowed(rule) <==> RuleErrors(name, rule.apiGroups, rule.resources) == [];
      assert forall x :: x in rules <==> x in init || x == rule;
    }
  }

  lemma {:induction false} NoWebhookErrors(whs: seq<Webhook>)
    ensures WebhookErrors(whs) == [] <==> RulesAllowed(whs)
  {
    if whs != [] {
      var init, wh := whs[..|whs| - 1], whs[|whs| - 1];
      NoWebhookErrors(init);
      NoRulesErrors(wh.generateName, wh.rules);
      SplitLast(whs);
      assert forall x :: x in whs <==> x in init || x == wh;
    }
  }

  method CheckGroup(name: string, group: string, resources: seq<string>) returns (errs: seq<RuleError>)
    ensures errs == GroupErrors(name, group, resources)
  {
    errs := if group in FORBIDDEN_GROUPS then [GroupError(name, group)] else [];
    if group == ADMISSION_REGISTRATION {
      ghost var before := errs;
      for j := 0 to |resources|
        invariant errs == before + ResourceErrors(name, group, resources[..j])
      {
        assert resources[..j + 1][..j] == resources[..j];
        if Lower(resources[j]) in FORBIDDEN_RESOURCES {
          errs := errs + [ResourceError(name, group, resources[j])];
        }
      }
      assert resources[..|resources|] == resources;
    }
  }

  method CheckRules(name: string, rules: seq<WebhookRule>) returns (errs: seq<RuleError>)
    ensures errs == RulesErrors(name, rules)
  {
    errs := [];
    for i := 0 to |rules|
      invariant errs == RulesErrors(name, rules[..i])
    {
      var groups, resources := rules[i].apiGroups, rules[i].resources;
      ghost var before := errs;
      for j := 0 to |groups|
        invariant errs == before + RuleErrors(name, groups[..j], resources)
      {
        var more := CheckGroup(name, groups[j], resources);
        assert groups[..j + 1][..j] == groups[..j];
        ConcatAssociates(before, RuleErrors(name, groups[..j], resources), more);
        errs := errs + more;
      }
      assert groups[..|groups|] == groups && rules[..i + 1][..i] == rules[..i];
    }
    assert rules[..|rules|] == rules;
  }

  /** The forbidden groups and resources, in the order of webhooks, rules, groups and resources. */
  method CheckWebhookRules(b: Bundle) returns (errs: seq<RuleError>)
    ensures errs == WebhookErrors(b.webhooks)
    ensures errs == [] <==> RulesAllowed(b.webhooks)
  {
    errs := [];
    for i := 0 to |b.webhooks|
      invariant errs == WebhookErrors(b.webhooks[..i])
    {
      assert b.webhooks[..i + 1][..i] == b.webhooks[..i];
      if b.webhooks[i].kind != CONVERSION {
        var more := CheckRules(b.webhooks[i].generateName, b.webhooks[i].rules);
        errs := errs + more;
      }
    }
    assert b.webhooks[..|b.webhooks|] == b.webhooks;
    NoWebhookErrors(b.webhooks);
  }

  // ---------------------------------------------------------------- other resources

  /** Which kinds registry+v1 supports, and which of them are namespaced. */
  datatype Kinds = Kinds(supported: set<string>, namespaced: set<string>)

  function Unsupported(kinds: Kinds, others: seq<Resource>): seq<Resource> {
    if others == [] then []
    else Unsupported(kinds, others[..|others| - 1]) + if others[|others| - 1].kind in kinds.supported
         then [] else [others[|others| - 1]]
  }

  lemma {:induction false} NoneUnsupported(kinds: Kinds, others: seq<Resource>)
    ensures Unsupported(kinds, others) == [] <==> forall o <- others :: o.kind in kinds.supported
  {
    if others != [] {
      var n := |others| - 1;
      NoneUnsupported(kinds, others[..n]);
      assert others == others[..n] + [others[n]];
    }
  }

  method CheckObjectSupport(kinds: Kinds, b: Bundle) returns (errs: seq<Resource>)
    ensures errs == Unsupported(kinds, b.others)
    ensures errs == [] <==> forall o <- b.others :: o.kind in kinds.supported
  {
    errs := [];
    for i := 0 to |b.others|
      invariant errs == Unsupported(kinds, b.others[..i])
    {
      assert b.others[..i + 1][..i] == b.others[..i];
      if b.others[i].kind !in kinds.supported {
        errs := errs + [b.others[i]];
      }
    }
    assert b.others[..|b.others|] == b.others;
    NoneUnsupported(kinds, b.others);
  }

  // ---------------------------------------------------------------- all of them

  ghost predicate NamesValid(b: Bundle) {
    && b.packageName != ""
    && Distinct(DeploymentNames(b))
    && (forall n <- DeploymentNames(b) :: IsDNS1123Subdomain(n))
    && Distinct(CrdNames(b))
    && (forall n <- b.ownedCrds :: n in CrdNames(b))
  }

  ghost predicate WebhooksValid(b: Bundle) {
    && (forall wh <- b.webhooks :: wh.deployment in DeploymentNames(b))
    && Distinct(WebhookKeys(b.webhooks))
    && (forall wh <- b.webhooks :: IsDNS1123Subdomain(wh.generateName))
    && RulesAllowed(b.webhooks)
  }

  ghost predicate ConversionsValid(b: Bundle) {
    && (b.installModes == {ALL_NAMESPACES} || forall wh <- b.webhooks :: wh.kind != CONVERSION)
    && Distinct(ConversionRefs(b.webhooks))
    && (forall crd <- ConversionRefs(b.webhooks) :: crd in b.ownedCrds)
  }

  /** What a bundle satisfies when no validator reports anything. */
  ghost predicate Validated(kinds: Kinds, b: Bundle) {
    NamesValid(b) && WebhooksValid(b) && ConversionsValid(b) && forall o <- b.others :: o.kind in kinds.supported
  }

  method ValidateNames(b: Bundle) returns (ok: bool)
    ensures ok <==> NamesValid(b)
  {
    var duplicateDeployments := CheckDeploymentSpecUniqueness(b);
    var invalidDeployments := CheckDeploymentNameIsDNS1123SubDomain(b);
    var duplicateCrds := CheckCRDResourceUniqueness(b);
    var missingCrds := CheckOwnedCRDExistence(b);
    ok := b.packageName != "" && duplicateDeployments == [] && invalidDeployments == [] && duplicateCrds == [] &&
      missingCrds == [];
  }

  method ValidateWebhooks(b: Bundle) returns (ok: bool)
    ensures ok <==> WebhooksValid(b)
  {
    var dangling := CheckWebhookDeploymentReferentialIntegrity(b);
    var duplicates := CheckWebhookNameUniqueness(b);
    var invalid := CheckWebhookNameIsDNS1123SubDomain(b);
    var forbidden := CheckWebhookRules(b);
    ok := dangling == [] && duplicates == [] && invalid == [] && forbidden == [];
  }

  method ValidateConversions(b: Bundle) returns (ok: bool)
    ensures ok <==> ConversionsValid(b)
  {
    var unsupported := CheckConversionWebhookSupport(b);
    var shared := CheckConversionWebhookCRDReferenceUniqueness(b);
    var unowned := CheckConversionWebhooksReferenceOwnedCRDs(b);
    ok := unsupported == [] && shared == [] && unowned == [];
  }

  /** BundleValidator.Validate: a bundle passes when none of the validators reports anything. */
  method Validate(kinds: Kinds, b: Bundle) returns (ok: bool)
    ensures ok <==> Validated(kinds, b)
  {
    var names := ValidateNames(b);
    var webhooks := ValidateWebhooks(b);
    var conversions := ValidateConversions(b);
    var unsupported := CheckObjectSupport(kinds, b);
    ok := names && webhooks && conversions && unsupported == [];
  }
}
