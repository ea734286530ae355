/** The generators for CRDs, webhook configurations, services and additional resources, and the
    references between what they emit. */
module Generators {
  import opened Wrappers
  import opened Text
  import opened Seqs
  import opened Ordering
  import opened Names
  import opened Validators

  /** Where the API server finds a webhook. */
  datatype Client = Client(namespace: string, service: string, path: Option<string>, port: int)

  /** `namespaces` is the namespace selector, None for one that matches all. */
  datatype WebhookConfig = WebhookConfig(
    kind: string,
    name: string,
    client: Client,
    namespaces: Option<seq<string>>,
    rules: seq<WebhookRule>,
    rest: string)

  /** A CRD of the bundle; `conversion` replaces its own conversion settings. */
  datatype EmittedCrd = EmittedCrd(crd: Crd, conversion: Option<Client>)

  /** The port's name is its number. */
  datatype Port = Port(port: int, target: Target)
  datatype Service = Service(name: string, namespace: string, ports: seq<Port>, selector: map<string, string>)

  function TrimDash(s: string): string {
    if s != "" && s[|s| - 1] == '-' then s[..|s| - 1] else s
  }

  // ---------------------------------------------------------------- webhook configurations

  function ClientOf(wh: Webhook, install: string): Client {
    Client(install, WebhookServiceName(wh.deployment), wh.path, wh.containerPort)
  }

  function NamespaceSelector(targets: seq<string>): Option<seq<string>> {
    if targets != [] && "" !in targets then Some(targets) else None
  }

  function ConfigOf(wh: Webhook, install: string, targets: seq<string>): WebhookConfig {
    WebhookConfig(wh.kind, TrimDash(wh.generateName), ClientOf(wh, install), NamespaceSelector(targets), wh.rules,
      wh.rest)
  }

  function OfKind(whs: seq<Webhook>, kind: string): seq<Webhook> {
    if whs == [] then []
    else OfKind(whs[..|whs| - 1], kind) + if whs[|whs| - 1].kind == kind then [whs[|whs| - 1]] else []
  }

  ghost predicate ConfigsOf(b: Bundle, kind: string, install: string, targets: seq<string>,
                            configs: seq<WebhookConfig>) {
    && |configs| == |OfKind(b.webhooks, kind)|
    && forall i | 0 <= i < |configs| :: configs[i] == ConfigOf(OfKind(b.webhooks, kind)[i], install, targets)
  }

  /** Both admission webhook generators: one configuration per webhook of the kind, in order. */
  method GenerateWebhookConfigs(b: Bundle, kind: string, install: string, targets: seq<string>)
    returns (configs: seq<WebhookConfig>)
    ensures ConfigsOf(b, kind, install, targets, configs)
  {
    configs := [];
    for i := 0 to |b.webhooks|
      invariant |configs| == |OfKind(b.webhooks[..i], kind)|
      invariant forall k | 0 <= k < |configs| ::
                configs[k] == ConfigOf(OfKind(b.webhooks[..i], kind)[k], install, targets)
    {
      assert b.webhooks[..i + 1][..i] == b.webhooks[..i];
      if b.webhooks[i].kind == kind {
        configs := configs + [ConfigOf(b.webhooks[i], install, targets)];
      }
    }
    assert b.webhooks[..|b.webhooks|] == b.webhooks;
  }

  lemma {:induction false} InOfKind(whs: seq<Webhook>, kind: string, wh: Webhook)
    ensures wh in OfKind(whs, kind) <==> wh in whs && wh.kind == kind
  {
    if whs != [] {
      var n := |whs| - 1;
      InOfKind(whs[..n], kind, wh);
      assert whs == whs[..n] + [whs[n]];
    }
  }

  /** A valid name does not end in a dash, so trimming leaves it alone. */
  lemma ValidNameKept(s: string)
    requires IsDNS1123Subdomain(s)
    ensures TrimDash(s) == s
  {
    var parts := Split(s, '.');
    JoinSplit(s, '.');
    var last := parts[|parts| - 1];
    assert last in parts && IsLabelPart(last);
    if |parts| > 1 {
      JoinLast(parts, '.');
    }
    assert s[|s| - 1] == last[|last| - 1];
  }

  lemma {:induction false} DistinctOfKind(whs: seq<Webhook>, kind: string)
    requires Distinct(WebhookKeys(whs))
    ensures forall i, j | 0 <= i < j < |OfKind(whs, kind)| ::
            OfKind(whs, kind)[i].generateName != OfKind(whs, kind)[j].generateName
  {
    if whs != [] {
      var n := |whs| - 1;
      var init, last := whs[..n], whs[n];
      assert WebhookKeys(init) == WebhookKeys(whs)[..n];
      DistinctOfKind(init, kind);
      if last.kind == kind {
        forall i | 0 <= i < |OfKind(init, kind)| ensures OfKind(init, kind)[i].generateName != last.generateName {
          var wh := OfKind(init, kind)[i];
          InOfKind(init, kind, wh);
          assert wh in init;
          var k :| 0 <= k < n && whs[k] == wh;
          assert WebhookKeys(whs)[k] == KeyOf(wh) && WebhookKeys(whs)[n] == KeyOf(last);
        }
      }
    }
  }

  /** Main result: the emitted webhook configurations of one kind have different names. */
  lemma ConfigNamesDiffer(b: Bundle, kind: string, install: string, targets: seq<string>, configs: seq<WebhookConfig>,
                          i: nat, j: nat)
    requires WebhooksValid(b) && ConfigsOf(b, kind, install, targets, configs) && i < j < |configs|
    ensures configs[i].name != configs[j].name
  {
    var whs := OfKind(b.webhooks, kind);
    DistinctOfKind(b.webhooks, kind);
    assert whs[i] in whs && whs[j] in whs;
    InOfKind(b.webhooks, kind, whs[i]);
    InOfKind(b.webhooks, kind, whs[j]);
    ValidNameKept(whs[i].generateName);
    ValidNameKept(whs[j].generateName);
  }

  // ---------------------------------------------------------------- services

  /** getWebhookServicePort. */
  function PortOf(wh: Webhook): Port {
    var port := if wh.containerPort > 0 then wh.containerPort else 443;
    Port(port, if wh.targetPort.Some? then wh.targetPort.value else Number(port))
  }

  ghost predicate Serves(b: Bundle, deployment: string, p: Port) {
    exists wh <- b.webhooks :: wh.deployment == deployment && PortOf(wh) == p
  }

  predicate HasWebhooks(b: Bundle, deployment: string) {
    exists wh <- b.webhooks :: wh.deployment == deployment
  }

  const MAX_INT := 0x7FFF_FFFF_FFFF_FFFF

  predicate AllDigits(s: string) {
    forall i | 0 <= i < |s| :: '0' <= s[i] <= '9'
  }

  function DigitsValue(s: string): int
    requires AllDigits(s)
  {
    if s == "" then 0
    else 10 * DigitsValue(s[..|s| - 1]) + (s[|s| - 1] - '0') as int
  }

  /** strconv.Atoi with its error dropped: 0 for a text that is no number, the nearest 64-bit integer for
      one out of range. */
  function Atoi(s: string): int {
    var digits := if s != "" && s[0] in "+-" then s[1..] else s;
    if digits == "" || !AllDigits(digits) then 0
    else
      var n := DigitsValue(digits);
      if s[0] == '-' then (if n > MAX_INT then -MAX_INT - 1 else -n) else if n > MAX_INT then MAX_INT else n
  }

  function IntValue(t: Target): int {
    match t
    case Number(n) => n
    case Named(name) => Atoi(name)
  }

  function PortOrder(a: Port, b: Port): int {
    if a.port != b.port then a.port - b.port else IntValue(a.target) - IntValue(b.target)
  }

  /** s is the service of deployment d: the ports of its webhooks, each once, in order. */
  ghost predicate IsServiceOf(b: Bundle, install: string, d: DeploymentSpec, s: Service) {
    && s.name == WebhookServiceName(d.name) && s.namespace == install && s.selector == d.selector
    && (forall p :: p in s.ports <==> Serves(b, d.name, p))
    && Distinct(s.ports) && SortedBy(s.ports, PortOrder)
  }

  function Served(b: Bundle, ds: seq<DeploymentSpec>): seq<DeploymentSpec> {
    if ds == [] then []
    else Served(b, ds[..|ds| - 1]) + if HasWebhooks(b, ds[|ds| - 1].name) then [ds[|ds| - 1]] else []
  }

  /** The services: one per deployment that has webhooks, in the order of the deployments. */
  ghost predicate ServicesOf(b: Bundle, install: string, services: seq<Service>) {
    && |services| == |Served(b, b.deployments)|
    && forall i | 0 <= i < |services| :: IsServiceOf(b, install, Served(b, b.deployments)[i], services[i])
  }

  method CollectPorts(b: Bundle) returns (ports: map<string, set<Port>>)
    ensures forall d :: d in ports <==> HasWebhooks(b, d)
    ensures forall d <- ports :: forall p :: p in ports[d] <==> Serves(b, d, p)
  {
    ports := map[];
    for i := 0 to |b.webhooks|
      invariant forall d :: d in ports <==> exists wh <- b.webhooks[..i] :: wh.deployment == d
      invariant forall d <- ports ::
                forall p :: p in ports[d] <==> exists wh <- b.webhooks[..i] :: wh.deployment == d && PortOf(wh) == p
    {
      var wh := b.webhooks[i];
      assert b.webhooks[..i + 1] == b.webhooks[..i] + [wh];
      ports := ports[wh.deployment := (if wh.deployment in ports then ports[wh.deployment] else {}) + {PortOf(wh)}];
    }
    assert b.webhooks[..|b.webhooks|] == b.webhooks;
  }

  lemma PortComparator()
    ensures Comparator(PortOrder)
  {
  }

  method GenerateServices(b: Bundle, install: string) returns (services: seq<Service>)
    ensures ServicesOf(b, install, services)
  {
    var ports := CollectPorts(b);
    services := [];
    for i := 0 to |b.deployments|
      invariant |services| == |Served(b, b.deployments[..i])|
      invariant forall k | 0 <= k < |services| :: IsServiceOf(b, install, Served(b, b.deployments[..i])[k], services[k])
    {
      var d := b.deployments[i];
      assert b.deployments[..i + 1][..i] == b.deployments[..i];
      if d.name in ports {
        var sorted := SortPorts(ports[d.name]);
        services := services + [Service(WebhookServiceName(d.name), install, sorted, d.selector)];
      }
    }
    assert b.deployments[..|b.deployments|] == b.deployments;
  }

  method SortPorts(ports: set<Port>) returns (sorted: seq<Port>)
    ensures Distinct(sorted) && SortedBy(sorted, PortOrder) && forall p :: p in sorted <==> p in ports
  {
    var some := Enumerate(ports);
    PortComparator();
    sorted := SortFunc(some, PortOrder);
    SameMultisetDistinct(some, sorted);
  }

  lemma {:induction false} InServed(b: Bundle, ds: seq<DeploymentSpec>, d: DeploymentSpec)
    ensures d in Served(b, ds) <==> d in ds && HasWebhooks(b, d.name)
  {
    if ds != [] {
      var n := |ds| - 1;
      InServed(b, ds[..n], d);
      assert ds == ds[..n] + [ds[n]];
    }
  }

  /** Main result: every webhook of a valid bundle, admission or conversion, has the service its client
      configuration names, and that service has the port the configuration names exactly when the
      webhook gives a positive container port. */
  lemma ServiceEmitted(b: Bundle, install: string, services: seq<Service>, wh: Webhook) returns (s: Service)
    requires WebhooksValid(b) && ServicesOf(b, install, services) && wh in b.webhooks
    ensures s in services && s.name == ClientOf(wh, install).service && s.namespace == ClientOf(wh, install).namespace
    ensures PortOf(wh) in s.ports
    ensures (exists p <- s.ports :: p.port == ClientOf(wh, install).port) <==> wh.containerPort > 0
  {
    assert wh.deployment in DeploymentNames(b);
    var i :| 0 <= i < |b.deployments| && b.deployments[i].name == wh.deployment;
    var d := b.deployments[i];
    InServed(b, b.deployments, d);
    var k :| 0 <= k < |services| && Served(b, b.deployments)[k] == d;
    s := services[k];
    assert IsServiceOf(b, install, d, s);
    assert Serves(b, d.name, PortOf(wh));
    forall p <- s.ports ensures p.port > 0 {
      assert Serves(b, d.name, p);
    }
  }

  /** In a bundle that passes every validator, a webhook without a positive container port names port 0, which
      its service does not have. */
  lemma PortZeroUnserved(kinds: Kinds, install: string, services: seq<Service>)
    requires ServicesOf(TwinBundle(), install, services)
    ensures Validated(kinds, TwinBundle())
    ensures |services| == 2 && services[0].name == ClientOf(TwinBundle().webhooks[0], install).service
    ensures forall p <- services[0].ports :: p.port != ClientOf(TwinBundle().webhooks[0], install).port
  {
    var b := TwinBundle();
    TwinValidated(kinds);
    TwinServed();
    assert IsServiceOf(b, install, b.deployments[0], services[0]);
    forall p <- services[0].ports ensures p.port > 0 {
      assert Serves(b, b.deployments[0].name, p);
    }
  }

  /** The ports of a service have different names exactly when its webhooks that use one port agree on the
      target; otherwise the API server refuses the service. */
  lemma PortNamesDiffer(b: Bundle, install: string, d: DeploymentSpec, s: Service)
    requires IsServiceOf(b, install, d, s)
    ensures (forall i, j | 0 <= i < j < |s.ports| :: s.ports[i].port != s.ports[j].port) <==>
            forall v, w | v in b.webhooks && w in b.webhooks && v.deployment == d.name && w.deployment == d.name ::
              PortOf(v).port == PortOf(w).port ==> PortOf(v) == PortOf(w)
  {
    if forall i, j | 0 <= i < j < |s.ports| :: s.ports[i].port != s.ports[j].port {
      forall v, w | v in b.webhooks && w in b.webhooks && v.deployment == d.name && w.deployment == d.name &&
        PortOf(v).port == PortOf(w).port
        ensures PortOf(v) == PortOf(w)
      {
        assert Serves(b, d.name, PortOf(v)) && Serves(b, d.name, PortOf(w));
        var i: nat :| i < |s.ports| && s.ports[i] == PortOf(v);
        var j: nat :| j < |s.ports| && s.ports[j] == PortOf(w);
      }
    } else {
      var i, j :| 0 <= i < j < |s.ports| && s.ports[i].port == s.ports[j].port;
      assert s.ports[i] in s.ports && s.ports[j] in s.ports;
      assert Serves(b, d.name, s.ports[i]) && Serves(b, d.name, s.ports[j]);
    }
  }

  /** One deployment, and two webhooks that disagree on the target of its default port. */
  function ClashBundle(): Bundle {
    Bundle("p", [DeploymentSpec("a-b", map[])],
           [SampleWebhook("v", "a-b").(targetPort := Some(Number(1))),
            SampleWebhook("w", "a-b").(targetPort := Some(Number(2)))], [], [], {ALL_NAMESPACES}, [])
  }

  lemma ClashWebhooksValid()
    ensures WebhooksValid(ClashBundle())
  {
    var b := ClashBundle();
    TwinNames();
    assert DeploymentNames(b) == ["a-b"] && "a-b" in DeploymentNames(b);
    assert WebhookKeys(b.webhooks) == [(VALIDATING, "v"), (VALIDATING, "w")] && "v"[0] != "w"[0];
  }

  lemma ClashConversionsValid()
    ensures ConversionsValid(ClashBundle())
  {
    var whs := ClashBundle().webhooks;
    assert |VALIDATING| != |CONVERSION|;
    assert whs[..1][..0] == [] && ConversionRefs(whs[..1]) == [];
  }

  lemma ClashValidated(kinds: Kinds)
    ensures Validated(kinds, ClashBundle())
  {
    var b := ClashBundle();
    TwinNames();
    assert DeploymentNames(b) == ["a-b"] && CrdNames(b) == [];
    ClashWebhooksValid();
    ClashConversionsValid();
  }

  lemma ClashServed()
    ensures Served(ClashBundle(), ClashBundle().deployments) == ClashBundle().deployments
  {
    var b := ClashBundle();
    assert b.webhooks[0].deployment == b.deployments[0].name;
    assert b.deployments[..0] == [];
  }

  /** A bundle that passes every validator and gives its only service two ports of one name. */
  lemma PortNamesClash(kinds: Kinds, install: string, services: seq<Service>)
    requires ServicesOf(ClashBundle(), install, services)
    ensures Validated(kinds, ClashBundle()) && |services| == 1
    ensures exists i, j :: 0 <= i < j < |services[0].ports| && services[0].ports[i].port == services[0].ports[j].port
  {
    var b := ClashBundle();
    ClashValidated(kinds);
    ClashServed();
    assert IsServiceOf(b, install, b.deployments[0], services[0]);
    PortNamesDiffer(b, install, b.deployments[0], services[0]);
    var v, w := b.webhooks[0], b.webhooks[1];
    assert PortOf(v) == Port(443, Number(1)) && PortOf(w) == Port(443, Number(2));
  }

  /** The client configuration leads to an emitted service, and to one of its ports where it names a
      positive one. */
  ghost predicate Resolves(services: seq<Service>, c: Client) {
    exists s <- services ::
      s.name == c.service && s.namespace == c.namespace && (c.port > 0 ==> exists p <- s.ports :: p.port == c.port)
  }

  /** Main result: every emitted webhook configuration of a valid bundle resolves. */
  lemma ConfigsResolve(b: Bundle, kind: string, install: string, targets: seq<string>, configs: seq<WebhookConfig>,
                       services: seq<Service>, i: nat)
    requires WebhooksValid(b) && ConfigsOf(b, kind, install, targets, configs) && ServicesOf(b, install, services) &&
             i < |configs|
    ensures Resolves(services, configs[i].client)
  {
    var wh := OfKind(b.webhooks, kind)[i];
    InOfKind(b.webhooks, kind, wh);
    var s := ServiceEmitted(b, install, services, wh);
  }

  /** Two different deployments of a bundle may be given one service name: exactly when what is kept
      of their names differs only in dots and dashes, as in a.b and a-b. */
  lemma TwinServices(b: Bundle, install: string, services: seq<Service>, i: nat, j: nat)
    requires ServicesOf(b, install, services) && i < |services| && j < |services|
    ensures services[i].name == services[j].name <==>
            SameButDots(Kept(Served(b, b.deployments)[i].name), Kept(Served(b, b.deployments)[j].name))
  {
    ServiceNamesCollide(Served(b, b.deployments)[i].name, Served(b, b.deployments)[j].name);
  }

  function SampleWebhook(name: string, deployment: string): Webhook {
    Webhook(VALIDATING, name, deployment, 0, None, None, [], [], "")
  }

  /** Two deployments whose names differ in a dot and a dash, and a webhook for each. */
  function TwinBundle(): Bundle {
    Bundle("p", [DeploymentSpec("a.b", map["app" := "dot"]), DeploymentSpec("a-b", map["app" := "dash"])],
           [SampleWebhook("v", "a.b"), SampleWebhook("w", "a-b")], [], [], {ALL_NAMESPACES}, [])
  }

  lemma TwinNames()
    ensures IsDNS1123Subdomain("a.b") && IsDNS1123Subdomain("a-b") && IsDNS1123Subdomain("v") && IsDNS1123Subdomain("w")
  {
    SplitOne("a-b", '.');
    SplitOne("v", '.');
    SplitOne("w", '.');
    SplitFirst("a", "b", '.');
    SplitOne("b", '.');
    assert "a" + ['.'] + "b" == "a.b";
    assert IsLabelPart("a") && IsLabelPart("b") && IsLabelPart("a-b") && IsLabelPart("v") && IsLabelPart("w");
  }

  lemma TwinNamesValid()
    ensures NamesValid(TwinBundle())
  {
    var b := TwinBundle();
    TwinNames();
    assert DeploymentNames(b) == ["a.b", "a-b"] && "a.b"[1] != "a-b"[1];
    assert CrdNames(b) == [];
  }

  lemma TwinWebhooksValid()
    ensures WebhooksValid(TwinBundle())
  {
    var b := TwinBundle();
    TwinNames();
    assert DeploymentNames(b) == ["a.b", "a-b"];
    assert "a.b" in DeploymentNames(b) && "a-b" in DeploymentNames(b);
    assert WebhookKeys(b.webhooks) == [(VALIDATING, "v"), (VALIDATING, "w")] && "v"[0] != "w"[0];
  }

  lemma TwinConversionsValid()
    ensures ConversionsValid(TwinBundle())
  {
    var b := TwinBundle();
    assert |VALIDATING| != |CONVERSION|;
    var whs := b.webhooks;
    assert whs[..1][..0] == [] && ConversionRefs(whs[..1]) == [];
  }

  lemma TwinValidated(kinds: Kinds)
    ensures Validated(kinds, TwinBundle())
  {
    TwinNamesValid();
    TwinWebhooksValid();
    TwinConversionsValid();
  }

  lemma TwinServed()
    ensures Served(TwinBundle(), TwinBundle().deployments) == TwinBundle().deployments
  {
    var b := TwinBundle();
    var d, e := b.deployments[0], b.deployments[1];
    assert b.webhooks[0].deployment == d.name && b.webhooks[1].deployment == e.name;
    assert b.deployments[..1] == [d] && [d][..0] == [];
    assert Served(b, [d]) == [] + [d];
  }

  lemma TwinSelectors()
    ensures TwinBundle().deployments[0].selector != TwinBundle().deployments[1].selector
  {
    var b := TwinBundle();
    assert b.deployments[0].selector["app"] == "dot" && b.deployments[1].selector["app"] == "dash" &&
      |"dot"| != |"dash"|;
  }

  /** A validated bundle whose two webhooks, of two deployments with different selectors, are given one
      service key: whichever of the two services is stored last takes both webhooks. */
  lemma TwinServicesHappen(kinds: Kinds, install: string, services: seq<Service>)
    requires ServicesOf(TwinBundle(), install, services)
    ensures Validated(kinds, TwinBundle())
    ensures |services| == 2 && services[0].name == services[1].name && services[0].namespace == services[1].namespace
    ensures services[0].selector != services[1].selector
  {
    var b := TwinBundle();
    TwinValidated(kinds);
    TwinServed();
    TwinServices(b, install, services, 0, 1);
    assert Kept("a.b") == "a.b" && Kept("a-b") == "a-b" && SameButDots("a.b", "a-b");
    assert IsServiceOf(b, install, b.deployments[0], services[0]) &&
      IsServiceOf(b, install, b.deployments[1], services[1]);
    TwinSelectors();
  }

  // ---------------------------------------------------------------- CRDs

  function ConversionClient(wh: Webhook, install: string): Client {
    Client(install, WebhookServiceName(wh.deployment), Some(if wh.path.Some? then wh.path.value else "/"),
      wh.containerPort)
  }

  ghost predicate Converts(whs: seq<Webhook>, crd: string, wh: Webhook) {
    wh in whs && wh.kind == CONVERSION && crd in wh.conversionCrds
  }

  /** The map from CRD names to the conversion webhook that names them, unless two do. */
  ghost predicate ConversionMap(whs: seq<Webhook>, refs: seq<string>, byCrd: map<string, Webhook>) {
    && Distinct(refs)
    && (forall crd :: crd in byCrd <==> crd in refs)
    && forall crd <- byCrd :: Converts(whs, crd, byCrd[crd])
  }

  method CollectOne(whs: seq<Webhook>, ghost refs: seq<string>, byCrd: map<string, Webhook>, wh: Webhook)
    returns (r: Option<map<string, Webhook>>)
    requires ConversionMap(whs, refs, byCrd) && wh in whs && wh.kind == CONVERSION
    ensures r.None? <==> !Distinct(refs + wh.conversionCrds)
    ensures r.Some? ==> ConversionMap(whs, refs + wh.conversionCrds, r.value)
  {
    var next := byCrd;
    assert refs + wh.conversionCrds[..0] == refs;
    for j := 0 to |wh.conversionCrds|
      invariant ConversionMap(whs, refs + wh.conversionCrds[..j], next)
    {
      var crd := wh.conversionCrds[j];
      ghost var before := refs + wh.conversionCrds[..j];
      assert refs + wh.conversionCrds[..j + 1] == before + [crd];
      if crd in next {
        ghost var k :| 0 <= k < |before| && before[k] == crd;
        assert (refs + wh.conversionCrds)[k] == crd && (refs + wh.conversionCrds)[|before|] == crd;
        return None;
      }
      DistinctAppend(before, [crd]);
      next := next[crd := wh];
    }
    assert wh.conversionCrds[..|wh.conversionCrds|] == wh.conversionCrds;
    r := Some(next);
  }

  method CollectConversions(b: Bundle) returns (r: Option<map<string, Webhook>>)
    ensures r.None? <==> !Distinct(ConversionRefs(b.webhooks))
    ensures r.Some? ==> ConversionMap(b.webhooks, ConversionRefs(b.webhooks), r.value)
  {
    var byCrd: map<string, Webhook> := map[];
    for i := 0 to |b.webhooks|
      invariant ConversionMap(b.webhooks, ConversionRefs(b.webhooks[..i]), byCrd)
    {
      RefsPrefix(b.webhooks, i + 1);
      assert b.webhooks[..i + 1][..i] == b.webhooks[..i];
      if b.webhooks[i].kind == CONVERSION {
        var next := CollectOne(b.webhooks, ConversionRefs(b.webhooks[..i]), byCrd, b.webhooks[i]);
        if next.None? {
          return None;
        }
        byCrd := next.value;
      }
    }
    assert b.webhooks[..|b.webhooks|] == b.webhooks;
    r := Some(byCrd);
  }

  lemma {:induction false} RefsPrefix(whs: seq<Webhook>, i: nat)
    requires i <= |whs|
    ensures ConversionRefs(whs[..i]) <= ConversionRefs(whs)
    ensures !Distinct(ConversionRefs(whs[..i])) ==> !Distinct(ConversionRefs(whs))
  {
    if i == |whs| {
      assert whs[..i] == whs;
    } else {
      RefsPrefix(whs[..|whs| - 1], i);
      assert whs[..|whs| - 1][..i] == whs[..i];
    }
    var front, all := ConversionRefs(whs[..i]), ConversionRefs(whs);
    assert forall k | 0 <= k < |front| :: front[k] == all[k];
  }

  /** BundleCRDGenerator: None where it returns an error. */
  method GenerateCrds(b: Bundle, install: string) returns (r: Option<seq<EmittedCrd>>)
    ensures r.None? <==>
            !Distinct(ConversionRefs(b.webhooks)) || exists c <- b.crds ::
              c.preserveUnknownFields && c.name in ConversionRefs(b.webhooks)
    ensures r.Some? ==> CrdsOf(b, install, r.value)
  {
    var byCrd := CollectConversions(b);
    if byCrd.None? {
      return None;
    }
    var objs: seq<EmittedCrd> := [];
    for i := 0 to |b.crds|
      invariant |objs| == i && forall k | 0 <= k < i :: IsCrdOf(b, install, b.crds[k], objs[k])
      invariant forall c <- b.crds[..i] :: !(c.preserveUnknownFields && c.name in ConversionRefs(b.webhooks))
    {
      var crd := b.crds[i];
      assert b.crds[..i + 1] == b.crds[..i] + [crd];
      if crd.name in byCrd.value {
        if crd.preserveUnknownFields {
          return None;
        }
        objs := objs + [EmittedCrd(crd, Some(ConversionClient(byCrd.value[crd.name], install)))];
      } else {
        objs := objs + [EmittedCrd(crd, None)];
      }
    }
    assert b.crds[..|b.crds|] == b.crds;
    r := Some(objs);
  }

  /** A CRD no conversion webhook names is emitted as it is; another one with the client of a webhook
      that names it. */
  ghost predicate IsCrdOf(b: Bundle, install: string, crd: Crd, e: EmittedCrd) {
    && e.crd == crd
    && (e.conversion.Some? <==> crd.name in ConversionRefs(b.webhooks))
    && (e.conversion.Some? ==>
          exists wh :: Converts(b.webhooks, crd.name, wh) && e.conversion.value == ConversionClient(wh, install))
  }

  ghost predicate CrdsOf(b: Bundle, install: string, crds: seq<EmittedCrd>) {
    |crds| == |b.crds| && forall i | 0 <= i < |crds| :: IsCrdOf(b, install, b.crds[i], crds[i])
  }

  /** Main result: every CRD a conversion webhook of a valid bundle names is emitted, once, with the
      conversion of that webhook, whose service and port are those of an emitted service. */
  lemma ConversionClosed(b: Bundle, install: string, crds: seq<EmittedCrd>, wh: Webhook, name: string) returns (i: nat)
    requires NamesValid(b) && ConversionsValid(b) && CrdsOf(b, install, crds) && Converts(b.webhooks, name, wh)
    ensures i < |crds| && crds[i].crd.name == name && crds[i].conversion == Some(ConversionClient(wh, install))
    ensures forall j | 0 <= j < |crds| && crds[j].crd.name == name :: j == i
  {
    InConversionRefs(b.webhooks, name);
    assert name in b.ownedCrds && name in CrdNames(b);
    i :| 0 <= i < |b.crds| && b.crds[i].name == name;
    assert IsCrdOf(b, install, b.crds[i], crds[i]);
    var other :| Converts(b.webhooks, name, other) && crds[i].conversion.value == ConversionClient(other, install);
    OneConverter(b.webhooks, name, wh, other);
    forall j | 0 <= j < |crds| && crds[j].crd.name == name ensures j == i {
      assert IsCrdOf(b, install, b.crds[j], crds[j]);
      assert CrdNames(b)[j] == CrdNames(b)[i];
    }
  }

  /** Main result: every conversion set on an emitted CRD of a valid bundle resolves. */
  lemma ConversionsResolve(b: Bundle, install: string, crds: seq<EmittedCrd>, services: seq<Service>, i: nat)
    requires WebhooksValid(b) && CrdsOf(b, install, crds) && ServicesOf(b, install, services)
    requires i < |crds| && crds[i].conversion.Some?
    ensures Resolves(services, crds[i].conversion.value)
  {
    assert IsCrdOf(b, install, b.crds[i], crds[i]);
    var wh :| Converts(b.webhooks, b.crds[i].name, wh) && crds[i].conversion.value == ConversionClient(wh, install);
    var s := ServiceEmitted(b, install, services, wh);
  }

  /** Where no CRD name repeats, one webhook names it. */
  lemma {:induction false} OneConverter(whs: seq<Webhook>, crd: string, wh: Webhook, other: Webhook)
    requires Distinct(ConversionRefs(whs)) && Converts(whs, crd, wh) && Converts(whs, crd, other)
    ensures wh == other
  {
    var n := |whs| - 1;
    var init, last := whs[..n], whs[n];
    assert whs == init + [last];
    RefsPrefix(whs, n);
    var front, all := ConversionRefs(init), ConversionRefs(whs);
    assert Distinct(front) by {
      assert forall k | 0 <= k < |front| :: front[k] == all[k];
    }
    if wh in init && other in init {
      OneConverter(init, crd, wh, other);
    } else if wh != other {
      InConversionRefs(init, crd);
      assert last.kind == CONVERSION && all == front + last.conversionCrds;
      NotInBoth(front, last.conversionCrds, crd);
    }
  }

  lemma NotInBoth<T>(s: seq<T>, t: seq<T>, x: T)
    requires Distinct(s + t) && x in s
    ensures x !in t
  {
    var i :| 0 <= i < |s| && s[i] == x;
    forall k | 0 <= k < |t| ensures t[k] != x {
      assert (s + t)[i] == x && (s + t)[|s| + k] == t[k];
    }
  }

  // ---------------------------------------------------------------- additional resources

  /** BundleAdditionalResourcesGenerator: None for a kind registry+v1 does not support. */
  method GenerateAdditional(kinds: Kinds, b: Bundle, install: string) returns (r: Option<seq<Resource>>)
    ensures r.None? <==> exists o <- b.others :: o.kind !in kinds.supported
    ensures r.Some? ==> |r.value| == |b.others| && forall i | 0 <= i < |b.others| ::
              r.value[i] == if b.others[i].kind in kinds.namespaced
                then b.others[i].(namespace := install) else b.others[i]
  {
    var objs: seq<Resource> := [];
    for i := 0 to |b.others|
      invariant forall o <- b.others[..i] :: o.kind in kinds.supported
      invariant |objs| == i && forall k | 0 <= k < i ::
                  objs[k] == if b.others[k].kind in kinds.namespaced
                    then b.others[k].(namespace := install) else b.others[k]
    {
      var o := b.others[i];
      assert b.others[..i + 1] == b.others[..i] + [o];
      if o.kind !in kinds.supported {
        return None;
      }
      objs := objs + [if o.kind in kinds.namespaced then o.(namespace := install) else o];
    }
    assert b.others[..|b.others|] == b.others;
    r := Some(objs);
  }

  // ---------------------------------------------------------------- the pipeline

  datatype Rendered = Rendered(
    crds: seq<EmittedCrd>,
    additional: seq<Resource>,
    validating: seq<WebhookConfig>,
    mutating: seq<WebhookConfig>,
    services: seq<Service>)

  /** Validation followed by these generators in their order: None where it returns an error. */
  method Render(kinds: Kinds, b: Bundle, install: string, targets: seq<string>) returns (r: Option<Rendered>)
    ensures r.Some? ==>
              && Validated(kinds, b) && CrdsOf(b, install, r.value.crds) && ServicesOf(b, install, r.value.services)
              && ConfigsOf(b, VALIDATING, install, targets, r.value.validating)
              && ConfigsOf(b, MUTATING, install, targets, r.value.mutating)
    ensures r.None? <==>
            !Validated(kinds, b) || exists c <- b.crds ::
              c.preserveUnknownFields && c.name in ConversionRefs(b.webhooks)
  {
    var ok := Validate(kinds, b);
    if !ok {
      return None;
    }
    var crds := GenerateCrds(b, install);
    if crds.None? {
      return None;
    }
    var additional := GenerateAdditional(kinds, b, install);
    if additional.None? {
      return None;
    }
    var validating := GenerateWebhookConfigs(b, VALIDATING, install, targets);
    var mutating := GenerateWebhookConfigs(b, MUTATING, install, targets);
    var services := GenerateServices(b, install);
    r := Some(Rendered(crds.value, additional.value, validating, mutating, services));
  }

  // ---------------------------------------------------------------- the install namespace

  /** validation.IsDNS1123Label. */
  predicate IsNamespaceName(s: string) {
    |s| <= 63 && IsLabelPart(s)
  }

  /** The suggested-namespace-template annotation: absent, malformed, or a namespace of this name. */
  datatype Template = NoTemplate | Malformed | Template(name: string)

  datatype InstallNamespace = InstallNamespace(name: string, emit: bool)

  /** resolveInstallNamespace: the caller's namespace, else the template's, else the suggested one, else
      the package's; the first that is present decides, and a bad name is an error. */
  method ResolveInstallNamespace(selfManaged: Option<string>, template: Template, suggested: Option<string>,
                                 pkg: string)
    returns (r: Option<InstallNamespace>)
    ensures r.Some? ==> IsNamespaceName(r.value.name) && (r.value.emit <==> selfManaged.None?)
    ensures selfManaged.Some? ==>
            (r.Some? <==> IsNamespaceName(selfManaged.value)) && (r.Some? ==> r.value.name == selfManaged.value)
    ensures selfManaged.None? && template.Malformed? ==> r.None?
    ensures selfManaged.None? && template.Template? ==>
            (r.Some? <==> IsNamespaceName(template.name)) && (r.Some? ==> r.value.name == template.name)
    ensures selfManaged.None? && template.NoTemplate? ==>
              var name := if suggested.Some? then suggested.value else pkg + "-system";
              (r.Some? <==> IsNamespaceName(name)) && (r.Some? ==> r.value.name == name)
  {
    if selfManaged.Some? {
      return if IsNamespaceName(selfManaged.value) then Some(InstallNamespace(selfManaged.value, false)) else None;
    }
    var name: string;
    match template {
      case Malformed => return None;
      case Template(n) => name := n;
      case NoTemplate => name := if suggested.Some? then suggested.value else pkg + "-system";
    }
    r := if IsNamespaceName(name) then Some(InstallNamespace(name, true)) else None;
  }
}
