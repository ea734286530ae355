/** Rewriting a rendered Deployment in place: certificate volumes and their mounts, and the merge of
    configured environment variables into every container. */
module Deployments {

  datatype Source = Secret(name: string, items: seq<(string, string)>) | OtherSource(text: string)
  datatype Volume = Volume(name: string, source: Source)
  datatype Mount = Mount(name: string, path: string, options: string)
  datatype EnvVar = EnvVar(name: string, value: string)
  datatype Container = Container(name: string, mounts: seq<Mount>, env: seq<EnvVar>)

  datatype CertConfig = CertConfig(name: string, path: string, certPath: string, keyPath: string)
  datatype SecretInfo = SecretInfo(secret: string, certificateKey: string, privateKeyKey: string)

  const CERT_CONFIGS: seq<CertConfig> := [
    CertConfig("webhook-cert", "/tmp/k8s-webhook-server/serving-certs", "tls.crt", "tls.key"),
    CertConfig("apiservice-cert", "/apiserver.local.config/certificates", "apiserver.crt", "apiserver.key")]

  /** The pod a deployment describes, as a value. */
  datatype Pod = Pod(volumes: seq<Volume>, containers: seq<Container>)

  // ---------------------------------------------------------------- certificate volumes

  function CertVolume(c: CertConfig, secret: SecretInfo): Volume {
    Volume(c.name, Secret(secret.secret, [(secret.certificateKey, c.certPath), (secret.privateKeyKey, c.keyPath)]))
  }

  function CertVolumes(secret: SecretInfo): seq<Volume> {
    [CertVolume(CERT_CONFIGS[0], secret), CertVolume(CERT_CONFIGS[1], secret)]
  }

  function CertMounts(): seq<Mount> {
    [Mount(CERT_CONFIGS[0].name, CERT_CONFIGS[0].path, ""), Mount(CERT_CONFIGS[1].name, CERT_CONFIGS[1].path, "")]
  }

  predicate ProtectedName(name: string) {
    exists c <- CERT_CONFIGS :: c.name == name
  }

  predicate ProtectedPath(path: string) {
    exists c <- CERT_CONFIGS :: c.path == path
  }

  /** Some container mounts the volume at a protected path. */
  ghost predicate MountedProtected(containers: seq<Container>, name: string) {
    exists c <- containers :: exists m <- c.mounts :: m.name == name && ProtectedPath(m.path)
  }

  /** The names whose volumes and mounts are replaced. */
  ghost predicate Replaced(containers: seq<Container>, name: string) {
    ProtectedName(name) || MountedProtected(containers, name)
  }

  function VolumeName(v: Volume): string { v.name }

  function MountName(m: Mount): string { m.name }

  /** The entries whose names are not doomed, in their order. */
  function Without<T>(xs: seq<T>, name: T -> string, doomed: set<string>): seq<T> {
    if xs == [] then []
    else Without(xs[..|xs| - 1], name, doomed) + if name(xs[|xs| - 1]) in doomed then [] else [xs[|xs| - 1]]
  }

  function Remounted(c: Container, doomed: set<string>): Container {
    c.(mounts := Without(c.mounts, MountName, doomed) + CertMounts())
  }

  /** q is p with its certificate volumes put right: everything that is not replaced stays where it
      was relative to the rest, and the certificate volumes and mounts come last. */
  ghost predicate Rewritten(p: Pod, secret: SecretInfo, doomed: set<string>, q: Pod) {
    && (forall name :: name in doomed <==> Replaced(p.containers, name))
    && q.volumes == Without(p.volumes, VolumeName, doomed) + CertVolumes(secret)
    && |q.containers| == |p.containers|
    && forall i | 0 <= i < |p.containers| :: q.containers[i] == Remounted(p.containers[i], doomed)
  }

  lemma {:induction false} InWithout<T>(xs: seq<T>, name: T -> string, doomed: set<string>, x: T)
    ensures x in Without(xs, name, doomed) <==> x in xs && name(x) !in doomed
  {
    if xs != [] {
      var n := |xs| - 1;
      InWithout(xs[..n], name, doomed, x);
      assert xs == xs[..n] + [xs[n]];
    }
  }

  lemma WithoutLast<T>(xs: seq<T>, x: T, name: T -> string, doomed: set<string>)
    ensures Without(xs + [x], name, doomed) == Without(xs, name, doomed) + if name(x) in doomed then [] else [x]
  {
    assert (xs + [x])[..|xs|] == xs;
  }

  /** Removing some of the same names again, and entries that were appended under them, leaves what
      the first removal left. */
  lemma {:induction false} WithoutAgain<T>(xs: seq<T>, more: seq<T>, name: T -> string, doomed: set<string>,
                                           again: set<string>)
    requires again <= doomed && forall i | 0 <= i < |more| :: name(more[i]) in again
    ensures Without(Without(xs, name, doomed) + more, name, again) == Without(xs, name, doomed)
    decreases |more|, |xs|
  {
    var kept := Without(xs, name, doomed);
    if more != [] {
      var n := |more| - 1;
      WithoutAgain(xs, more[..n], name, doomed, again);
      assert kept + more == (kept + more[..n]) + [more[n]];
      WithoutLast(kept + more[..n], more[n], name, again);
    } else {
      assert kept + [] == kept;
      if xs != [] {
        var init, last := xs[..|xs| - 1], xs[|xs| - 1];
        WithoutAgain(init, [], name, doomed, again);
        assert Without(init, name, doomed) + [] == Without(init, name, doomed);
        if name(last) !in doomed {
          WithoutLast(Without(init, name, doomed), last, name, again);
        }
      }
    }
  }

  /** Main result: afterwards each protected name belongs to exactly one volume, the secret's. */
  lemma OneVolumePerName(p: Pod, secret: SecretInfo, doomed: set<string>, q: Pod, c: CertConfig)
    requires Rewritten(p, secret, doomed, q) && c in CERT_CONFIGS
    ensures Volume(c.name,
            Secret(secret.secret,
              [(secret.certificateKey, c.certPath), (secret.privateKeyKey, c.keyPath)])) in q.volumes
    ensures forall i, j | 0 <= i < |q.volumes| && 0 <= j < |q.volumes| && q.volumes[i].name == c.name &&
            q.volumes[j].name == c.name :: i == j
  {
    var kept := Without(p.volumes, VolumeName, doomed);
    assert ProtectedName(c.name) && c.name in doomed;
    assert q.volumes[|kept|] == CertVolume(CERT_CONFIGS[0], secret) &&
      q.volumes[|kept| + 1] == CertVolume(CERT_CONFIGS[1], secret);
    forall i | 0 <= i < |kept| ensures q.volumes[i].name != c.name {
      InWithout(p.volumes, VolumeName, doomed, kept[i]);
      assert kept[i] in kept;
    }
  }

  /** Main result: afterwards every container mounts each protected path exactly once, from the
      volume of that path. */
  lemma ProtectedPathOnce(p: Pod, secret: SecretInfo, doomed: set<string>, q: Pod, k: nat, c: CertConfig)
    requires Rewritten(p, secret, doomed, q) && k < |q.containers| && c in CERT_CONFIGS
    ensures var ms := q.containers[k].mounts;
            && Mount(c.name, c.path, "") in ms
            && forall i, j | 0 <= i < |ms| && 0 <= j < |ms| && ms[i].path == c.path && ms[j].path == c.path :: i == j
  {
    var was := p.containers[k];
    var kept := Without(was.mounts, MountName, doomed);
    var ms := q.containers[k].mounts;
    assert ms == kept + CertMounts();
    assert ms[|kept|] == CertMounts()[0] && ms[|kept| + 1] == CertMounts()[1];
    assert was in p.containers && ProtectedPath(c.path);
    forall i | 0 <= i < |kept| ensures ms[i].path != c.path {
      var m := ms[i];
      assert m in kept;
      InWithout(was.mounts, MountName, doomed, m);
      assert m.path == c.path ==> MountedProtected(p.containers, m.name);
    }
  }

  /** Every mount names a volume of the pod. */
  ghost predicate MountsResolve(p: Pod) {
    forall c <- p.containers :: forall m <- c.mounts :: exists v <- p.volumes :: v.name == m.name
  }

  /** Main result: mounts that all resolved before all resolve after. */
  lemma KeepsMountsResolving(p: Pod, secret: SecretInfo, doomed: set<string>, q: Pod)
    requires Rewritten(p, secret, doomed, q) && MountsResolve(p)
    ensures MountsResolve(q)
  {
    forall c <- q.containers, m <- c.mounts
      ensures exists v <- q.volumes :: v.name == m.name
    {
      var k :| 0 <= k < |q.containers| && q.containers[k] == c;
      MountResolves(p, secret, doomed, q, k, m);
    }
  }

  lemma MountResolves(p: Pod, secret: SecretInfo, doomed: set<string>, q: Pod, k: nat, m: Mount)
    requires Rewritten(p, secret, doomed, q) && MountsResolve(p) && k < |q.containers| && m in q.containers[k].mounts
    ensures exists v <- q.volumes :: v.name == m.name
  {
    var was := p.containers[k];
    if m in CertMounts() {
      var certs := CertVolumes(secret);
      assert certs[0] in q.volumes && certs[1] in q.volumes;
    } else {
      InWithout(was.mounts, MountName, doomed, m);
      assert was in p.containers;
      var v :| v in p.volumes && v.name == m.name;
      InWithout(p.volumes, VolumeName, doomed, v);
      assert v in q.volumes;
    }
  }

  /** After rewriting, only the certificate mounts are at protected paths. */
  lemma ProtectedAreCerts(p: Pod, secret: SecretInfo, doomed: set<string>, q: Pod, k: nat, m: Mount)
    requires Rewritten(p, secret, doomed, q) && k < |q.containers| && m in q.containers[k].mounts
    requires ProtectedPath(m.path)
    ensures m in CertMounts()
  {
    var was := p.containers[k];
    InWithout(was.mounts, MountName, doomed, m);
    assert was in p.containers;
  }

  lemma MountedAt(containers: seq<Container>, name: string) returns (k: nat, m: Mount)
    requires MountedProtected(containers, name)
    ensures k < |containers| && m in containers[k].mounts && m.name == name && ProtectedPath(m.path)
  {
    var c :| c in containers && exists m <- c.mounts :: m.name == name && ProtectedPath(m.path);
    m :| m in c.mounts && m.name == name && ProtectedPath(m.path);
    k :| k < |containers| && containers[k] == c;
  }

  /** Rewriting leaves nothing for a second rewriting to replace but the certificate entries. */
  lemma ReplacedAgain(p: Pod, secret: SecretInfo, doomed: set<string>, q: Pod, name: string)
    requires Rewritten(p, secret, doomed, q)
    ensures Replaced(q.containers, name) <==> ProtectedName(name)
  {
    if MountedProtected(q.containers, name) {
      var k, m := MountedAt(q.containers, name);
      ProtectedAreCerts(p, secret, doomed, q, k, m);
    }
  }

  /** Main result: a second application changes nothing. */
  lemma RewrittenTwice(p: Pod, secret: SecretInfo, doomed: set<string>, q: Pod, again: set<string>, r: Pod)
    requires Rewritten(p, secret, doomed, q) && Rewritten(q, secret, again, r)
    ensures r == q
  {
    forall name ensures name in again <==> ProtectedName(name) {
      ReplacedAgain(p, secret, doomed, q, name);
    }
    assert CERT_CONFIGS[0] in CERT_CONFIGS && CERT_CONFIGS[1] in CERT_CONFIGS;
    WithoutAgain(p.volumes, CertVolumes(secret), VolumeName, doomed, again);
    forall i | 0 <= i < |q.containers| ensures r.containers[i] == q.containers[i] {
      WithoutAgain(p.containers[i].mounts, CertMounts(), MountName, doomed, again);
    }
  }

  // ---------------------------------------------------------------- environment

  /** The value each name has where the last entry of a name counts. */
  function LastValues(env: seq<EnvVar>): map<string, EnvVar> {
    if env == [] then map[] else LastValues(env[..|env| - 1])[env[|env| - 1].name := env[|env| - 1]]
  }

  function EnvName(e: EnvVar): string { e.name }

  function EnvNames(env: seq<EnvVar>): set<string> {
    set e | e in env :: e.name
  }

  /** now is env with config merged in: entries keep their places and names, a name of the
      configuration takes its new value at its last place, and new names are appended. */
  ghost predicate EnvMerged(env: seq<EnvVar>, config: seq<EnvVar>, now: seq<EnvVar>) {
    && |env| <= |now|
    && now[|env|..] == Without(config, EnvName, EnvNames(env))
    && (forall i | 0 <= i < |env| :: now[i].name == env[i].name)
    && (forall i | 0 <= i < |env| && now[i] != env[i] ::
          IsLast(env, i) && env[i].name in LastValues(config) && now[i] == LastValues(config)[env[i].name])
    && (forall i | 0 <= i < |env| && IsLast(env, i) && env[i].name in LastValues(config) ::
          now[i] == LastValues(config)[env[i].name])
  }

  /** No later entry has the name of entry i. */
  predicate IsLast(env: seq<EnvVar>, i: nat)
    requires i < |env|
  {
    forall j | i < j < |env| :: env[j].name != env[i].name
  }

  lemma LastValuesNext(env: seq<EnvVar>, e: EnvVar)
    ensures LastValues(env + [e]) == LastValues(env)[e.name := e]
  {
    assert (env + [e])[..|env|] == env;
  }

  lemma {:induction false} LastValueAt(env: seq<EnvVar>, i: nat)
    requires i < |env| && IsLast(env, i)
    ensures env[i].name in LastValues(env) && LastValues(env)[env[i].name] == env[i]
    decreases |env|
  {
    var n := |env| - 1;
    if i < n {
      LastValueAt(env[..n], i);
    }
  }

  lemma {:induction false} LastPlace(env: seq<EnvVar>, name: string) returns (i: nat)
    requires name in EnvNames(env)
    ensures i < |env| && env[i].name == name && IsLast(env, i)
    decreases |env|
  {
    var n := |env| - 1;
    if env[n].name == name {
      i := n;
    } else {
      var e :| e in env && e.name == name;
      assert e in env[..n];
      i := LastPlace(env[..n], name);
    }
  }

  lemma {:induction false} LastValueNames(env: seq<EnvVar>)
    ensures LastValues(env).Keys == EnvNames(env)
  {
    if env != [] {
      var n := |env| - 1;
      LastValueNames(env[..n]);
      assert env == env[..n] + [env[n]];
    }
  }

  lemma MergeUpdate<K, V>(m: map<K, V>, n: map<K, V>, k: K, v: V)
    ensures (m + n)[k := v] == m + n[k := v]
  {
  }

  lemma {:induction false} LastValuesConcat(a: seq<EnvVar>, b: seq<EnvVar>)
    ensures LastValues(a + b) == LastValues(a) + LastValues(b)
  {
    if b == [] {
      assert a + b == a;
    } else {
      var init, last := b[..|b| - 1], b[|b| - 1];
      LastValuesConcat(a, init);
      assert b == init + [last] && a + b == (a + init) + [last];
      LastValuesNext(a + init, last);
      LastValuesNext(init, last);
      MergeUpdate(LastValues(a), LastValues(init), last.name, last);
    }
  }

  lemma DropHidden<K, V>(m: map<K, V>, k: K, v: V, doomed: set<K>)
    requires k in doomed
    ensures m[k := v] - doomed == m - doomed
  {
  }

  lemma DropShown<K, V>(m: map<K, V>, k: K, v: V, doomed: set<K>)
    requires k !in doomed
    ensures m[k := v] - doomed == (m - doomed)[k := v]
  {
  }

  lemma {:induction false} LastValuesWithout(env: seq<EnvVar>, doomed: set<string>)
    ensures LastValues(Without(env, EnvName, doomed)) == LastValues(env) - doomed
  {
    if env != [] {
      var init, last := env[..|env| - 1], env[|env| - 1];
      var kept := Without(init, EnvName, doomed);
      LastValuesWithout(init, doomed);
      if last.name in doomed {
        assert kept + [] == kept;
        DropHidden(LastValues(init), last.name, last, doomed);
      } else {
        LastValuesNext(kept, last);
        DropShown(LastValues(init), last.name, last, doomed);
      }
    }
  }

  lemma MergedNames(env: seq<EnvVar>, config: seq<EnvVar>, now: seq<EnvVar>)
    requires EnvMerged(env, config, now)
    ensures EnvNames(now[..|env|]) == EnvNames(env)
  {
    var front := now[..|env|];
    forall name ensures name in EnvNames(front) <==> name in EnvNames(env) {
      if name in EnvNames(env) {
        var i :| 0 <= i < |env| && env[i].name == name;
        assert front[i] in front;
      }
      if name in EnvNames(front) {
        var i :| 0 <= i < |front| && front[i].name == name;
        assert env[i] in env;
      }
    }
  }

  lemma MergedOldValue(env: seq<EnvVar>, config: seq<EnvVar>, now: seq<EnvVar>, name: string)
    requires EnvMerged(env, config, now) && name in EnvNames(env)
    ensures name in LastValues(now[..|env|]) && name in LastValues(env)
    ensures LastValues(now[..|env|])[name] == if name in LastValues(config)
            then LastValues(config)[name] else LastValues(env)[name]
  {
    var i := LastPlace(env, name);
    LastValueAt(env, i);
    assert IsLast(now[..|env|], i);
    LastValueAt(now[..|env|], i);
  }

  /** Main result: by last value per name, merging is overriding, even where names repeat. */
  lemma MergeOverrides(env: seq<EnvVar>, config: seq<EnvVar>, now: seq<EnvVar>)
    requires EnvMerged(env, config, now)
    ensures LastValues(now) == LastValues(env) + LastValues(config)
  {
    var front, back := now[..|env|], now[|env|..];
    assert now == front + back;
    LastValuesConcat(front, back);
    LastValuesWithout(config, EnvNames(env));
    MergedNames(env, config, now);
    LastValueNames(env);
    LastValueNames(front);
    forall name | name in EnvNames(env)
      ensures LastValues(front)[name] == if name in LastValues(config)
              then LastValues(config)[name] else LastValues(env)[name]
    {
      MergedOldValue(env, config, now, name);
    }
    Override(LastValues(env), LastValues(config), LastValues(front));
  }

  lemma Override<K, V>(m: map<K, V>, over: map<K, V>, front: map<K, V>)
    requires front.Keys == m.Keys && forall k <- m :: front[k] == if k in over then over[k] else m[k]
    ensures front + (over - m.Keys) == m + over
  {
  }

  /** existingEnvMap: the last place of every name. */
  ghost predicate LastPlaces(env: seq<EnvVar>, places: map<string, nat>) {
    && places.Keys == EnvNames(env)
    && forall name <- places :: places[name] < |env| && env[places[name]].name == name && IsLast(env, places[name])
  }

  method FindPlaces(env: seq<EnvVar>) returns (places: map<string, nat>)
    ensures LastPlaces(env, places)
  {
    places := map[];
    for i := 0 to |env|
      invariant LastPlaces(env[..i], places)
    {
      assert env[..i + 1] == env[..i] + [env[i]];
      forall name <- places | name != env[i].name ensures IsLast(env[..i + 1], places[name]) {
        assert IsLast(env[..i], places[name]);
      }
      places := places[env[i].name := i];
    }
    assert env[..|env|] == env;
  }

  lemma MergedStart(env: seq<EnvVar>)
    ensures EnvMerged(env, [], env)
  {
  }

  lemma MergedOverride(env: seq<EnvVar>, config: seq<EnvVar>, now: seq<EnvVar>, k: nat, e: EnvVar)
    requires EnvMerged(env, config, now) && k < |env| && IsLast(env, k) && env[k].name == e.name
    ensures EnvMerged(env, config + [e], now[k := e])
  {
    WithoutLast(config, e, EnvName, EnvNames(env));
    LastValuesNext(config, e);
    var next := now[k := e];
    assert env[k] in env;
    assert next[|env|..] == now[|env|..] &&
      Without(config, EnvName, EnvNames(env)) + [] == Without(config, EnvName, EnvNames(env));
    forall i | 0 <= i < |env| && IsLast(env, i) && env[i].name == e.name ensures i == k {
    }
  }

  lemma MergedAppend(env: seq<EnvVar>, config: seq<EnvVar>, now: seq<EnvVar>, e: EnvVar)
    requires EnvMerged(env, config, now) && e.name !in EnvNames(env)
    ensures EnvMerged(env, config + [e], now + [e])
  {
    WithoutLast(config, e, EnvName, EnvNames(env));
    LastValuesNext(config, e);
    assert (now + [e])[|env|..] == now[|env|..] + [e];
    forall i | 0 <= i < |env| ensures env[i].name != e.name {
      assert env[i] in env;
    }
  }

  method MergeEnv(env: seq<EnvVar>, config: seq<EnvVar>) returns (now: seq<EnvVar>)
    ensures EnvMerged(env, config, now)
  {
    var places := FindPlaces(env);
    now := env;
    MergedStart(env);
    for j := 0 to |config|
      invariant EnvMerged(env, config[..j], now)
    {
      var e := config[j];
      assert config[..j + 1] == config[..j] + [e];
      if e.name in places {
        MergedOverride(env, config[..j], now, places[e.name], e);
        now := now[places[e.name] := e];
      } else {
        MergedAppend(env, config[..j], now, e);
        now := now + [e];
      }
    }
    assert config[..|config|] == config;
  }

  // ---------------------------------------------------------------- lists without duplicates

  /** The loops of applyEnvironmentFromConfig and applyTolerationsConfig: what is there stays, each
      configured item that is missing is appended once, in the order of its first occurrence. */
  method AppendMissing<T(==)>(existing: seq<T>, config: seq<T>) returns (now: seq<T>)
    ensures existing <= now && forall x :: x in now <==> x in existing || x in config
    ensures forall i, j | 0 <= i < j < |now| && |existing| <= j :: now[i] != now[j]
    ensures (forall x <- config :: x in existing) ==> now == existing
  {
    now := existing;
    for k := 0 to |config|
      invariant existing <= now && forall x :: x in now <==> x in existing || x in config[..k]
      invariant forall i, j | 0 <= i < j < |now| && |existing| <= j :: now[i] != now[j]
      invariant (forall x <- config :: x in existing) ==> now == existing
    {
      assert config[..k + 1] == config[..k] + [config[k]];
      var duplicate := false;
      for i := 0 to |now|
        invariant !duplicate && config[k] !in now[..i]
      {
        assert now[..i + 1] == now[..i] + [now[i]];
        if now[i] == config[k] {
          duplicate := true;
          break;
        }
      }
      assert now[..|now|] == now;
      if !duplicate {
        now := now + [config[k]];
      }
    }
    assert config[..|config|] == config;
  }

  // ---------------------------------------------------------------- the deployment

  lemma ReplacedNames(containers: seq<Container>, mounted: set<string>)
    requires forall name :: name in mounted <==> MountedProtected(containers, name)
    ensures forall name ::
            name in mounted + {CERT_CONFIGS[0].name, CERT_CONFIGS[1].name} <==> Replaced(containers, name)
  {
    assert CERT_CONFIGS[0] in CERT_CONFIGS && CERT_CONFIGS[1] in CERT_CONFIGS;
  }

  class Deployment {
    var volumes: seq<Volume>
    const containers: array<Container>

    constructor (volumes: seq<Volume>, containers: seq<Container>)
      ensures Contents() == Pod(volumes, containers) && fresh(this.containers)
    {
      this.volumes := volumes;
      this.containers := new Container[|containers|](i requires 0 <= i < |containers| => containers[i]);
      new;
      assert this.containers[..] == containers;
    }

    ghost function Contents(): Pod
      reads this, containers
    {
      Pod(volumes, containers[..])
    }

    method MountedAtProtectedPaths() returns (names: set<string>)
      ensures forall name :: name in names <==> MountedProtected(containers[..], name)
    {
      names := {};
      for i := 0 to containers.Length
        invariant forall name :: name in names <==> MountedProtected(containers[..i], name)
      {
        var here := set m | m in containers[i].mounts && ProtectedPath(m.path) :: m.name;
        assert containers[..i + 1] == containers[..i] + [containers[i]];
        forall name ensures MountedProtected(containers[..i + 1], name) <==>
          MountedProtected(containers[..i], name) || name in here {
          MountedNext(containers[..i], containers[i], name);
        }
        names := names + here;
      }
      assert containers[..containers.Length] == containers[..];
    }

    /** The loop over the containers' mounts. */
    method RewriteMounts(remove: set<string>)
      modifies containers
      ensures volumes == old(volumes)
      ensures forall k | 0 <= k < containers.Length :: containers[k] == Remounted(old(containers[k]), remove)
    {
      for i := 0 to containers.Length
        invariant volumes == old(volumes)
        invariant forall k | 0 <= k < i :: containers[k] == Remounted(old(containers[k]), remove)
        invariant forall k | i <= k < containers.Length :: containers[k] == old(containers[k])
      {
        containers[i] := containers[i].(mounts := Without(containers[i].mounts, MountName, remove) + CertMounts());
      }
    }

    /** ensureCorrectDeploymentCertVolumes. */
    method EnsureCorrectCertVolumes(secret: SecretInfo) returns (ghost doomed: set<string>)
      modifies this`volumes, containers
      ensures Rewritten(old(Contents()), secret, doomed, Contents())
    {
      var mounted := MountedAtProtectedPaths();
      var remove := mounted + {CERT_CONFIGS[0].name, CERT_CONFIGS[1].name};
      doomed := remove;
      ReplacedNames(containers[..], mounted);
      volumes := Without(volumes, VolumeName, remove) + CertVolumes(secret);
      RewriteMounts(remove);
    }

    /** applyEnvironmentConfig. */
    method ApplyEnvironmentConfig(env: seq<EnvVar>)
      modifies containers
      ensures volumes == old(volumes)
      ensures forall i | 0 <= i < containers.Length ::
                && EnvMerged(old(containers[i]).env, env, containers[i].env)
                && containers[i] == old(containers[i]).(env := containers[i].env)
                && LastValues(containers[i].env) == LastValues(old(containers[i]).env) + LastValues(env)
    {
      if |env| == 0 {
        forall i | 0 <= i < containers.Length ensures EnvMerged(containers[i].env, [], containers[i].env) {
        }
        return;
      }
      for i := 0 to containers.Length
        invariant forall k | 0 <= k < i ::
                    && EnvMerged(old(containers[k]).env, env, containers[k].env)
                    && containers[k] == old(containers[k]).(env := containers[k].env)
                    && LastValues(containers[k].env) == LastValues(old(containers[k]).env) + LastValues(env)
        invariant forall k | i <= k < containers.Length :: containers[k] == old(containers[k])
      {
        var now := MergeEnv(containers[i].env, env);
        MergeOverrides(containers[i].env, env, now);
        containers[i] := containers[i].(env := now);
      }
    }
  }

  lemma MountedNext(cs: seq<Container>, c: Container, name: string)
    ensures MountedProtected(cs + [c], name) <==>
            MountedProtected(cs, name) || name in (set m | m in c.mounts && ProtectedPath(m.path) :: m.name)
  {
    assert c in cs + [c];
    assert forall d :: d in cs + [c] <==> d in cs || d == c;
  }
}
