/** RBAC of a rendered bundle: the roles, bindings and service accounts the generators emit, and
    what a service account may effectively do through them. */
module Rbac {
  import opened Wrappers
  import opened Names

  datatype Rule = Rule(verbs: seq<string>, apiGroups: seq<string>, resources: seq<string>, rest: string)
  datatype Permission = Permission(serviceAccount: string, rules: seq<Rule>)
  datatype Csv = Csv(name: string, permissions: seq<Permission>, clusterPermissions: seq<Permission>)

  datatype Subject = Subject(namespace: string, name: string)
  datatype Object =
    | Role(name: string, namespace: string, rules: seq<Rule>)
    | RoleBinding(name: string, namespace: string, subject: Subject, role: string)
    | ClusterRole(name: string, rules: seq<Rule>)
    | ClusterRoleBinding(name: string, subject: Subject, role: string)
    | ServiceAccount(name: string, namespace: string)

  /** The UniqueNameGenerator option. */
  type NameGenerator = (string, Permission) -> string

  const READ_NAMESPACES := Rule(["get", "list", "watch"], [""], ["namespaces"], "")

  function AccountName(serviceAccount: string): string {
    if serviceAccount == "" then "default" else serviceAccount
  }

  predicate AllNamespaces(targets: seq<string>) {
    |targets| == 1 && targets[0] == ""
  }

  function NameFor(csv: Csv, names: NameGenerator, p: Permission): string {
    names(csv.name + "-" + AccountName(p.serviceAccount), p)
  }

  function RoleFor(csv: Csv, names: NameGenerator, p: Permission, ns: string): Object {
    Role(NameFor(csv, names, p), ns, p.rules)
  }

  function BindingFor(csv: Csv, names: NameGenerator, p: Permission, install: string, ns: string): Object {
    RoleBinding(NameFor(csv, names, p), ns, Subject(install, AccountName(p.serviceAccount)), NameFor(csv, names, p))
  }

  function ClusterRoleFor(csv: Csv, names: NameGenerator, p: Permission): Object {
    ClusterRole(NameFor(csv, names, p), p.rules)
  }

  function ClusterBindingFor(csv: Csv, names: NameGenerator, p: Permission, install: string): Object {
    ClusterRoleBinding(NameFor(csv, names, p), Subject(install, AccountName(p.serviceAccount)), NameFor(csv, names, p))
  }

  function Promoted(p: Permission): Permission {
    p.(rules := p.rules + [READ_NAMESPACES])
  }

  /** The permissions that become cluster roles. */
  ghost predicate IsClusterWide(csv: Csv, targets: seq<string>, p: Permission) {
    p in csv.clusterPermissions || (AllNamespaces(targets) && exists q <- csv.permissions :: p == Promoted(q))
  }

  // ---------------------------------------------------------------- the generators

  method GeneratePermissions(csv: Csv, names: NameGenerator, install: string, targets: seq<string>, ctx: seq<Object>)
    returns (objects: seq<Object>)
    ensures ctx <= objects
    ensures forall o :: o in objects[|ctx|..] <==>
              !AllNamespaces(targets) && exists ns <- targets, p <- csv.permissions ::
                o == RoleFor(csv, names, p, ns) || o == BindingFor(csv, names, p, install, ns)
  {
    if AllNamespaces(targets) {
      return ctx;
    }
    var objs: seq<Object> := [];
    for i := 0 to |targets|
      invariant forall o :: o in objs <==> exists ns <- targets[..i], p <- csv.permissions ::
                  o == RoleFor(csv, names, p, ns) || o == BindingFor(csv, names, p, install, ns)
    {
      var ns := targets[i];
      ghost var before := objs;
      for j := 0 to |csv.permissions|
        invariant forall o :: o in objs <==> o in before || exists p <- csv.permissions[..j] ::
                    o == RoleFor(csv, names, p, ns) || o == BindingFor(csv, names, p, install, ns)
      {
        var p := csv.permissions[j];
        assert csv.permissions[..j + 1] == csv.permissions[..j] + [p];
        objs := objs + [RoleFor(csv, names, p, ns), BindingFor(csv, names, p, install, ns)];
      }
      assert csv.permissions[..|csv.permissions|] == csv.permissions;
      assert targets[..i + 1] == targets[..i] + [ns];
    }
    assert targets[..|targets|] == targets;
    objects := ctx + objs;
    assert objects[|ctx|..] == objs;
  }

  method GenerateClusterPermissions(csv: Csv, names: NameGenerator, install: string, targets: seq<string>,
                                    ctx: seq<Object>)
    returns (objects: seq<Object>)
    ensures ctx <= objects
    ensures forall o :: o in objects[|ctx|..] <==>
              exists p ::
                IsClusterWide(csv, targets, p) &&
                  (o == ClusterRoleFor(csv, names, p) || o == ClusterBindingFor(csv, names, p, install))
  {
    var permissions := csv.clusterPermissions;
    if AllNamespaces(targets) {
      for i := 0 to |csv.permissions|
        invariant forall p ::
                  p in permissions <==>
                    p in csv.clusterPermissions || exists q <- csv.permissions[..i] :: p == Promoted(q)
      {
        var q := csv.permissions[i];
        assert csv.permissions[..i + 1] == csv.permissions[..i] + [q];
        var p := q.(rules := q.rules + [READ_NAMESPACES]);
        assert p == Promoted(q);
        permissions := permissions + [p];
      }
      assert csv.permissions[..|csv.permissions|] == csv.permissions;
    }
    assert forall p :: p in permissions <==> IsClusterWide(csv, targets, p);
    var objs: seq<Object> := [];
    for j := 0 to |permissions|
      invariant forall o :: o in objs <==> exists p <- permissions[..j] ::
                  o == ClusterRoleFor(csv, names, p) || o == ClusterBindingFor(csv, names, p, install)
    {
      var p := permissions[j];
      assert permissions[..j + 1] == permissions[..j] + [p];
      objs := objs + [ClusterRoleFor(csv, names, p), ClusterBindingFor(csv, names, p, install)];
    }
    assert permissions[..|permissions|] == permissions;
    objects := ctx + objs;
    assert objects[|ctx|..] == objs;
  }

  /** Every account the permissions name gets a ServiceAccount, except the namespace default, and
      none gets two. */
  method GenerateServiceAccounts(csv: Csv, install: string, ctx: seq<Object>) returns (objects: seq<Object>)
    ensures ctx <= objects
    ensures forall o :: o in objects[|ctx|..] <==> IsAccount(csv, install, o)
    ensures forall i, j | |ctx| <= i < j < |objects| :: objects[i] != objects[j]
  {
    var all := csv.permissions + csv.clusterPermissions;
    var todo: set<string> := {};
    for i := 0 to |all|
      invariant forall n :: n in todo <==> exists p <- all[..i] :: n == AccountName(p.serviceAccount)
    {
      assert all[..i + 1] == all[..i] + [all[i]];
      todo := todo + {AccountName(all[i].serviceAccount)};
    }
    assert all[..|all|] == all;
    ghost var names := todo;
    assert forall n :: n in names <==> exists p <- all :: n == AccountName(p.serviceAccount);
    var objs: seq<Object> := [];
    while todo != {}
      invariant todo <= names
      invariant forall o ::
                o in objs <==>
                  o.ServiceAccount? && o.namespace == install && o.name in names - todo && o.name != "default"
      invariant forall i, j | 0 <= i < j < |objs| :: objs[i] != objs[j]
      decreases todo
    {
      var n :| n in todo;
      if n != "default" {
        assert ServiceAccount(n, install) !in objs;
        objs := objs + [ServiceAccount(n, install)];
      }
      todo := todo - {n};
    }
    objects := ctx + objs;
    assert objects[|ctx|..] == objs;
    forall i, j | |ctx| <= i < j < |objects| ensures objects[i] != objects[j] {
      assert objects[i] == objs[i - |ctx|] && objects[j] == objs[j - |ctx|];
    }
  }

  ghost predicate IsAccount(csv: Csv, install: string, o: Object) {
    && o.ServiceAccount? && o.namespace == install && o.name != "default"
    && exists p :: p in csv.permissions + csv.clusterPermissions && o.name == AccountName(p.serviceAccount)
  }

  // ---------------------------------------------------------------- what the objects mean

  /** The RBAC objects of a rendered bundle are those of the two permission generators. */
  ghost predicate Emitted(csv: Csv, names: NameGenerator, install: string, targets: seq<string>, objs: set<Object>) {
    forall o :: o in objs <==>
      || (!AllNamespaces(targets) && exists ns <- targets, p <- csv.permissions ::
            o == RoleFor(csv, names, p, ns) || o == BindingFor(csv, names, p, install, ns))
      || (exists p ::
         IsClusterWide(csv, targets, p) &&
           (o == ClusterRoleFor(csv, names, p) || o == ClusterBindingFor(csv, names, p, install)))
  }

  /** The two permission generators in their order. */
  method GenerateRbac(csv: Csv, names: NameGenerator, install: string, targets: seq<string>)
    returns (objects: seq<Object>)
    ensures Emitted(csv, names, install, targets, set o | o in objects)
  {
    var roles := GeneratePermissions(csv, names, install, targets, []);
    assert roles[0..] == roles;
    objects := GenerateClusterPermissions(csv, names, install, targets, roles);
    assert objects == roles + objects[|roles|..];
  }

  /** A cluster role bound to the account grants r. */
  ghost predicate ClusterGrants(objs: set<Object>, account: Subject, r: Rule) {
    exists b, role :: b in objs && role in objs && b.ClusterRoleBinding? && role.ClusterRole?
                      && b.subject == account && role.name == b.role && r in role.rules
  }

  /** A role bound to the account in the namespace grants r there. */
  ghost predicate RoleGrants(objs: set<Object>, account: Subject, ns: string, r: Rule) {
    exists b, role :: b in objs && role in objs && b.RoleBinding? && role.Role?
                      && b.subject == account && b.namespace == ns && role.namespace == ns
                      && role.name == b.role && r in role.rules
  }

  ghost predicate Allows(objs: set<Object>, account: Subject, ns: string, r: Rule) {
    ClusterGrants(objs, account, r) || RoleGrants(objs, account, ns, r)
  }

  ghost predicate Asks(permissions: seq<Permission>, account: string, r: Rule) {
    exists p <- permissions :: AccountName(p.serviceAccount) == account && r in p.rules
  }

  ghost predicate HasPermission(csv: Csv, account: string) {
    exists p <- csv.permissions :: AccountName(p.serviceAccount) == account
  }

  /** What the bundle asks for: its cluster permissions everywhere, and its permissions in the target
      namespaces, or everywhere with reading namespaces added. */
  ghost predicate Intended(csv: Csv, targets: seq<string>, account: string, ns: string, r: Rule) {
    || Asks(csv.clusterPermissions, account, r)
    || if "" in targets then Asks(csv.permissions, account, r) || (HasPermission(csv, account) && r == READ_NAMESPACES)
       else ns in targets && Asks(csv.permissions, account, r)
  }

  ghost predicate Relevant(csv: Csv, p: Permission) {
    p in csv.permissions || p in csv.clusterPermissions || exists q <- csv.permissions :: p == Promoted(q)
  }

  /** Different permissions of the bundle get different names. */
  ghost predicate Separates(csv: Csv, names: NameGenerator) {
    forall p, q | Relevant(csv, p) && Relevant(csv, q) && NameFor(csv, names, p) == NameFor(csv, names, q) :: p == q
  }

  lemma EmittedClusterRole(csv: Csv, names: NameGenerator, install: string, targets: seq<string>, objs: set<Object>,
                           o: Object)
    requires Emitted(csv, names, install, targets, objs) && (o.ClusterRole? || o.ClusterRoleBinding?)
    ensures o in objs <==>
            exists p ::
              IsClusterWide(csv, targets, p) &&
                (o == ClusterRoleFor(csv, names, p) || o == ClusterBindingFor(csv, names, p, install))
  {
  }

  lemma ClusterGrantsOnly(csv: Csv, names: NameGenerator, install: string, targets: seq<string>, objs: set<Object>,
                          b: Object, role: Object, r: Rule)
    requires Emitted(csv, names, install, targets, objs) && Separates(csv, names)
    requires b in objs && role in objs && b.ClusterRoleBinding? && role.ClusterRole? && role.name == b.role &&
             r in role.rules
    ensures exists p ::
            IsClusterWide(csv, targets, p) && AccountName(p.serviceAccount) == b.subject.name && r in p.rules
  {
    EmittedClusterRole(csv, names, install, targets, objs, b);
    EmittedClusterRole(csv, names, install, targets, objs, role);
    var p :| IsClusterWide(csv, targets, p) && b == ClusterBindingFor(csv, names, p, install);
    var q :| IsClusterWide(csv, targets, q) && role == ClusterRoleFor(csv, names, q);
    assert Relevant(csv, p) && Relevant(csv, q);
  }

  lemma ClusterGrantsExactly(csv: Csv, names: NameGenerator, install: string, targets: seq<string>, objs: set<Object>,
                             account: string, r: Rule)
    requires Emitted(csv, names, install, targets, objs) && Separates(csv, names)
    ensures ClusterGrants(objs, Subject(install, account), r) <==>
            exists p :: IsClusterWide(csv, targets, p) && AccountName(p.serviceAccount) == account && r in p.rules
  {
    if ClusterGrants(objs, Subject(install, account), r) {
      var b, role :| b in objs && role in objs && b.ClusterRoleBinding? && role.ClusterRole?
                     && b.subject == Subject(install, account) && role.name == b.role && r in role.rules;
      ClusterGrantsOnly(csv, names, install, targets, objs, b, role, r);
    }
    if p :| IsClusterWide(csv, targets, p) && AccountName(p.serviceAccount) == account && r in p.rules {
      var b, role := ClusterBindingFor(csv, names, p, install), ClusterRoleFor(csv, names, p);
      EmittedClusterRole(csv, names, install, targets, objs, b);
      EmittedClusterRole(csv, names, install, targets, objs, role);
    }
  }

  lemma EmittedRole(csv: Csv, names: NameGenerator, install: string, targets: seq<string>, objs: set<Object>, o: Object)
    requires Emitted(csv, names, install, targets, objs) && (o.Role? || o.RoleBinding?)
    ensures o in objs <==>
            && !AllNamespaces(targets) && o.namespace in targets
            && exists p <- csv.permissions ::
               o == RoleFor(csv, names, p, o.namespace) || o == BindingFor(csv, names, p, install, o.namespace)
  {
    if o in objs {
      var ns, p :| ns in targets && p in csv.permissions &&
        (o == RoleFor(csv, names, p, ns) || o == BindingFor(csv, names, p, install, ns));
      assert ns == o.namespace;
    }
  }

  lemma RoleGrantsOnly(csv: Csv, names: NameGenerator, install: string, targets: seq<string>, objs: set<Object>,
                       b: Object, role: Object, r: Rule)
    requires Emitted(csv, names, install, targets, objs) && Separates(csv, names)
    requires b in objs && role in objs && b.RoleBinding? && role.Role? && role.namespace == b.namespace &&
             role.name == b.role && r in role.rules
    ensures !AllNamespaces(targets) && b.namespace in targets && Asks(csv.permissions, b.subject.name, r)
  {
    EmittedRole(csv, names, install, targets, objs, b);
    EmittedRole(csv, names, install, targets, objs, role);
    var p :| p in csv.permissions && b == BindingFor(csv, names, p, install, b.namespace);
    var q :| q in csv.permissions && role == RoleFor(csv, names, q, role.namespace);
    assert Relevant(csv, p) && Relevant(csv, q);
  }

  lemma RoleGrantsExactly(csv: Csv, names: NameGenerator, install: string, targets: seq<string>, objs: set<Object>,
                          account: string, ns: string, r: Rule)
    requires Emitted(csv, names, install, targets, objs) && Separates(csv, names)
    ensures RoleGrants(objs, Subject(install, account), ns, r) <==>
            !AllNamespaces(targets) && ns in targets && Asks(csv.permissions, account, r)
  {
    if RoleGrants(objs, Subject(install, account), ns, r) {
      var b, role :| b in objs && role in objs && b.RoleBinding? && role.Role?
                     && b.subject == Subject(install, account) && b.namespace == ns && role.namespace == ns
                     && role.name == b.role && r in role.rules;
      RoleGrantsOnly(csv, names, install, targets, objs, b, role, r);
    }
    if !AllNamespaces(targets) && ns in targets && Asks(csv.permissions, account, r) {
      var p :| p in csv.permissions && AccountName(p.serviceAccount) == account && r in p.rules;
      var b, role := BindingFor(csv, names, p, install, ns), RoleFor(csv, names, p, ns);
      EmittedRole(csv, names, install, targets, objs, b);
      EmittedRole(csv, names, install, targets, objs, role);
    }
  }

  lemma ClusterWideAsks(csv: Csv, targets: seq<string>, account: string, r: Rule)
    ensures (exists p ::
            IsClusterWide(csv, targets, p) && AccountName(p.serviceAccount) == account && r in p.rules) <==>
            || Asks(csv.clusterPermissions, account, r)
            || (AllNamespaces(targets) &&
               (Asks(csv.permissions, account, r) || (HasPermission(csv, account) && r == READ_NAMESPACES)))
  {
    if Asks(csv.clusterPermissions, account, r) {
      var p :| p in csv.clusterPermissions && AccountName(p.serviceAccount) == account && r in p.rules;
      assert IsClusterWide(csv, targets, p);
    }
    if AllNamespaces(targets) &&
      (Asks(csv.permissions, account, r) || (HasPermission(csv, account) && r == READ_NAMESPACES)) {
      var q :| q in csv.permissions && AccountName(q.serviceAccount) == account &&
        (r in q.rules || r == READ_NAMESPACES);
      assert IsClusterWide(csv, targets, Promoted(q)) && r in Promoted(q).rules;
    }
  }

  /** Main result: what an account may do in a namespace through the emitted objects is what the
      bundle asks for, when the targets name all namespaces at most by the single target "". */
  lemma MeaningPreserved(csv: Csv, names: NameGenerator, install: string, targets: seq<string>, objs: set<Object>,
                         account: string, ns: string, r: Rule)
    requires Emitted(csv, names, install, targets, objs) && Separates(csv, names)
    requires "" in targets ==> |targets| == 1
    ensures Allows(objs, Subject(install, account), ns, r) <==> Intended(csv, targets, account, ns, r)
  {
    ClusterGrantsExactly(csv, names, install, targets, objs, account, r);
    RoleGrantsExactly(csv, names, install, targets, objs, account, ns, r);
    ClusterWideAsks(csv, targets, account, r);
    assert AllNamespaces(targets) <==> "" in targets;
  }

  /** With "" among several targets nothing is promoted: outside the namespaces that are listed an
      account is left with its cluster permissions. */
  lemma RepeatedAllLoses(csv: Csv, names: NameGenerator, install: string, targets: seq<string>, objs: set<Object>,
                         account: string, ns: string, r: Rule)
    requires Emitted(csv, names, install, targets, objs) && Separates(csv, names)
    requires "" in targets && |targets| > 1 && ns !in targets
    ensures Allows(objs, Subject(install, account), ns, r) <==> Asks(csv.clusterPermissions, account, r)
  {
    ClusterGrantsExactly(csv, names, install, targets, objs, account, r);
    RoleGrantsExactly(csv, names, install, targets, objs, account, ns, r);
    ClusterWideAsks(csv, targets, account, r);
  }

  /** Objects of one kind, name and namespace. */
  predicate SameKey(a: Object, b: Object) {
    match (a, b)
    case (Role(n, s, _), Role(m, t, _)) => n == m && s == t
    case (RoleBinding(n, s, _, _), RoleBinding(m, t, _, _)) => n == m && s == t
    case (ClusterRole(n, _), ClusterRole(m, _)) => n == m
    case (ClusterRoleBinding(n, _, _), ClusterRoleBinding(m, _, _)) => n == m
    case (ServiceAccount(n, s), ServiceAccount(m, t)) => n == m && s == t
    case _ => false
  }

  /** No emitted RBAC object overwrites another one with different content. */
  lemma NothingOverwritten(csv: Csv, names: NameGenerator, install: string, targets: seq<string>, objs: set<Object>,
                           a: Object, b: Object)
    requires Emitted(csv, names, install, targets, objs) && Separates(csv, names)
    requires a in objs && b in objs && SameKey(a, b)
    ensures a == b
  {
    if a.ClusterRole? || a.ClusterRoleBinding? {
      var p :| IsClusterWide(csv, targets, p) &&
        (a == ClusterRoleFor(csv, names, p) || a == ClusterBindingFor(csv, names, p, install));
      var q :| IsClusterWide(csv, targets, q) &&
        (b == ClusterRoleFor(csv, names, q) || b == ClusterBindingFor(csv, names, q, install));
      assert Relevant(csv, p) && Relevant(csv, q);
    } else {
      var s, p :| s in targets && p in csv.permissions &&
        (a == RoleFor(csv, names, p, s) || a == BindingFor(csv, names, p, install, s));
      var t, q :| t in targets && q in csv.permissions &&
        (b == RoleFor(csv, names, q, t) || b == BindingFor(csv, names, q, install, t));
      assert Relevant(csv, p) && Relevant(csv, q);
    }
  }

  /** Every account a binding names is emitted, the namespace default excepted. */
  lemma BoundAccountsEmitted(csv: Csv, names: NameGenerator, install: string, targets: seq<string>, objs: set<Object>,
                             b: Object)
    requires Emitted(csv, names, install, targets, objs) && b in objs && (b.RoleBinding? || b.ClusterRoleBinding?)
    requires b.subject.name != "default"
    ensures IsAccount(csv, install, ServiceAccount(b.subject.name, b.subject.namespace))
  {
    if b.ClusterRoleBinding? {
      var p :| IsClusterWide(csv, targets, p) && b == ClusterBindingFor(csv, names, p, install);
      if p in csv.clusterPermissions {
        assert p in csv.permissions + csv.clusterPermissions;
      } else {
        var q :| q in csv.permissions && p == Promoted(q);
        assert q in csv.permissions + csv.clusterPermissions;
      }
    } else {
      var p :| p in csv.permissions && b == BindingFor(csv, names, p, install, b.namespace);
      assert p in csv.permissions + csv.clusterPermissions;
    }
  }

  /** DefaultUniqueNameGenerator: the base, a dash and the hash of the permission. */
  function DefaultNames(hash: Permission -> string): NameGenerator
    requires forall p :: |hash(p)| < MAX_NAME_LENGTH
  {
    (base: string, p: Permission) => ObjectName(base, hash(p))
  }

  /** Main result: the default generator separates the bundle's permissions when the hash, which has
      no dash in it, does. */
  lemma DefaultSeparates(csv: Csv, hash: Permission -> string)
    requires forall p :: |hash(p)| < MAX_NAME_LENGTH && '-' !in hash(p)
    requires forall p, q | Relevant(csv, p) && Relevant(csv, q) && hash(p) == hash(q) :: p == q
    ensures Separates(csv, DefaultNames(hash))
  {
    var names := DefaultNames(hash);
    forall p, q | Relevant(csv, p) && Relevant(csv, q) &&
      NameFor(csv, names, p) == NameFor(csv, names, q) ensures p == q {
      SuffixesSeparate(csv.name + "-" + AccountName(p.serviceAccount), hash(p), csv.name + "-" +
        AccountName(q.serviceAccount), hash(q));
    }
  }

  // ---------------------------------------------------------------- target namespaces

  datatype InstallMode = OwnNamespace | SingleNamespace | MultiNamespace | AllNamespacesMode

  /** validateTargetNamespaces. */
  method ValidateTargetNamespaces(supported: set<InstallMode>, install: string, targets: seq<string>) returns (ok: bool)
    ensures ok <==> Accepted(supported, install, targets)
  {
    var names := set t | t in targets;
    TargetNames(targets, names);
    if |names| == 0 {
      return false;
    }
    if |names| == 1 {
      ghost var t :| OnlyTarget(targets, t);
      assert targets[0] in targets;
      if "" in names {
        return AllNamespacesMode in supported;
      }
      if targets[0] == install {
        return OwnNamespace in supported;
      }
      return SingleNamespace in supported;
    }
    if OwnNamespace !in supported && install in names {
      return false;
    }
    return MultiNamespace in supported && "" !in names;
  }

  lemma TargetNames(targets: seq<string>, names: set<string>)
    requires names == set t | t in targets
    ensures |names| == 0 <==> targets == []
    ensures |names| == 1 <==> exists t :: OnlyTarget(targets, t)
  {
    if targets == [] {
      assert names == {};
    } else {
      assert targets[0] in names;
    }
    if |names| == 1 {
      var t := OneName(names);
      assert forall n <- targets :: n in names;
      assert OnlyTarget(targets, t);
    }
    if t :| OnlyTarget(targets, t) {
      assert targets[0] in names;
      assert names == {t};
    }
  }

  lemma OneName(names: set<string>) returns (t: string)
    requires |names| == 1
    ensures names == {t}
  {
    t :| t in names;
    assert |names - {t}| == 0;
    assert names == {t};
  }

  ghost predicate OnlyTarget(targets: seq<string>, t: string) {
    targets != [] && forall n <- targets :: n == t
  }

  /** One distinct target must be allowed by its own mode; several need MultiNamespace, must not
      include all namespaces, and may include the operator's own only with OwnNamespace. */
  ghost predicate Accepted(supported: set<InstallMode>, install: string, targets: seq<string>) {
    if exists t :: OnlyTarget(targets, t) then
      var t :| OnlyTarget(targets, t);
      (if t == "" then AllNamespacesMode else if t == install then OwnNamespace else SingleNamespace) in supported
    else
      targets != [] && MultiNamespace in supported && "" !in targets &&
        (install in targets ==> OwnNamespace in supported)
  }

  /** Accepted targets name all namespaces only by targets that are all "". */
  lemma AcceptedAll(supported: set<InstallMode>, install: string, targets: seq<string>)
    requires Accepted(supported, install, targets) && "" in targets
    ensures OnlyTarget(targets, "") && AllNamespacesMode in supported
  {
    var t :| OnlyTarget(targets, t);
  }

  /** Main result: for accepted targets without repetition the meaning is preserved; the one accepted
      way to lose it is to repeat the all-namespaces target. */
  lemma AcceptedMeaning(csv: Csv, names: NameGenerator, supported: set<InstallMode>, install: string,
                        targets: seq<string>,
                        objs: set<Object>, account: string, ns: string, r: Rule)
    requires Accepted(supported, install, targets) && ns != ""
    requires Emitted(csv, names, install, targets, objs) && Separates(csv, names)
    ensures Allows(objs, Subject(install, account), ns, r) <==>
            if targets[0] == "" && |targets| > 1 then Asks(csv.clusterPermissions, account, r)
            else Intended(csv, targets, account, ns, r)
  {
    assert targets[0] in targets;
    if "" in targets {
      AcceptedAll(supported, install, targets);
    }
    if "" in targets && |targets| > 1 {
      RepeatedAllLoses(csv, names, install, targets, objs, account, ns, r);
    } else {
      MeaningPreserved(csv, names, install, targets, objs, account, ns, r);
    }
  }

  // ---------------------------------------------------------------- a permission that is lost

  const READ_PODS := Rule(["get"], [""], ["pods"], "")
  const READER := Permission("sa", [READ_PODS])
  const ONE_READER := Csv("op", [READER], [])

  function SampleNames(base: string, p: Permission): string {
    base + if p == READER then "-a" else "-b"
  }

  lemma SampleSeparates()
    ensures Separates(ONE_READER, SampleNames)
  {
    forall p | Relevant(ONE_READER, p) ensures p == READER || p == Promoted(READER) {
    }
    var base := "op-sa";
    assert AccountName(READER.serviceAccount) == "sa" && "op" + "-" + "sa" == base;
    assert |Promoted(READER).rules| == 2;
    assert NameFor(ONE_READER, SampleNames, READER)[6] == 'a' &&
      NameFor(ONE_READER, SampleNames, Promoted(READER))[6] == 'b';
  }

  /** The targets "" and "" are accepted, the bundle asks to read pods everywhere, and the role and
      binding it is rendered to allow that in no namespace. */
  lemma AcceptedLoses(install: string, ns: string)
    requires ns != ""
    ensures var targets := ["", ""];
            var objs := {RoleFor(ONE_READER, SampleNames, READER, ""),
              BindingFor(ONE_READER, SampleNames, READER, install, "")};
            && Accepted({AllNamespacesMode}, install, targets)
            && Emitted(ONE_READER, SampleNames, install, targets, objs) && Separates(ONE_READER, SampleNames)
            && Intended(ONE_READER, targets, "sa", ns, READ_PODS) &&
               !Allows(objs, Subject(install, "sa"), ns, READ_PODS)
  {
    var targets := ["", ""];
    var objs := {RoleFor(ONE_READER, SampleNames, READER, ""),
      BindingFor(ONE_READER, SampleNames, READER, install, "")};
    assert OnlyTarget(targets, "");
    assert READER in ONE_READER.permissions && targets[0] == "";
    assert forall p :: !IsClusterWide(ONE_READER, targets, p);
    SampleSeparates();
    assert READ_PODS == READER.rules[0];
    assert Asks(ONE_READER.permissions, "sa", READ_PODS);
    RepeatedAllLoses(ONE_READER, SampleNames, install, targets, objs, "sa", ns, READ_PODS);
  }
}
