/** Collecting the OpenAPI schemas a configuration schema needs: a depth-first closure over $ref
    pointers in recursive, possibly cyclic JSON, with one shared set of collected names. */
module SchemaCollector {
  import opened Wrappers

  datatype Json = Obj(fields: map<string, Json>) | Arr(items: seq<Json>) | Str(text: string) | Scalar(text: string)

  type Spec = map<string, Json>

  const REF_PREFIX := "#/components/schemas/"

  // ---------------------------------------------------------------- references and reachability

  /** The schema an object points to by its own $ref. */
  function OwnRef(fields: map<string, Json>): set<string> {
    if "$ref" in fields && fields["$ref"].Str? && REF_PREFIX <= fields["$ref"].text
    then {fields["$ref"].text[|REF_PREFIX|..]} else {}
  }

  /** Every schema name a value points to, at any depth. */
  function Refs(j: Json): set<string> {
    match j
    case Obj(fields) => OwnRef(fields) + set k, n | k in fields && n in Refs(fields[k]) :: n
    case Arr(items) => set i, n | 0 <= i < |items| && n in Refs(items[i]) :: n
    case _ => {}
  }

  /** The references of a value that the spec can resolve. */
  function Links(spec: Spec, j: Json): set<string> {
    Refs(j) * spec.Keys
  }

  ghost predicate Closed(spec: Spec, names: set<string>) {
    names <= spec.Keys && forall n <- names :: Links(spec, spec[n]) <= names
  }

  /** p leads from one schema to the next by references. */
  ghost predicate IsPath(spec: Spec, p: seq<string>) {
    && p != []
    && (forall i | 0 <= i < |p| :: p[i] in spec)
    && forall i | 0 < i < |p| :: p[i] in Refs(spec[p[i - 1]])
  }

  ghost predicate Reaches(spec: Spec, from: set<string>, n: string) {
    exists p :: IsPath(spec, p) && p[0] in from && p[|p| - 1] == n
  }

  ghost function Reachable(spec: Spec, from: set<string>): set<string> {
    set n | n in spec && Reaches(spec, from, n)
  }

  lemma ReachableClosed(spec: Spec, from: set<string>)
    ensures Closed(spec, Reachable(spec, from)) && from * spec.Keys <= Reachable(spec, from)
  {
    forall n <- from * spec.Keys ensures Reaches(spec, from, n) {
      assert IsPath(spec, [n]);
    }
    forall n <- Reachable(spec, from), m <- Links(spec, spec[n]) ensures Reaches(spec, from, m) {
      var p :| IsPath(spec, p) && p[0] in from && p[|p| - 1] == n;
      assert IsPath(spec, p + [m]);
    }
  }

  lemma {:induction false} PathStays(spec: Spec, names: set<string>, p: seq<string>, i: nat)
    requires Closed(spec, names) && IsPath(spec, p) && p[0] in names && i < |p|
    ensures p[i] in names
  {
    if i > 0 {
      PathStays(spec, names, p, i - 1);
    }
  }

  /** The reachable schemas are the least closed set around the start. */
  lemma ReachableLeast(spec: Spec, from: set<string>, names: set<string>)
    requires Closed(spec, names) && from * spec.Keys <= names
    ensures Reachable(spec, from) <= names
  {
    forall n <- Reachable(spec, from) ensures n in names {
      var p :| IsPath(spec, p) && p[0] in from && p[|p| - 1] == n;
      PathStays(spec, names, p, |p| - 1);
    }
  }

  // ---------------------------------------------------------------- the collector

  /** From `before`, a call that was to cover the names in `start` reached `after`: it lost nothing,
      covered the start, finished every schema it added, and added only what the start needs. */
  ghost predicate Covers(spec: Spec, before: set<string>, start: set<string>, after: set<string>) {
    && before <= after <= spec.Keys
    && start <= after
    && (forall n <- after - before :: Links(spec, spec[n]) <= after)
    && (forall names | Closed(spec, names) && start <= names :: after - before <= names)
  }

  lemma CoversThen(spec: Spec, a: set<string>, start: set<string>, b: set<string>, more: set<string>, c: set<string>)
    requires Covers(spec, a, start, b) && Covers(spec, b, more, c)
    ensures Covers(spec, a, start + more, c)
  {
    forall n <- c - a ensures Links(spec, spec[n]) <= c {
      if n in b {
        assert n in b - a;
      } else {
        assert n in c - b;
      }
    }
    forall names | Closed(spec, names) && start + more <= names ensures c - a <= names {
      assert b - a <= names && c - b <= names;
    }
  }

  /** Adding a schema and then covering its references covers that schema. */
  lemma CoversName(spec: Spec, before: set<string>, name: string, after: set<string>)
    requires name in spec && name !in before && before <= spec.Keys
    requires Covers(spec, before + {name}, Links(spec, spec[name]), after)
    ensures Covers(spec, before, {name}, after)
  {
    forall n <- after - before ensures Links(spec, spec[n]) <= after {
      assert n != name ==> n in after - (before + {name});
    }
    forall names | Closed(spec, names) && {name} <= names ensures after - before <= names {
      assert Links(spec, spec[name]) <= names;
      assert after - (before + {name}) <= names;
    }
  }

  /** What one key of an object, or one item of an array, is responsible for. */
  function FieldLinks(spec: Spec, fields: map<string, Json>, keys: set<string>): set<string>
    requires keys <= fields.Keys
  {
    set k, n | k in keys && n in Links(spec, fields[k]) :: n
  }

  function ItemLinks(spec: Spec, items: seq<Json>, n: nat): set<string>
    requires n <= |items|
  {
    set i, m | 0 <= i < n && m in Links(spec, items[i]) :: m
  }

  lemma CoversNothing(spec: Spec, names: set<string>)
    requires names <= spec.Keys
    ensures Covers(spec, names, {}, names)
  {
  }

  lemma CoversPresent(spec: Spec, names: set<string>, name: string)
    requires names <= spec.Keys && name in names
    ensures Covers(spec, names, {name} * spec.Keys, names)
  {
  }

  lemma NoFields(spec: Spec, fields: map<string, Json>)
    ensures FieldLinks(spec, fields, {}) == {}
  {
  }

  lemma NextField(spec: Spec, fields: map<string, Json>, keys: set<string>, k: string)
    requires keys <= fields.Keys && k in fields
    ensures FieldLinks(spec, fields, keys + {k}) == FieldLinks(spec, fields, keys) + Links(spec, fields[k])
  {
  }

  lemma AllFields(spec: Spec, fields: map<string, Json>)
    ensures OwnRef(fields) * spec.Keys + FieldLinks(spec, fields, fields.Keys) == Links(spec, Obj(fields))
  {
    forall n ensures n in Links(spec, Obj(fields)) <==>
      n in OwnRef(fields) * spec.Keys || n in FieldLinks(spec, fields, fields.Keys) {
      if n in Links(spec, Obj(fields)) && n !in OwnRef(fields) {
        var k :| k in fields && n in Refs(fields[k]);
        assert n in Links(spec, fields[k]);
      }
    }
  }

  lemma NextItem(spec: Spec, items: seq<Json>, i: nat)
    requires i < |items|
    ensures ItemLinks(spec, items, i + 1) == ItemLinks(spec, items, i) + Links(spec, items[i])
  {
  }

  lemma AllItems(spec: Spec, items: seq<Json>)
    ensures ItemLinks(spec, items, |items|) == Links(spec, Arr(items))
  {
    forall n | n in Links(spec, Arr(items)) ensures n in ItemLinks(spec, items, |items|) {
      var i :| 0 <= i < |items| && n in Refs(items[i]);
      assert n in Links(spec, items[i]);
    }
  }

  class Collector {
    const spec: Spec
    var collected: set<string>

    constructor (spec: Spec)
      ensures this.spec == spec && collected == {}
    {
      this.spec, collected := spec, {};
    }

    method CollectSchemaWithDependencies(name: string, schema: Json)
      requires collected <= spec.Keys && name in spec && spec[name] == schema
      modifies this`collected
      ensures Covers(spec, old(collected), {name}, collected)
      decreases spec.Keys - collected, 0
    {
      if name in collected {
        return;
      }
      collected := collected + {name};
      FindReferences(schema);
      CoversName(spec, old(collected), name, collected);
    }

    method FindReferences(obj: Json)
      requires collected <= spec.Keys
      modifies this`collected
      ensures Covers(spec, old(collected), Links(spec, obj), collected)
      decreases spec.Keys - collected, 2, obj
    {
      match obj
      case Obj(fields) =>
        ProcessRef(fields);
        ghost var own := OwnRef(fields) * spec.Keys;
        NoFields(spec, fields);
        assert own + FieldLinks(spec, fields, {}) == own;
        var todo := fields.Keys;
        assert fields.Keys - todo == {};
        while todo != {}
          invariant todo <= fields.Keys
          invariant Covers(spec, old(collected), own + FieldLinks(spec, fields, fields.Keys - todo), collected)
          decreases todo
        {
          var k :| k in todo;
          ghost var before := collected;
          FindReferences(fields[k]);
          CoversThen(spec, old(collected), own +
            FieldLinks(spec, fields, fields.Keys - todo), before, Links(spec, fields[k]), collected);
          NextField(spec, fields, fields.Keys - todo, k);
          assert fields.Keys - (todo - {k}) == fields.Keys - todo + {k};
          assert own + FieldLinks(spec, fields, fields.Keys - todo) + Links(spec, fields[k])
              == own + FieldLinks(spec, fields, fields.Keys - (todo - {k}));
          todo := todo - {k};
        }
        AllFields(spec, fields);
        assert fields.Keys - todo == fields.Keys;
      case Arr(items) =>
        assert ItemLinks(spec, items, 0) == {};
        CoversNothing(spec, collected);
        for i := 0 to |items|
          invariant Covers(spec, old(collected), ItemLinks(spec, items, i), collected)
        {
          ghost var before := collected;
          FindReferences(items[i]);
          CoversThen(spec, old(collected), ItemLinks(spec, items, i), before, Links(spec, items[i]), collected);
          NextItem(spec, items, i);
        }
        AllItems(spec, items);
      case _ =>
        CoversNothing(spec, collected);
        assert Links(spec, obj) == {};
    }

    method ProcessRef(fields: map<string, Json>)
      requires collected <= spec.Keys
      modifies this`collected
      ensures Covers(spec, old(collected), OwnRef(fields) * spec.Keys, collected)
      decreases spec.Keys - collected, 1
    {
      CoversNothing(spec, collected);
      if "$ref" !in fields || !fields["$ref"].Str? {
        assert OwnRef(fields) * spec.Keys == {};
        return;
      }
      var ref := fields["$ref"].text;
      if !(REF_PREFIX <= ref) {
        assert OwnRef(fields) * spec.Keys == {};
        return;
      }
      var name := ref[|REF_PREFIX|..];
      assert OwnRef(fields) == {name};
      if name in collected {
        CoversPresent(spec, collected, name);
        return;
      }
      if name in spec {
        assert OwnRef(fields) * spec.Keys == {name};
        CollectSchemaWithDependencies(name, spec[name]);
      } else {
        assert OwnRef(fields) * spec.Keys == {};
      }
    }
  }

  // ---------------------------------------------------------------- the configuration schema

  /** A field of the subscription configuration, as its Go source declares it. */
  datatype FieldInfo = FieldInfo(jsonName: string, typeName: string, typePkg: string, isSlice: bool, isMap: bool)

  datatype FieldSchema = StringMap | Ref(name: string) | ArrayOf(name: string)

  function TypeName(field: FieldInfo): string {
    if field.typePkg == "corev1" || field.typePkg == "v1" then "io.k8s.api.core.v1." + field.typeName else ""
  }

  /** The schema a field asks for. */
  predicate Requests(spec: Spec, field: FieldInfo, name: string) {
    !field.isMap && name != "" && name == TypeName(field) && name in spec
  }

  function Requested(spec: Spec, fields: seq<FieldInfo>): set<string> {
    set f | f in fields && Requests(spec, f, TypeName(f)) :: TypeName(f)
  }

  function FieldSchemaOf(spec: Spec, field: FieldInfo): Option<FieldSchema> {
    if field.isMap then Some(StringMap)
    else if Requests(spec, field, TypeName(field)) then
      Some(if field.isSlice then ArrayOf(TypeName(field)) else Ref(TypeName(field)))
    else None
  }

  method MapFieldToOpenAPISchema(field: FieldInfo, collector: Collector) returns (schema: Option<FieldSchema>)
    requires collector.collected <= collector.spec.Keys
    modifies collector`collected
    ensures schema == FieldSchemaOf(collector.spec, field)
    ensures Covers(collector.spec, old(collector.collected), Requested(collector.spec, [field]), collector.collected)
  {
    assert Requested(collector.spec, [field])
        == if Requests(collector.spec, field, TypeName(field)) then {TypeName(field)} else {} by {
      assert field in [field];
    }
    CoversNothing(collector.spec, collector.collected);
    if field.isMap {
      return Some(StringMap);
    }
    var name := TypeName(field);
    if name == "" || name !in collector.spec {
      return None;
    }
    collector.CollectSchemaWithDependencies(name, collector.spec[name]);
    schema := Some(if field.isSlice then ArrayOf(name) else Ref(name));
  }

  /** The field of that name that decides its property: the last one that has a schema. */
  function PropertyOf(spec: Spec, fields: seq<FieldInfo>, jsonName: string): Option<FieldSchema> {
    if fields == [] then None
    else
      var last := fields[|fields| - 1];
      if last.jsonName == jsonName && FieldSchemaOf(spec, last).Some? then FieldSchemaOf(spec, last)
      else PropertyOf(spec, fields[..|fields| - 1], jsonName)
  }

  predicate PointsTo(schema: FieldSchema, name: string) {
    match schema
    case StringMap => false
    case Ref(n) => n == name
    case ArrayOf(n) => n == name
  }

  method GenerateBundleConfigSchema(spec: Spec, fields: seq<FieldInfo>)
    returns (properties: map<string, FieldSchema>, components: map<string, Json>)
    ensures forall name ::
            (if name in properties then Some(properties[name]) else None) == PropertyOf(spec, fields, name)
    ensures components.Keys == Reachable(spec, Requested(spec, fields))
    ensures forall n <- components :: n in spec && components[n] == spec[n]
  {
    var collector := new Collector(spec);
    properties := map[];
    CoversNothing(spec, {});
    for i := 0 to |fields|
      invariant forall name ::
                (if name in properties then Some(properties[name]) else None) == PropertyOf(spec, fields[..i], name)
      invariant collector.spec == spec && Covers(spec, {}, Requested(spec, fields[..i]), collector.collected)
    {
      ghost var before := collector.collected;
      var schema := MapFieldToOpenAPISchema(fields[i], collector);
      assert fields[..i + 1][..i] == fields[..i];
      CoversThen(spec, {}, Requested(spec, fields[..i]), before, Requested(spec, [fields[i]]), collector.collected);
      NextRequested(spec, fields, i);
      if schema.Some? {
        properties := properties[fields[i].jsonName := schema.value];
      }
    }
    assert fields[..|fields|] == fields;
    CoversIsReachable(spec, Requested(spec, fields), collector.collected);
    components := map n | n in collector.collected && n in spec :: spec[n];
  }

  lemma NextRequested(spec: Spec, fields: seq<FieldInfo>, i: nat)
    requires i < |fields|
    ensures Requested(spec, fields[..i + 1]) == Requested(spec, fields[..i]) + Requested(spec, [fields[i]])
  {
    assert fields[..i + 1] == fields[..i] + [fields[i]];
  }

  /** Main result: starting from nothing, what covers the requested schemas is exactly what they
      reach by references, cyclic ones included. */
  lemma CoversIsReachable(spec: Spec, from: set<string>, collected: set<string>)
    requires from <= spec.Keys && Covers(spec, {}, from, collected)
    ensures collected == Reachable(spec, from)
  {
    assert collected - {} == collected;
    assert Closed(spec, collected);
    ReachableLeast(spec, from, collected);
    ReachableClosed(spec, from);
    assert from * spec.Keys == from;
  }

  /** Every property points into the components, and so does every resolvable reference in them. */
  lemma ComponentsClosed(spec: Spec, fields: seq<FieldInfo>, jsonName: string)
    ensures Closed(spec, Reachable(spec, Requested(spec, fields)))
    ensures var p := PropertyOf(spec, fields, jsonName);
            p.Some? ==> forall n | PointsTo(p.value, n) :: n in Reachable(spec, Requested(spec, fields))
  {
    ReachableClosed(spec, Requested(spec, fields));
    PropertyRequested(spec, fields, jsonName);
  }

  lemma {:induction false} PropertyRequested(spec: Spec, fields: seq<FieldInfo>, jsonName: string)
    ensures var p := PropertyOf(spec, fields, jsonName);
            p.Some? ==> forall n | PointsTo(p.value, n) :: n in Requested(spec, fields) && n in spec
  {
    if fields != [] {
      var last := fields[|fields| - 1];
      assert last in fields;
      PropertyRequested(spec, fields[..|fields| - 1], jsonName);
    }
  }
}
