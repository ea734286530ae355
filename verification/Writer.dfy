/** The catalog writer: what each of its operations does to the tables, what the same
    operation means for the catalog by name, and the proof that the two agree. */
module Writer {
  import opened Wrappers
  import opened Text
  import opened Content
  import opened Semver

  /** One call of the Writer interface. Property values are the marshalled JSON text, or None
      where marshalling fails. */
  datatype Op =
    | InsertBundle(id: string, pkg: string, version: string, release: string, uri: string)
    | CreateGraph(path: seq<string>)
    | AddBundleToGraph(path: seq<string>, id: string)
    | AddEdge(path: seq<string>, from: string, to: string)
    | AddPredecessorRange(path: seq<string>, id: string, range: string)
    | SetBundleProperty(id: string, key: string, json: Option<string>)
    | SetGraphProperty(path: seq<string>, key: string, json: Option<string>)
    | SetGraphDeprecation(path: seq<string>, message: string)
    | SetBundleDeprecation(id: string, message: string)

  // ---------------------------------------------------------------- on the tables

  /** The path lookup: an empty or rejected path names nothing. */
  ghost function Resolve(t: Tables, c: string, path: seq<string>): Option<nat> {
    if path == [] || !AcceptedPath(path) then None else GraphId(t, c, Join(path, '/'))
  }

  function WithGraph(t: Tables, row: GraphRow): Tables {
    t.(graphs := t.graphs[t.lastGraph + 1 := row], lastGraph := t.lastGraph + 1)
  }

  function WithBundle(t: Tables, row: BundleRow): Tables {
    t.(bundles := t.bundles[t.lastBundle + 1 := row], lastBundle := t.lastBundle + 1)
  }

  function WithMember(t: Tables, m: Slot): Tables {
    t.(members := t.members + {m})
  }

  function WithEdge(t: Tables, e: EdgeRow): Tables {
    t.(edges := t.edges + {e})
  }

  function WithRange(t: Tables, k: Slot, range: string): Tables {
    t.(ranges := t.ranges[k := range])
  }

  function WithGraphProp(t: Tables, p: GraphProp, json: string): Tables {
    t.(graphProps := t.graphProps[p := json])
  }

  function WithBundleProp(t: Tables, p: BundleProp, json: string): Tables {
    t.(bundleProps := t.bundleProps[p := json])
  }

  function WithGraphMessage(t: Tables, g: nat, message: string): Tables
    requires g in t.graphs
  {
    t.(graphs := t.graphs[g := t.graphs[g].(deprecation := Some(message))])
  }

  function WithBundleMessage(t: Tables, b: nat, message: string): Tables
    requires b in t.bundles
  {
    var row := t.bundles[b];
    t.(bundles := t.bundles[b := row.(info := row.info.(deprecation := Some(message)))])
  }

  ghost function Step(lib: SemverLib, t: Tables, c: string, op: Op): Outcome<Tables> {
    match op
    case InsertBundle(id, pkg, version, release, uri) =>
      if BundleId(t, c, id).Some? then Outcome(true, t)
      else Outcome(true, WithBundle(t, BundleRow(c, id, BundleInfo(pkg, version, release, uri, None))))
    case CreateGraph(path) =>
      if path == [] || !AcceptedPath(path) then Outcome(false, t)
      else
        var init, name := path[..|path| - 1], path[|path| - 1];
        var parent := Resolve(t, c, init);
        if (|path| > 1 && parent.None?) || Resolve(t, c, path).Some? then Outcome(false, t)
        else Outcome(true, WithGraph(t, GraphRow(c, name, Join(path, '/'), parent, None)))
    case AddBundleToGraph(path, id) =>
      (match Resolve(t, c, path)
       case None => Outcome(false, t)
       case Some(g) =>
         match BundleId(t, c, id)
         case None => Outcome(true, t)
         case Some(b) =>
           if Slot(g, b) in t.members then Outcome(false, t)
           else Outcome(true, WithMember(t, Slot(g, b))))
    case AddEdge(path, from, to) =>
      (match Resolve(t, c, path)
       case None => Outcome(false, t)
       case Some(g) =>
         var f, n := BundleId(t, c, from), BundleId(t, c, to);
         if f.None? || n.None? then Outcome(true, t)
         else Outcome(true, WithEdge(t, EdgeRow(g, f.value, n.value))))
    case AddPredecessorRange(path, id, range) =>
      (match Resolve(t, c, path)
       case None => Outcome(false, t)
       case Some(g) =>
         match BundleId(t, c, id)
         case None => Outcome(false, t)
         case Some(b) =>
           if !lib.parsesRange(range) || Slot(g, b) in t.ranges then Outcome(false, t)
           else Outcome(true, WithRange(t, Slot(g, b), range)))
    case SetBundleProperty(id, key, json) =>
      if BundleId(t, c, id).None? || json.None? || json.value == "" then Outcome(false, t)
      else Outcome(true, WithBundleProp(t, BundleProp(c, id, key), json.value))
    case SetGraphProperty(path, key, json) =>
      (match Resolve(t, c, path)
       case None => Outcome(false, t)
       case Some(g) =>
         if json.None? || json.value == "" then Outcome(false, t)
         else Outcome(true, WithGraphProp(t, GraphProp(g, key), json.value)))
    case SetGraphDeprecation(path, message) =>
      if !AcceptedPath(path) then Outcome(false, t)
      else
        (match Resolve(t, c, path)
         case None => Outcome(true, t)
         case Some(g) =>
           if message == "" then Outcome(false, t)
           else Outcome(true, WithGraphMessage(t, g, message)))
    case SetBundleDeprecation(id, message) =>
      match BundleId(t, c, id)
      case None => Outcome(true, t)
      case Some(b) =>
        if message == "" then Outcome(false, t)
        else Outcome(true, WithBundleMessage(t, b, message))
  }

  // ---------------------------------------------------------------- by name

  predicate Names(v: View, path: seq<string>) {
    path != [] && AcceptedPath(path) && Join(path, '/') in v.nodes
  }

  predicate HasRange(ranges: set<(string, string)>, id: string) {
    exists r <- ranges :: r.0 == id
  }

  function SetNode(v: View, path: seq<string>, n: Node): View {
    v.(nodes := v.nodes[Join(path, '/') := n])
  }

  /** The same operation on the catalog by name. */
  function ViewStep(lib: SemverLib, v: View, op: Op): Outcome<View> {
    match op
    case InsertBundle(id, pkg, version, release, uri) =>
      if id in v.bundles then Outcome(true, v)
      else Outcome(true, v.(bundles := v.bundles[id := BundleInfo(pkg, version, release, uri, None)]))
    case CreateGraph(path) =>
      if path == [] || !AcceptedPath(path) || Names(v, path) || (|path| > 1 && !Names(v, path[..|path| - 1]))
      then Outcome(false, v)
      else Outcome(true, SetNode(v, path, NEW_NODE))
    case AddBundleToGraph(path, id) =>
      if !Names(v, path) then Outcome(false, v)
      else
        var n := v.nodes[Join(path, '/')];
        if id !in v.bundles then Outcome(true, v)
        else if id in n.members then Outcome(false, v)
        else Outcome(true, SetNode(v, path, n.(members := n.members + {id})))
    case AddEdge(path, from, to) =>
      if !Names(v, path) then Outcome(false, v)
      else if from !in v.bundles || to !in v.bundles then Outcome(true, v)
      else
        var n := v.nodes[Join(path, '/')];
        Outcome(true, SetNode(v, path, n.(edges := n.edges + {(from, to)})))
    case AddPredecessorRange(path, id, range) =>
      if !Names(v, path) || id !in v.bundles || !lib.parsesRange(range) then Outcome(false, v)
      else
        var n := v.nodes[Join(path, '/')];
        if HasRange(n.ranges, id) then Outcome(false, v)
        else Outcome(true, SetNode(v, path, n.(ranges := n.ranges + {(id, range)})))
    case SetBundleProperty(id, key, json) =>
      if id !in v.bundles || json.None? || json.value == "" then Outcome(false, v)
      else Outcome(true, v.(props := v.props[(id, key) := json.value]))
    case SetGraphProperty(path, key, json) =>
      if !Names(v, path) || json.None? || json.value == "" then Outcome(false, v)
      else
        var n := v.nodes[Join(path, '/')];
        Outcome(true, SetNode(v, path, n.(props := n.props[key := json.value])))
    case SetGraphDeprecation(path, message) =>
      if !AcceptedPath(path) then Outcome(false, v)
      else if !Names(v, path) then Outcome(true, v)
      else if message == "" then Outcome(false, v)
      else Outcome(true, SetNode(v, path, v.nodes[Join(path, '/')].(deprecation := Some(message))))
    case SetBundleDeprecation(id, message) =>
      if id !in v.bundles then Outcome(true, v)
      else if message == "" then Outcome(false, v)
      else Outcome(true, v.(bundles := v.bundles[id := v.bundles[id].(deprecation := Some(message))]))
  }

  // ---------------------------------------------------------------- properties

  predicate PropertyOp(op: Op) {
    op.SetBundleProperty? || op.SetGraphProperty?
  }

  /** v and w hold the same, properties aside. */
  ghost predicate SameButProps(v: View, w: View) {
    && v.bundles == w.bundles && v.nodes.Keys == w.nodes.Keys
    && forall q <- v.nodes :: w.nodes[q] == v.nodes[q].(props := w.nodes[q].props)
  }

  lemma PropertyStep(lib: SemverLib, v: View, op: Op)
    requires PropertyOp(op)
    ensures SameButProps(v, ViewStep(lib, v, op).state)
  {
  }

  lemma SameButPropsTransitive(u: View, v: View, w: View)
    requires SameButProps(u, v) && SameButProps(v, w)
    ensures SameButProps(u, w)
  {
  }
}
