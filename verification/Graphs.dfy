/** The graph forest: parent ids, paths and the recursive descendants query. */
module Graphs {
  import opened Wrappers
  import opened Text
  import opened Seqs
  import opened Content

  predicate IsChild(t: Tables, q: nat, g: nat) {
    g in t.graphs && t.graphs[g].parent == Some(q)
  }

  function Children(t: Tables, q: nat): set<nat> {
    set g | g in t.graphs && t.graphs[g].parent == Some(q)
  }

  /** d is reached from g by following parent ids, one step or more. */
  ghost predicate Descends(t: Tables, g: nat, d: nat) {
    d in t.graphs && d > g &&
    match t.graphs[d].parent
    case None => false
    case Some(q) => q == g || (q < d && Descends(t, g, q))
  }

  /** d lies strictly below the path of g, in the same catalog. */
  predicate Below(t: Tables, g: nat, d: nat)
    requires g in t.graphs
  {
    d in t.graphs && t.graphs[d].catalog == t.graphs[g].catalog && t.graphs[g].path + "/" <= t.graphs[d].path
  }

  lemma {:induction false} DescendsBelow(t: Tables, g: nat, d: nat)
    requires Shaped(t) && g in t.graphs && Descends(t, g, d)
    ensures Below(t, g, d)
    decreases d
  {
    assert GraphShape(t, d);
    var q := t.graphs[d].parent.value;
    if q != g {
      DescendsBelow(t, g, q);
    }
  }

  /** Cutting one segment off a path that extends p leaves p or something that extends p. */
  lemma CutSegment(p: string, q: string, name: string)
    requires '/' !in name && p + "/" <= q + "/" + name
    ensures p == q || p + "/" <= q
  {
    var whole := q + "/" + name;
    assert whole[|p|] == (p + "/")[|p|] == '/';
    assert forall i | |q| < i < |whole| :: whole[i] == name[i - |q| - 1];
    if |p| == |q| {
      assert p == whole[..|p|] == q;
    } else {
      assert p + "/" == whole[..|p| + 1] == q[..|p| + 1];
    }
  }

  lemma ExtensionHasSlash(p: string, s: string)
    requires p + "/" <= s
    ensures '/' in s
  {
    assert s[|p|] == (p + "/")[|p|];
  }

  lemma {:induction false} BelowDescends(t: Tables, g: nat, d: nat)
    requires Shaped(t) && UniquePaths(t) && g in t.graphs && Below(t, g, d)
    ensures Descends(t, g, d)
    decreases d
  {
    assert GraphShape(t, d);
    var row := t.graphs[d];
    ExtensionHasSlash(t.graphs[g].path, row.path);
    var q := row.parent.value;
    CutSegment(t.graphs[g].path, t.graphs[q].path, row.name);
    if t.graphs[g].path != t.graphs[q].path {
      BelowDescends(t, g, q);
    }
  }

  /** Following parent ids down from a graph reaches exactly the graphs of its catalog whose path
      strictly extends its own. */
  lemma DescendantsByPath(t: Tables, g: nat, d: nat)
    requires Valid(t) && g in t.graphs
    ensures Descends(t, g, d) <==> Below(t, g, d)
  {
    if Descends(t, g, d) {
      DescendsBelow(t, g, d);
    }
    if Below(t, g, d) {
      BelowDescends(t, g, d);
    }
  }

  lemma SplitAppend(p: string, name: string, sep: char)
    requires sep !in name
    ensures Split(p + [sep] + name, sep) == Split(p, sep) + [name]
  {
    var parts := Split(p, sep);
    JoinSplit(p, sep);
    assert (parts + [name])[..|parts|] == parts;
    JoinLast(parts + [name], sep);
    SplitJoin(parts + [name], sep);
  }

  /** The first k segments are the path of a row of g's catalog, an older one if they are not all. */
  ghost predicate PrefixStored(t: Tables, g: nat, segs: seq<string>, k: nat)
    requires g in t.graphs && k <= |segs|
  {
    exists h: nat :: IsGraph(t, t.graphs[g].catalog, Join(segs[..k], '/'), h) && (if k < |segs| then h < g else h == g)
  }

  /** The stored graphs form a forest over paths: a row's path splits into accepted segments, and every
      proper prefix of them is the path of a row of the same catalog with a smaller id. */
  lemma {:induction false} PrefixesStored(t: Tables, g: nat, k: nat)
    requires Shaped(t) && g in t.graphs && 0 < k <= |Split(t.graphs[g].path, '/')|
    ensures AcceptedPath(Split(t.graphs[g].path, '/')) && PrefixStored(t, g, Split(t.graphs[g].path, '/'), k)
    decreases g
  {
    var row := t.graphs[g];
    var segs := Split(row.path, '/');
    assert GraphShape(t, g);
    JoinSplit(row.path, '/');
    if row.parent.None? {
      SplitOne(row.name, '/');
      assert segs[..k] == segs && IsGraph(t, row.catalog, Join(segs, '/'), g);
    } else {
      var q := row.parent.value;
      var above := Split(t.graphs[q].path, '/');
      SplitAppend(t.graphs[q].path, row.name, '/');
      assert row.path == t.graphs[q].path + ['/'] + row.name;
      assert segs == above + [row.name];
      PrefixesStored(t, q, if k < |segs| then k else |above|);
      if k < |segs| {
        assert segs[..k] == above[..k];
      } else {
        assert segs[..k] == segs && IsGraph(t, row.catalog, Join(segs, '/'), g);
      }
    }
  }

  lemma {:induction false} DescendsFrom(t: Tables, g: nat, q: nat, d: nat)
    requires Shaped(t) && IsChild(t, q, d) && (q == g || Descends(t, g, q))
    ensures Descends(t, g, d)
  {
    assert GraphShape(t, d);
  }

  /** The rows already yielded and the rows still queued: all are descendants, none twice, and
      what is missing is reachable only through the queue. */
  ghost predicate Frontier(t: Tables, g: nat, ids: seq<nat>, queue: seq<nat>) {
    && Distinct(ids + queue)
    && (forall d <- ids + queue :: Descends(t, g, d))
    && (forall d <- ids + queue :: t.graphs[d].parent == Some(g) || t.graphs[d].parent.value in ids)
    && (forall d :: IsChild(t, g, d) ==> d in ids + queue)
    && (forall q, d :: q in ids && IsChild(t, q, d) ==> d in ids + queue)
  }

  lemma NewKid(t: Tables, g: nat, ids: seq<nat>, queue: seq<nat>, k: nat)
    requires Shaped(t) && Frontier(t, g, ids, queue) && queue != [] && IsChild(t, queue[0], k)
    ensures Descends(t, g, k) && k !in ids + queue
  {
    var head := queue[0];
    assert (ids + queue)[|ids|] == head;
    DescendsFrom(t, g, head, k);
    DistinctHead(ids, queue);
    assert t.graphs[k].parent == Some(head) && head !in ids && head != g;
  }

  /** Moving the head over and queueing fresh kids keeps every row once. */
  lemma HeadMoves(ids: seq<nat>, queue: seq<nat>, kids: seq<nat>)
    requires Distinct(ids + queue) && queue != [] && Distinct(kids) && forall k <- kids :: k !in ids + queue
    ensures var now := (ids + [queue[0]]) + (queue[1..] + kids);
            Distinct(now) && forall d :: d in now <==> d in ids + queue || d in kids
    ensures queue[0] in ids + queue && queue[0] !in ids
  {
    assert (ids + [queue[0]]) + (queue[1..] + kids) == (ids + queue) + kids;
    DistinctAppend(ids + queue, kids);
    DistinctHead(ids, queue);
    assert (ids + queue)[|ids|] == queue[0];
  }

  lemma FrontierStep(t: Tables, g: nat, ids: seq<nat>, queue: seq<nat>, kids: seq<nat>)
    requires Shaped(t) && Frontier(t, g, ids, queue) && queue != []
    requires Distinct(kids) && forall k :: k in kids <==> IsChild(t, queue[0], k)
    ensures Frontier(t, g, ids + [queue[0]], queue[1..] + kids)
    ensures queue[0] in t.graphs && queue[0] !in ids
  {
    forall k <- kids ensures Descends(t, g, k) && k !in ids + queue {
      NewKid(t, g, ids, queue, k);
    }
    HeadMoves(ids, queue, kids);
    var head, was, now := queue[0], ids + queue, (ids + [queue[0]]) + (queue[1..] + kids);
    forall d <- now ensures Descends(t, g, d) &&
      (t.graphs[d].parent == Some(g) || t.graphs[d].parent.value in ids + [head]) {
      if d !in was {
        assert IsChild(t, head, d);
      }
    }
    forall q, d | q in ids + [head] && IsChild(t, q, d) ensures d in now {
    }
  }

  lemma FrontierStart(t: Tables, g: nat, queue: seq<nat>)
    requires Shaped(t) && Distinct(queue) && forall k :: k in queue <==> IsChild(t, g, k)
    ensures Frontier(t, g, [], queue)
  {
    assert [] + queue == queue;
    forall d <- queue ensures Descends(t, g, d) {
      DescendsFrom(t, g, g, d);
    }
  }

  lemma FrontierDone(t: Tables, g: nat, ids: seq<nat>)
    requires Frontier(t, g, ids, [])
    ensures Distinct(ids) && forall d :: d in ids <==> Descends(t, g, d)
  {
    assert ids + [] == ids;
    forall d | Descends(t, g, d) ensures d in ids {
      Reached(t, g, ids, d);
    }
  }

  /** WITH RECURSIVE descendants ... UNION ALL: rows leave a queue one at a time and put their
      children on it. UNION ALL drops no duplicates and would loop on a cycle; the forest has
      neither, so the query ends and yields every descendant once. */
  method DescendantIds(t: Tables, g: nat) returns (ids: seq<nat>)
    requires Shaped(t)
    ensures Distinct(ids)
    ensures forall d :: d in ids <==> Descends(t, g, d)
  {
    ids := [];
    var queue := Enumerate(Children(t, g));
    FrontierStart(t, g, queue);
    while queue != []
      invariant Frontier(t, g, ids, queue)
      decreases t.graphs.Keys - Elems(ids)
    {
      var kids := Enumerate(Children(t, queue[0]));
      FrontierStep(t, g, ids, queue, kids);
      assert queue[0] !in Elems(ids) && queue[0] in Elems(ids + [queue[0]]);
      ids, queue := ids + [queue[0]], queue[1..] + kids;
    }
    FrontierDone(t, g, ids);
  }

  lemma {:induction false} Reached(t: Tables, g: nat, ids: seq<nat>, d: nat)
    requires Descends(t, g, d)
    requires forall k :: IsChild(t, g, k) ==> k in ids
    requires forall q, k :: q in ids && IsChild(t, q, k) ==> k in ids
    ensures d in ids
    decreases d
  {
    var q := t.graphs[d].parent.value;
    assert IsChild(t, q, d);
    if q != g {
      Reached(t, g, ids, q);
    }
  }
}
