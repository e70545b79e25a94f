/**
 * The graph (lib/graph.js, lib/unit/node.js, lib/unit/edge.js) as an arena of
 * nodes and edges indexed by integer ids. The library's own sources are not
 * part of this model: createNode, createEdge, link, setDistance and unlink are
 * given the meaning their call sites rely on, and closest is specified by its
 * postconditions only.
 */
module GraphLib {
  import opened Wrappers
  import opened Units

  datatype Arena = Arena(nodes: seq<Node>, edges: seq<Edge>)

  /** `x` is absent or names a node of the arena. */
  predicate InRange(a: Arena, x: Option<NodeId>)
  {
    x.Some? ==> x.value < |a.nodes|
  }

  /** Endpoints name nodes, and an unlinked edge has no endpoints. */
  ghost predicate EdgesOk(a: Arena)
  {
    forall e | 0 <= e < |a.edges| ::
      InRange(a, a.edges[e].source) && InRange(a, a.edges[e].target) &&
      (!a.edges[e].linked ==> a.edges[e].source.None? && a.edges[e].target.None?)
  }

  /** Every id on a node's lists names an edge. */
  ghost predicate ListsOk(a: Arena)
  {
    forall n, e | 0 <= n < |a.nodes| ::
      (e in a.nodes[n].edges ==> 0 <= e < |a.edges|) &&
      (e in a.nodes[n].inputEdges ==> 0 <= e < |a.edges|) &&
      (e in a.nodes[n].outputEdges ==> 0 <= e < |a.edges|)
  }

  /**
   * The registration invariant: an edge is on a node's outbound list iff the
   * node is its source, on the inbound list iff it is its target, and on the
   * incident list iff it is either.
   */
  ghost predicate Registered(a: Arena)
  {
    && (forall n, e | 0 <= n < |a.nodes| && 0 <= e < |a.edges| ::
          e in a.nodes[n].outputEdges <==> a.edges[e].source == Some(n))
    && (forall n, e | 0 <= n < |a.nodes| && 0 <= e < |a.edges| ::
          e in a.nodes[n].inputEdges <==> a.edges[e].target == Some(n))
    && (forall n, e | 0 <= n < |a.nodes| && 0 <= e < |a.edges| ::
          e in a.nodes[n].edges <==> (a.edges[e].source == Some(n) || a.edges[e].target == Some(n)))
  }

  ghost predicate Valid(a: Arena)
  {
    EdgesOk(a) && ListsOk(a) && Registered(a)
  }

  /** Node units are kept, index by index. */
  ghost predicate SameUnits(a: Arena, b: Arena)
  {
    |b.nodes| == |a.nodes| && forall n | 0 <= n < |a.nodes| :: b.nodes[n].unit == a.nodes[n].unit
  }

  /** createNode: a fresh node with no edges, whose uniqid is its index. */
  function AddNode(a: Arena, entity: Entity, properties: Props): (r: Arena)
    ensures |r.nodes| == |a.nodes| + 1 && r.nodes[..|a.nodes|] == a.nodes && r.edges == a.edges
    ensures r.nodes[|a.nodes|] == NewNode(entity, properties, |a.nodes|)
  {
    Arena(a.nodes + [NewNode(entity, properties, |a.nodes|)], a.edges)
  }

  /** createEdge: a fresh unlinked edge with no endpoints and no weight yet. */
  function AddEdge(a: Arena, entity: Entity, properties: Props): (r: Arena)
    ensures r.nodes == a.nodes && |r.edges| == |a.edges| + 1 && r.edges[..|a.edges|] == a.edges
    ensures r.edges[|a.edges|] == Edge(Unit(entity, properties, |a.edges|), None, None, 0, false)
  {
    Arena(a.nodes, a.edges + [Edge(Unit(entity, properties, |a.edges|), None, None, 0, false)])
  }

  /**
   * edge.link(s, t) on an unlinked edge: records both endpoints, marks the
   * edge linked, and registers it on the endpoints' lists.
   */
  function LinkEdge(a: Arena, e: EdgeId, s: Option<NodeId>, t: Option<NodeId>): (r: Arena)
    requires e < |a.edges| && InRange(a, s) && InRange(a, t)
    ensures SameUnits(a, r) && |r.edges| == |a.edges|
    ensures r.edges[e].linked && r.edges[e].source == s && r.edges[e].target == t
    ensures r.edges[e].unit == a.edges[e].unit && r.edges[e].distance == a.edges[e].distance
    ensures forall x | 0 <= x < |a.edges| && x != e :: r.edges[x] == a.edges[x]
  {
    Arena(seq(|a.nodes|, i requires 0 <= i < |a.nodes| => Attach(a.nodes[i], i, e, s, t)),
          a.edges[e := a.edges[e].(source := s, target := t, linked := true)])
  }

  /** edge.setDistance(d). */
  function SetEdgeDistance(a: Arena, e: EdgeId, d: int): (r: Arena)
    requires e < |a.edges|
    ensures r.nodes == a.nodes && |r.edges| == |a.edges|
    ensures r.edges[e] == a.edges[e].(distance := d)
    ensures forall x | 0 <= x < |a.edges| && x != e :: r.edges[x] == a.edges[x]
  {
    a.(edges := a.edges[e := a.edges[e].(distance := d)])
  }

  /**
   * edge.unlink(): withdraws the edge from its endpoints' lists, forgets the
   * endpoints and marks the edge unlinked; on an unlinked edge it changes nothing.
   */
  function UnlinkEdge(a: Arena, e: EdgeId): (r: Arena)
    requires e < |a.edges|
    ensures SameUnits(a, r) && |r.edges| == |a.edges|
    ensures r.edges[e] == a.edges[e].(source := None, target := None, linked := false)
    ensures forall x | 0 <= x < |a.edges| && x != e :: r.edges[x] == a.edges[x]
    ensures forall n, x | 0 <= n < |a.nodes| && x in r.nodes[n].edges :: x in a.nodes[n].edges
    ensures Valid(a) && !a.edges[e].linked ==> r.nodes == a.nodes
  {
    var x := a.edges[e];
    Arena(seq(|a.nodes|, i requires 0 <= i < |a.nodes| =>
                if x.source == Some(i) || x.target == Some(i) then Detach(a.nodes[i], e) else a.nodes[i]),
          a.edges[e := x.(source := None, target := None, linked := false)])
  }

  /** createNode keeps the arena valid. */
  lemma AddNodeValid(a: Arena, entity: Entity, properties: Props)
    requires Valid(a)
    ensures Valid(AddNode(a, entity, properties))
  {
  }

  /** createEdge keeps the arena valid. */
  lemma AddEdgeValid(a: Arena, entity: Entity, properties: Props)
    requires Valid(a)
    ensures Valid(AddEdge(a, entity, properties))
  {
  }

  /** Linking an unlinked edge keeps the arena valid: the edge is registered exactly on its new endpoints. */
  lemma LinkEdgeValid(a: Arena, e: EdgeId, s: Option<NodeId>, t: Option<NodeId>)
    requires Valid(a) && e < |a.edges| && !a.edges[e].linked && InRange(a, s) && InRange(a, t)
    ensures Valid(LinkEdge(a, e, s, t))
  {
    var r := LinkEdge(a, e, s, t);
    assert EdgesOk(r);
    LinkEdgeLists(a, e, s, t);
    forall n, x | 0 <= n < |a.nodes| && 0 <= x < |a.edges|
      ensures (x in r.nodes[n].outputEdges <==> r.edges[x].source == Some(n))
      ensures (x in r.nodes[n].inputEdges <==> r.edges[x].target == Some(n))
      ensures (x in r.nodes[n].edges <==> (r.edges[x].source == Some(n) || r.edges[x].target == Some(n)))
    {
      AttachRegisters(a, n, e, s, t, x);
    }
  }

  lemma LinkEdgeLists(a: Arena, e: EdgeId, s: Option<NodeId>, t: Option<NodeId>)
    requires ListsOk(a) && e < |a.edges| && InRange(a, s) && InRange(a, t)
    ensures ListsOk(LinkEdge(a, e, s, t))
  {
    var r := LinkEdge(a, e, s, t);
    forall n | 0 <= n < |a.nodes|
      ensures r.nodes[n] == Attach(a.nodes[n], n, e, s, t)
    {
    }
  }

  /** Node `n` after link(s, t) of edge `e`: edge `x` is on its lists exactly when `n` is an endpoint of `x`. */
  lemma AttachRegisters(a: Arena, n: NodeId, e: EdgeId, s: Option<NodeId>, t: Option<NodeId>, x: EdgeId)
    requires Valid(a) && e < |a.edges| && !a.edges[e].linked && InRange(a, s) && InRange(a, t)
    requires n < |a.nodes| && x < |a.edges|
    ensures var r := LinkEdge(a, e, s, t);
      && (x in r.nodes[n].outputEdges <==> r.edges[x].source == Some(n))
      && (x in r.nodes[n].inputEdges <==> r.edges[x].target == Some(n))
      && (x in r.nodes[n].edges <==> (r.edges[x].source == Some(n) || r.edges[x].target == Some(n)))
  {
    var r := LinkEdge(a, e, s, t);
    var nd := a.nodes[n];
    assert r.nodes[n] == Attach(nd, n, e, s, t);
    if x == e {
      assert e !in nd.edges && e !in nd.inputEdges && e !in nd.outputEdges;
    } else {
      assert r.edges[x] == a.edges[x];
    }
  }

  /** setDistance keeps the arena valid. */
  lemma SetEdgeDistanceValid(a: Arena, e: EdgeId, d: int)
    requires Valid(a) && e < |a.edges|
    ensures Valid(SetEdgeDistance(a, e, d))
  {
  }

  /** Unlinking keeps the arena valid: the edge leaves every list it was on. */
  lemma UnlinkEdgeValid(a: Arena, e: EdgeId)
    requires Valid(a) && e < |a.edges|
    ensures Valid(UnlinkEdge(a, e))
  {
  }

  /** Unlinking twice is unlinking once. */
  lemma UnlinkIdempotent(a: Arena, e: EdgeId)
    requires Valid(a) && e < |a.edges|
    ensures UnlinkEdge(UnlinkEdge(a, e), e) == UnlinkEdge(a, e)
  {
    var r := UnlinkEdge(a, e);
    assert r.edges[e] == r.edges[e].(source := None, target := None, linked := false);
    assert r.edges[e := r.edges[e]] == r.edges;
  }

  /** Unlinking an edge that was just linked from the unlinked state undoes the link. */
  lemma {:induction false} UnlinkUndoesLink(a: Arena, e: EdgeId, s: Option<NodeId>, t: Option<NodeId>)
    requires Valid(a) && e < |a.edges| && !a.edges[e].linked && InRange(a, s) && InRange(a, t)
    ensures UnlinkEdge(LinkEdge(a, e, s, t), e) == a
  {
    var l := LinkEdge(a, e, s, t);
    var r := UnlinkEdge(l, e);
    assert r.edges == a.edges;
    forall i | 0 <= i < |a.nodes|
      ensures r.nodes[i] == a.nodes[i]
    {
      var nd := a.nodes[i];
      if s == Some(i) || t == Some(i) {
        assert e !in nd.edges && e !in nd.inputEdges && e !in nd.outputEdges;
        RemoveAppended(nd.edges, e);
        if t == Some(i) { RemoveAppended(nd.inputEdges, e); }
        if s == Some(i) { RemoveAppended(nd.outputEdges, e); }
      }
    }
  }

  /** Setting the weight commutes with linking and unlinking. */
  lemma SetDistanceCommutes(a: Arena, e: EdgeId, d: int, s: Option<NodeId>, t: Option<NodeId>)
    requires e < |a.edges| && InRange(a, s) && InRange(a, t)
    ensures LinkEdge(SetEdgeDistance(a, e, d), e, s, t) == SetEdgeDistance(LinkEdge(a, e, s, t), e, d)
    ensures UnlinkEdge(SetEdgeDistance(a, e, d), e) == SetEdgeDistance(UnlinkEdge(a, e), e, d)
  {
  }

  /** The Node.unlink loop: unlink the edges of `es` one after the other, in index order. */
  function UnlinkAll(a: Arena, es: seq<EdgeId>): (r: Arena)
    requires forall i | 0 <= i < |es| :: es[i] < |a.edges|
    ensures SameUnits(a, r) && |r.edges| == |a.edges|
    decreases |es|
  {
    if es == [] then a else UnlinkEdge(UnlinkAll(a, es[..|es| - 1]), es[|es| - 1])
  }

  /** Unlinking a list of edges keeps the arena valid. */
  lemma {:induction false} UnlinkAllValid(a: Arena, es: seq<EdgeId>)
    requires Valid(a) && forall i | 0 <= i < |es| :: es[i] < |a.edges|
    ensures Valid(UnlinkAll(a, es))
    decreases |es|
  {
    if es != [] {
      UnlinkAllValid(a, es[..|es| - 1]);
      UnlinkEdgeValid(UnlinkAll(a, es[..|es| - 1]), es[|es| - 1]);
    }
  }

  /** After unlinking a list of edges, each listed edge is unlinked and every other edge is as it was. */
  lemma {:induction false} UnlinkAllEdges(a: Arena, es: seq<EdgeId>)
    requires forall i | 0 <= i < |es| :: es[i] < |a.edges|
    ensures forall e | e in es :: !UnlinkAll(a, es).edges[e].linked
    ensures forall e | 0 <= e < |a.edges| && e !in es :: UnlinkAll(a, es).edges[e] == a.edges[e]
    decreases |es|
  {
    if es != [] {
      var init, last := es[..|es| - 1], es[|es| - 1];
      UnlinkAllEdges(a, init);
      assert es == init + [last];
    }
  }

  /** Unlinking a list of edges only takes entries off the incident lists. */
  lemma {:induction false} UnlinkAllShrinks(a: Arena, es: seq<EdgeId>)
    requires forall i | 0 <= i < |es| :: es[i] < |a.edges|
    ensures forall n, x | 0 <= n < |a.nodes| && x in UnlinkAll(a, es).nodes[n].edges :: x in a.nodes[n].edges
    decreases |es|
  {
    if es != [] {
      UnlinkAllShrinks(a, es[..|es| - 1]);
    }
  }

  /**
   * The unlink cascade: after a node unlinks the edges it had, each of those
   * edges is unlinked, no other edge changed, and the node's three lists are empty.
   */
  lemma NodeUnlinkCascade(a: Arena, n: NodeId)
    requires Valid(a) && n < |a.nodes|
    ensures forall i | 0 <= i < |a.nodes[n].edges| :: a.nodes[n].edges[i] < |a.edges|
    ensures var r := UnlinkAll(a, a.nodes[n].edges);
      && Valid(r)
      && (forall e | e in a.nodes[n].edges :: !r.edges[e].linked)
      && (forall e | 0 <= e < |a.edges| && e !in a.nodes[n].edges :: r.edges[e] == a.edges[e])
      && (forall x :: x !in r.nodes[n].edges && x !in r.nodes[n].inputEdges && x !in r.nodes[n].outputEdges)
  {
    var es := a.nodes[n].edges;
    assert forall i | 0 <= i < |es| :: es[i] in a.nodes[n].edges;
    UnlinkAllValid(a, es);
    UnlinkAllEdges(a, es);
    UnlinkAllShrinks(a, es);
    var r := UnlinkAll(a, es);
    forall x
      ensures x !in r.nodes[n].edges && x !in r.nodes[n].inputEdges && x !in r.nodes[n].outputEdges
    {
      assert Registered(r) && ListsOk(r) && EdgesOk(r);
      if 0 <= x < |r.edges| && x in es {
        assert r.edges[x].source.None? && r.edges[x].target.None?;
      } else if 0 <= x < |r.edges| {
        assert x !in r.nodes[n].edges;
        assert r.edges[x].source != Some(n) && r.edges[x].target != Some(n);
      }
    }
  }

  /** A walk from `from` to `to` along linked edges, each leaving the node the previous one entered. */
  predicate IsWalk(a: Arena, from: NodeId, steps: seq<EdgeId>, to: NodeId)
    decreases |steps|
  {
    if steps == [] then from == to
    else
      && steps[0] < |a.edges|
      && a.edges[steps[0]].linked
      && a.edges[steps[0]].source == Some(from)
      && a.edges[steps[0]].target.Some?
      && IsWalk(a, a.edges[steps[0]].target.value, steps[1..], to)
  }

  /** One result of closest: the path's edges and the node it ends at (`result.end()`). */
  datatype Path = Path(steps: seq<EdgeId>, end: NodeId)

  /** A result closest may return: a walk from the entry, at least minDepth edges long, to a node compare accepts. */
  predicate Admissible(a: Arena, entry: NodeId, compare: Unit -> bool, minDepth: int, p: Path)
  {
    p.end < |a.nodes| && compare(a.nodes[p.end].unit) && |p.steps| >= minDepth && IsWalk(a, entry, p.steps, p.end)
  }

  class Graph {
    var nodes: seq<Node>
    var edges: seq<Edge>

    function View(): Arena
      reads this
    {
      Arena(nodes, edges)
    }

    constructor ()
      ensures View() == Arena([], [])
    {
      nodes := [];
      edges := [];
    }

    method CreateNode(entity: Entity, properties: Props) returns (n: NodeId)
      modifies this
      ensures n == |old(nodes)| && View() == AddNode(old(View()), entity, properties)
    {
      n := |nodes|;
      nodes := nodes + [NewNode(entity, properties, n)];
    }

    method CreateEdge(entity: Entity, properties: Props) returns (e: EdgeId)
      modifies this
      ensures e == |old(edges)| && View() == AddEdge(old(View()), entity, properties)
    {
      e := |edges|;
      edges := edges + [Edge(Unit(entity, properties, e), None, None, 0, false)];
    }

    /** edge.link(s, t), fluent: returns the edge it was called on. */
    method Link(e: EdgeId, s: Option<NodeId>, t: Option<NodeId>) returns (r: EdgeId)
      requires e < |edges| && InRange(View(), s) && InRange(View(), t)
      modifies this
      ensures r == e && View() == LinkEdge(old(View()), e, s, t)
    {
      var a := LinkEdge(View(), e, s, t);
      nodes, edges := a.nodes, a.edges;
      r := e;
    }

    method SetDistance(e: EdgeId, d: int)
      requires e < |edges|
      modifies this
      ensures View() == SetEdgeDistance(old(View()), e, d)
    {
      edges := edges[e := edges[e].(distance := d)];
    }

    /** edge.unlink(). */
    method Unlink(e: EdgeId)
      requires e < |edges|
      modifies this
      ensures View() == UnlinkEdge(old(View()), e)
    {
      var a := UnlinkEdge(View(), e);
      nodes, edges := a.nodes, a.edges;
    }

    /**
     * Node.unlink: calls unlink on each edge of the node's incident list, in
     * index order, the bound fixed to the list's length on entry; returns true.
     */
    method UnlinkNode(n: NodeId) returns (ok: bool)
      requires Valid(View()) && n < |nodes|
      modifies this
      ensures ok
      ensures forall i | 0 <= i < |old(nodes[n].edges)| :: old(nodes[n].edges[i]) < |old(edges)|
      ensures View() == UnlinkAll(old(View()), old(nodes[n].edges))
    {
      var es := nodes[n].edges;
      var len := |es|;
      ghost var a0 := View();
      assert forall i | 0 <= i < len :: es[i] in a0.nodes[n].edges;
      assert ListsOk(a0);
      assert forall i | 0 <= i < len :: es[i] < |a0.edges|;
      for i := 0 to len
        invariant |edges| == |a0.edges|
        invariant View() == UnlinkAll(a0, es[..i])
      {
        assert es[..i + 1][..i] == es[..i];
        Unlink(es[i]);
      }
      assert es[..len] == es;
      ok := true;
    }

    /**
     * closest(entry, {compare, minDepth, count}): at most `count` paths (none
     * when `count` is not positive), each a walk from `entry` of at least
     * `minDepth` edges ending at a node `compare` accepts. Which paths, and in
     * which order, is the library's search and is not modelled.
     */
    method Closest(entry: NodeId, compare: Unit -> bool, minDepth: int, count: int) returns (results: seq<Path>)
      requires entry < |nodes|
      ensures |results| <= if count < 0 then 0 else count
      ensures forall i | 0 <= i < |results| :: Admissible(View(), entry, compare, minDepth, results[i])
    {
      results :| |results| <= (if count < 0 then 0 else count) &&
                 forall i | 0 <= i < |results| :: Admissible(View(), entry, compare, minDepth, results[i]);
    }
  }
}
