/**
 * How the graph manager's write operations combine: following is
 * idempotent, and unfollowing, deleting a comment or withdrawing a like right
 * after creating it gives the manager back as it was, except that the
 * created edge stays behind in the graph, unlinked (the source never removes
 * an edge object from the graph, it only unlinks it).
 */
module ManagerLaws {
  import opened Wrappers
  import opened Rows
  import opened Units
  import opened GraphLib
  import opened ManagerSpec
  import opened ManagerInvariant
  import Distants

  /** Moving an edge to where it already is, with the weight it already has, changes nothing. */
  lemma RelinkIdempotent(a: Arena, e: EdgeId, s: Option<NodeId>, t: Option<NodeId>, w: int)
    requires Valid(a) && e < |a.edges| && InRange(a, s) && InRange(a, t)
    ensures Relink(Relink(a, e, s, t, w), e, s, t, w) == Relink(a, e, s, t, w)
  {
    var u := UnlinkEdge(a, e);
    UnlinkEdgeValid(a, e);
    var l := LinkEdge(u, e, s, t);
    var b := SetEdgeDistance(l, e, w);
    assert b == Relink(a, e, s, t, w);
    SetDistanceCommutes(l, e, w, s, t);
    UnlinkUndoesLink(u, e, s, t);
    assert UnlinkEdge(b, e) == SetEdgeDistance(u, e, w);
    SetDistanceCommutes(u, e, w, s, t);
    assert LinkEdge(UnlinkEdge(b, e), e, s, t) == b;
    assert b.edges[e := b.edges[e].(distance := w)] == b.edges;
  }

  /** followUser on an indexed relation only moves the relation's edge. */
  lemma FollowKnown(s: GraphState, rel: Relation)
    requires Wf(s) && rel.id in s.relations
    ensures FollowUser(s, Some(rel))
            == s.(arena := Relink(s.arena, s.relations[rel.id], Get(s.users, rel.userId), Get(s.users, rel.followerId), Distants.Follow))
  {
    assert s.relations[rel.id := s.relations[rel.id]] == s.relations;
  }

  /** followUser twice with the same relation is followUser once. */
  lemma FollowIdempotent(s: GraphState, rel: Relation)
    requires Wf(s) && Valid(s.arena)
    ensures FollowUser(FollowUser(s, Some(rel)), Some(rel)) == FollowUser(s, Some(rel))
  {
    var known := rel.id in s.relations;
    var a := if known then s.arena else AddEdge(s.arena, RelationEntity, RelationProps(rel));
    if !known { AddEdgeValid(s.arena, RelationEntity, RelationProps(rel)); }
    var e := FollowEdge(s, rel);
    var src, dst := Get(s.users, rel.userId), Get(s.users, rel.followerId);
    var r1 := FollowUser(s, Some(rel));
    assert r1.arena == Relink(a, e, src, dst, Distants.Follow);
    FollowKnown(r1, rel);
    RelinkIdempotent(a, e, src, dst, Distants.Follow);
  }

  /**
   * Unlinking an edge right after createEdge(..).link(s, t).setDistance(w)
   * leaves the created edge unlinked, with its weight, and the nodes as they were.
   */
  lemma ConnectThenUnlink(a: Arena, kind: Entity, props: Props, s: Option<NodeId>, t: Option<NodeId>, w: int)
    requires Valid(a) && InRange(a, s) && InRange(a, t)
    ensures UnlinkEdge(Connect(a, kind, props, s, t, w), |a.edges|)
            == SetEdgeDistance(AddEdge(a, kind, props), |a.edges|, w)
  {
    var e := |a.edges|;
    var a1 := AddEdge(a, kind, props);
    AddEdgeValid(a, kind, props);
    var l := LinkEdge(a1, e, s, t);
    SetDistanceCommutes(l, e, w, s, t);
    UnlinkUndoesLink(a1, e, s, t);
  }

  /** Following a new relation and unfollowing it again leaves only the unlinked follow edge behind. */
  lemma UnfollowAfterFollow(s: GraphState, rel: Relation)
    requires Wf(s) && Valid(s.arena) && rel.id !in s.relations
    ensures UnfollowUser(FollowUser(s, Some(rel)), Some(rel))
            == s.(arena := SetEdgeDistance(AddEdge(s.arena, RelationEntity, RelationProps(rel)), |s.arena.edges|, Distants.Follow))
  {
    FollowFresh(s, rel);
    ConnectThenUnlink(s.arena, RelationEntity, RelationProps(rel), Get(s.users, rel.userId), Get(s.users, rel.followerId), Distants.Follow);
    assert s.relations[rel.id := |s.arena.edges|] - {rel.id} == s.relations;
  }

  /** Adding a new comment and deleting it again leaves only the unlinked comment edge behind. */
  lemma DeleteAfterAddComment(s: GraphState, c: Comment)
    requires Wf(s) && Valid(s.arena) && c.id !in s.comments
    ensures DeleteComment(AddComment(s, Some(c)), Some(c))
            == s.(arena := SetEdgeDistance(AddEdge(s.arena, CommentEntity, CommentProps(c)), |s.arena.edges|, Distants.Comment))
  {
    ConnectThenUnlink(s.arena, CommentEntity, CommentProps(c), Get(s.users, c.userId), Get(s.events, c.relationId), Distants.Comment);
    assert s.comments[c.id := |s.arena.edges|] - {c.id} == s.comments;
  }

  /**
   * A like that addLike indexes, withdrawn by updateLike with any value
   * other than 1, leaves only the unlinked like edge behind.
   */
  lemma UnlikeAfterLike(s: GraphState, x: Reaction, v: int, resolve: Resolver)
    requires Wf(s) && Valid(s.arena) && x.id !in s.likes && v != 1
    requires LikeTarget(s, x, resolve).Some?
    ensures UpdateLike(AddLike(s, Some(x), resolve), Some(x.(value := v)), resolve)
            == s.(arena := SetEdgeDistance(AddEdge(s.arena, LikeEntity, ReactionProps(x)), |s.arena.edges|,
                                           LikeTarget(s, x, resolve).value.weight))
  {
    var t := LikeTarget(s, x, resolve).value;
    ConnectThenUnlink(s.arena, LikeEntity, ReactionProps(x), Get(s.users, x.userId), t.target, t.weight);
    assert s.likes[x.id := |s.arena.edges|] - {x.id} == s.likes;
  }
}
