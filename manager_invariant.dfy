/**
 * Proofs that each of the graph manager's operations (ManagerSpec) keeps the
 * manager's invariant. The key sets the init loops build are stated in
 * ManagerInit, and the laws relating follow to unfollow and a comment to its
 * deletion in ManagerLaws.
 */
module ManagerInvariant {
  import opened Wrappers
  import opened Rows
  import opened Units
  import opened GraphLib
  import opened ManagerSpec
  import Distants

  /**
   * Edge typing survives a step that keeps the node units and leaves each
   * edge as it was or typed.
   */
  lemma TypedKept(a: Arena, b: Arena)
    requires Typed(a)
    requires NodesKept(a, b) && |a.edges| <= |b.edges|
    requires forall e | 0 <= e < |b.edges| :: (e < |a.edges| && b.edges[e] == a.edges[e]) || EdgeTyped(b, e)
    ensures Typed(b)
  {
    forall e | 0 <= e < |b.edges|
      ensures EdgeTyped(b, e)
    {
      if e < |a.edges| && b.edges[e] == a.edges[e] {
        assert EdgeTyped(a, e);
      }
    }
  }

  /** Typing survives changing or adding the single edge `e`, when the changed edge is typed. */
  lemma TypedOneChanged(a: Arena, b: Arena, e: EdgeId)
    requires Typed(a) && NodesKept(a, b)
    requires |b.edges| == |a.edges| || (e == |a.edges| && |b.edges| == e + 1)
    requires e < |b.edges| && EdgeTyped(b, e)
    requires forall x | 0 <= x < |a.edges| && x != e :: b.edges[x] == a.edges[x]
    ensures Typed(b)
  {
    TypedKept(a, b);
  }

  /** Typing survives appending typed edges. */
  lemma TypedGrown(a: Arena, b: Arena)
    requires Typed(a) && NodesKept(a, b)
    requires |a.edges| <= |b.edges| && b.edges[..|a.edges|] == a.edges
    requires forall x | |a.edges| <= x < |b.edges| :: EdgeTyped(b, x)
    ensures Typed(b)
  {
    assert forall x | 0 <= x < |a.edges| :: b.edges[x] == a.edges[x];
    TypedKept(a, b);
  }

  /** Typing survives appending one typed edge to an arena whose node units stay. */
  lemma TypedAppend(a: Arena, b: Arena, x: Edge)
    requires Typed(a) && SameUnits(a, b) && b.edges == a.edges + [x]
    requires x.linked ==> x.distance == Weight(x.unit)
    requires x.linked && x.source.Some? ==>
      x.source.value < |a.nodes| && SourceKindOk(x.unit.entity, a.nodes[x.source.value].unit.entity)
    requires x.linked && x.target.Some? ==>
      x.target.value < |a.nodes| && TargetKindOk(x.unit.entity, a.nodes[x.target.value].unit.entity)
    ensures Typed(b)
  {
    assert EdgeTyped(b, |a.edges|);
    TypedOneChanged(a, b, |a.edges|);
  }

  /** An edge index survives a step that changes at most edge `e`, when `e` is not of the index's kind. */
  lemma EdgesIndexedFrame(a: Arena, b: Arena, m: map<int, EdgeId>, kind: Entity, keyed: bool, e: EdgeId)
    requires EdgesIndexed(a, m, kind, keyed)
    requires |a.edges| <= |b.edges|
    requires forall x | 0 <= x < |a.edges| && x != e :: b.edges[x] == a.edges[x]
    requires e < |a.edges| ==> a.edges[e].unit.entity != kind
    ensures EdgesIndexed(b, m, kind, keyed)
  {
  }

  /**
   * Indexing id `k` by edge `e`, a linked edge of the index's kind made for
   * row `k` (when keyed), keeps the index sound; an edge that already existed
   * must keep its unit, and then row ids tell it apart from the other entries.
   */
  lemma EdgesIndexedUpdate(a: Arena, b: Arena, m: map<int, EdgeId>, kind: Entity, keyed: bool, k: int, e: EdgeId)
    requires EdgesIndexed(a, m, kind, keyed)
    requires |a.edges| <= |b.edges| && e < |b.edges|
    requires forall x | 0 <= x < |a.edges| && x != e :: b.edges[x] == a.edges[x]
    requires b.edges[e].linked && b.edges[e].unit.entity == kind
    requires keyed ==> RowId(b.edges[e].unit.properties) == Some(k)
    requires e < |a.edges| ==> keyed && b.edges[e].unit == a.edges[e].unit
    ensures EdgesIndexed(b, m[k := e], kind, keyed)
  {
  }

  /** Taking id `k` out of an index keeps it sound, whatever happens to its edge. */
  lemma EdgesIndexedRemove(a: Arena, b: Arena, m: map<int, EdgeId>, kind: Entity, k: int)
    requires EdgesIndexed(a, m, kind, true) && k in m
    requires |a.edges| <= |b.edges|
    requires forall x | 0 <= x < |a.edges| && x != m[k] :: b.edges[x] == a.edges[x]
    ensures EdgesIndexed(b, m - {k}, kind, true)
  {
  }

  lemma NodesIndexedFrame(a: Arena, b: Arena, m: map<int, NodeId>, kind: Entity)
    requires NodesIndexed(a, m, kind) && NodesKept(a, b)
    ensures NodesIndexed(b, m, kind)
  {
  }

  lemma NodesIndexedAdd(a: Arena, b: Arena, m: map<int, NodeId>, kind: Entity, k: int, n: NodeId)
    requires NodesIndexed(a, m, kind) && NodesKept(a, b)
    requires n < |b.nodes| && b.nodes[n].unit.entity == kind
    ensures NodesIndexed(b, m[k := n], kind)
  {
  }

  /** The node an index lookup gives is of the index's kind. */
  lemma LookupKind(s: GraphState, m: map<int, NodeId>, kind: Entity, k: int)
    requires Consistent(s) && NodesIndexed(s.arena, m, kind)
    ensures InRange(s.arena, Get(m, k))
    ensures Get(m, k).Some? ==> s.arena.nodes[Get(m, k).value].unit.entity == kind
  {
  }

  /**
   * A step that changes or adds only edge `e`, of kind `kind`, and keeps the
   * node units keeps every node index and every edge index of another kind.
   */
  lemma OtherIndexesKept(s: GraphState, b: Arena, e: EdgeId, kind: Entity)
    requires Consistent(s) && NodesKept(s.arena, b) && |s.arena.edges| <= |b.edges|
    requires forall x | 0 <= x < |s.arena.edges| && x != e :: b.edges[x] == s.arena.edges[x]
    requires e < |s.arena.edges| ==> s.arena.edges[e].unit.entity == kind
    ensures NodesIndexed(b, s.users, UserEntity) && NodesIndexed(b, s.events, EventEntity)
    ensures kind != PostEntity ==> EdgesIndexed(b, s.posts, PostEntity, false)
    ensures kind != RelationEntity ==> EdgesIndexed(b, s.relations, RelationEntity, true)
    ensures kind != LikeEntity ==> EdgesIndexed(b, s.likes, LikeEntity, true)
    ensures kind != CommentEntity ==> EdgesIndexed(b, s.comments, CommentEntity, true)
  {
    NodesIndexedFrame(s.arena, b, s.users, UserEntity);
    NodesIndexedFrame(s.arena, b, s.events, EventEntity);
    if kind != PostEntity { EdgesIndexedFrame(s.arena, b, s.posts, PostEntity, false, e); }
    if kind != RelationEntity { EdgesIndexedFrame(s.arena, b, s.relations, RelationEntity, true, e); }
    if kind != LikeEntity { EdgesIndexedFrame(s.arena, b, s.likes, LikeEntity, true, e); }
    if kind != CommentEntity { EdgesIndexedFrame(s.arena, b, s.comments, CommentEntity, true, e); }
  }

  /** createEdge(..).link(s, t).setDistance(w) keeps the arena valid. */
  lemma ConnectValid(a: Arena, kind: Entity, props: Props, s: Option<NodeId>, t: Option<NodeId>, w: int)
    requires Valid(a) && InRange(a, s) && InRange(a, t)
    ensures Valid(Connect(a, kind, props, s, t, w))
  {
    var e := |a.edges|;
    var a1 := AddEdge(a, kind, props);
    AddEdgeValid(a, kind, props);
    LinkEdgeValid(a1, e, s, t);
    SetEdgeDistanceValid(LinkEdge(a1, e, s, t), e, w);
  }

  /** unlink(), link(s, t), setDistance(w) keeps the arena valid. */
  lemma RelinkValid(a: Arena, e: EdgeId, s: Option<NodeId>, t: Option<NodeId>, w: int)
    requires Valid(a) && e < |a.edges| && InRange(a, s) && InRange(a, t)
    ensures Valid(Relink(a, e, s, t, w))
  {
    var u := UnlinkEdge(a, e);
    UnlinkEdgeValid(a, e);
    LinkEdgeValid(u, e, s, t);
    SetEdgeDistanceValid(LinkEdge(u, e, s, t), e, w);
  }

  // ---- each step and each operation keeps the invariant ----

  lemma IndexUserNodeConsistent(s: GraphState, u: User)
    requires Consistent(s)
    ensures Consistent(IndexUserNode(s, u))
  {
    var r := IndexUserNode(s, u);
    AddNodeValid(s.arena, UserEntity, UserProps(u));
    TypedGrown(s.arena, r.arena);
    OtherIndexesKept(s, r.arena, |s.arena.edges|, UserEntity);
    NodesIndexedAdd(s.arena, r.arena, s.users, UserEntity, u.id, |s.arena.nodes|);
  }

  lemma IndexEventNodeConsistent(s: GraphState, ev: Event)
    requires Consistent(s)
    ensures Consistent(IndexEventNode(s, ev))
  {
    var r := IndexEventNode(s, ev);
    AddNodeValid(s.arena, EventEntity, EventProps(ev));
    TypedGrown(s.arena, r.arena);
    OtherIndexesKept(s, r.arena, |s.arena.edges|, EventEntity);
    NodesIndexedAdd(s.arena, r.arena, s.events, EventEntity, ev.id, |s.arena.nodes|);
  }

  lemma LinkFromRootConsistent(s: GraphState, n: Option<NodeId>)
    requires Consistent(s) && InRange(s.arena, n)
    requires n.Some? ==> s.arena.nodes[n.value].unit.entity in {UserEntity, EventEntity}
    ensures Consistent(LinkFromRoot(s, n))
  {
    var r := LinkFromRoot(s, n);
    var e := |s.arena.edges|;
    ConnectValid(s.arena, RootEntity, NoProps, Some(s.rootNode), n, Distants.Root);
    assert EdgeTyped(r.arena, e);
    TypedOneChanged(s.arena, r.arena, e);
    OtherIndexesKept(s, r.arena, e, RootEntity);
  }

  lemma LinkPostConsistent(s: GraphState, ev: Event)
    requires Consistent(s)
    ensures Consistent(LinkPost(s, ev))
  {
    var r := LinkPost(s, ev);
    var e := |s.arena.edges|;
    LookupKind(s, s.users, UserEntity, ev.userId);
    LookupKind(s, s.events, EventEntity, ev.id);
    ConnectValid(s.arena, PostEntity, NoProps, Get(s.users, ev.userId), Get(s.events, ev.id), Distants.Post);
    assert EdgeTyped(r.arena, e);
    TypedOneChanged(s.arena, r.arena, e);
    OtherIndexesKept(s, r.arena, e, PostEntity);
    EdgesIndexedUpdate(s.arena, r.arena, s.posts, PostEntity, false, ev.id, e);
  }

  lemma LoadUserConsistent(s: GraphState, u: User)
    requires Consistent(s)
    ensures Consistent(LoadUser(s, u))
  {
    var s1 := IndexUserNode(s, u);
    IndexUserNodeConsistent(s, u);
    LookupKind(s1, s1.users, UserEntity, u.id);
    LinkFromRootConsistent(s1, Get(s1.users, u.id));
  }

  lemma AddUserConsistent(s: GraphState, user: Option<User>)
    requires Consistent(s)
    ensures Consistent(AddUser(s, user))
  {
    if user.Some? && user.value.id !in s.users {
      LoadUserConsistent(s, user.value);
    }
  }

  lemma LoadRelationConsistent(s: GraphState, rel: Relation)
    requires Consistent(s)
    ensures Consistent(LoadRelation(s, rel))
  {
    var r := LoadRelation(s, rel);
    var e := |s.arena.edges|;
    LookupKind(s, s.users, UserEntity, rel.userId);
    LookupKind(s, s.users, UserEntity, rel.followerId);
    ConnectValid(s.arena, RelationEntity, RelationProps(rel), Get(s.users, rel.userId), Get(s.users, rel.followerId), Distants.Follow);
    assert EdgeTyped(r.arena, e);
    TypedOneChanged(s.arena, r.arena, e);
    OtherIndexesKept(s, r.arena, e, RelationEntity);
    EdgesIndexedUpdate(s.arena, r.arena, s.relations, RelationEntity, true, rel.id, e);
  }

  lemma FollowUserValid(s: GraphState, rel: Relation)
    requires Wf(s) && Valid(s.arena)
    ensures Valid(FollowUser(s, Some(rel)).arena)
  {
    var known := rel.id in s.relations;
    var a := if known then s.arena else AddEdge(s.arena, RelationEntity, RelationProps(rel));
    if !known { AddEdgeValid(s.arena, RelationEntity, RelationProps(rel)); }
    RelinkValid(a, FollowEdge(s, rel), Get(s.users, rel.userId), Get(s.users, rel.followerId), Distants.Follow);
  }

  /** Following again through an indexed relation moves its edge and keeps the invariant. */
  lemma FollowKnownConsistent(s: GraphState, rel: Relation)
    requires Consistent(s) && rel.id in s.relations
    ensures Consistent(FollowUser(s, Some(rel)))
  {
    var r := FollowUser(s, Some(rel));
    var e := s.relations[rel.id];
    FollowUserValid(s, rel);
    LookupKind(s, s.users, UserEntity, rel.userId);
    LookupKind(s, s.users, UserEntity, rel.followerId);
    assert r.arena.edges[e].unit == s.arena.edges[e].unit;
    assert EdgeTyped(r.arena, e);
    TypedOneChanged(s.arena, r.arena, e);
    OtherIndexesKept(s, r.arena, e, RelationEntity);
    EdgesIndexedUpdate(s.arena, r.arena, s.relations, RelationEntity, true, rel.id, e);
  }

  /**
   * Following through a relation that is not indexed yet does exactly what
   * init does for a stored relation: the unlink of the fresh edge is a no-op.
   */
  lemma FollowFresh(s: GraphState, rel: Relation)
    requires Wf(s) && Valid(s.arena) && rel.id !in s.relations
    ensures FollowUser(s, Some(rel)) == LoadRelation(s, rel)
  {
    var e := |s.arena.edges|;
    var a1 := AddEdge(s.arena, RelationEntity, RelationProps(rel));
    AddEdgeValid(s.arena, RelationEntity, RelationProps(rel));
    var u := UnlinkEdge(a1, e);
    assert u.nodes == a1.nodes;
    assert u.edges == a1.edges[e := a1.edges[e]] == a1.edges;
    assert u == a1;
  }

  lemma FollowFreshConsistent(s: GraphState, rel: Relation)
    requires Consistent(s) && rel.id !in s.relations
    ensures Consistent(FollowUser(s, Some(rel)))
  {
    FollowFresh(s, rel);
    LoadRelationConsistent(s, rel);
  }

  lemma FollowUserConsistent(s: GraphState, relation: Option<Relation>)
    requires Consistent(s)
    ensures Consistent(FollowUser(s, relation))
  {
    if relation.Some? {
      if relation.value.id in s.relations {
        FollowKnownConsistent(s, relation.value);
      } else {
        FollowFreshConsistent(s, relation.value);
      }
    }
  }

  lemma UnfollowUserConsistent(s: GraphState, relation: Option<Relation>)
    requires Consistent(s)
    ensures Consistent(UnfollowUser(s, relation))
  {
    if relation.Some? && relation.value.id in s.relations {
      var k := relation.value.id;
      var e := s.relations[k];
      var r := UnfollowUser(s, relation);
      UnlinkEdgeValid(s.arena, e);
      assert EdgeTyped(r.arena, e);
      TypedOneChanged(s.arena, r.arena, e);
      OtherIndexesKept(s, r.arena, e, RelationEntity);
      EdgesIndexedRemove(s.arena, r.arena, s.relations, RelationEntity, k);
    }
  }

  lemma LoadEventConsistent(s: GraphState, ev: Event)
    requires Consistent(s)
    ensures Consistent(LoadEvent(s, ev))
  {
    var s1 := IndexEventNode(s, ev);
    IndexEventNodeConsistent(s, ev);
    LookupKind(s1, s1.events, EventEntity, ev.id);
    var s2 := LinkFromRoot(s1, Get(s1.events, ev.id));
    LinkFromRootConsistent(s1, Get(s1.events, ev.id));
    LinkPostConsistent(s2, ev);
  }

  lemma PostEventConsistent(s: GraphState, ev: Event)
    requires Consistent(s)
    ensures Consistent(PostEvent(s, ev))
  {
    IndexEventNodeConsistent(s, ev);
    LinkPostConsistent(IndexEventNode(s, ev), ev);
  }

  lemma AddEventConsistent(s: GraphState, event: Option<Event>)
    requires Consistent(s)
    ensures Consistent(AddEvent(s, event))
  {
    if event.Some? && event.value.id !in s.events {
      PostEventConsistent(s, event.value);
    }
  }

  lemma LoadCommentConsistent(s: GraphState, c: Comment)
    requires Consistent(s)
    ensures Consistent(LoadComment(s, c))
  {
    var r := LoadComment(s, c);
    var e := |s.arena.edges|;
    LookupKind(s, s.users, UserEntity, c.userId);
    LookupKind(s, s.events, EventEntity, c.relationId);
    ConnectValid(s.arena, CommentEntity, CommentProps(c), Get(s.users, c.userId), Get(s.events, c.relationId), Distants.Comment);
    assert EdgeTyped(r.arena, e);
    TypedOneChanged(s.arena, r.arena, e);
    OtherIndexesKept(s, r.arena, e, CommentEntity);
    EdgesIndexedUpdate(s.arena, r.arena, s.comments, CommentEntity, true, c.id, e);
  }

  lemma AddCommentConsistent(s: GraphState, comment: Option<Comment>)
    requires Consistent(s)
    ensures Consistent(AddComment(s, comment))
  {
    if comment.Some? && comment.value.id !in s.comments {
      LoadCommentConsistent(s, comment.value);
    }
  }

  lemma DeleteCommentConsistent(s: GraphState, comment: Option<Comment>)
    requires Consistent(s)
    ensures Consistent(DeleteComment(s, comment))
  {
    if comment.Some? && comment.value.id in s.comments {
      var k := comment.value.id;
      var e := s.comments[k];
      var r := DeleteComment(s, comment);
      UnlinkEdgeValid(s.arena, e);
      assert EdgeTyped(r.arena, e);
      TypedOneChanged(s.arena, r.arena, e);
      OtherIndexesKept(s, r.arena, e, CommentEntity);
      EdgesIndexedRemove(s.arena, r.arena, s.comments, CommentEntity, k);
    }
  }

  /** A like edge, when the rule gives one, ends at an event node. */
  lemma LikeTargetKind(s: GraphState, x: Reaction, resolve: Resolver)
    requires Consistent(s)
    ensures var t := LikeTarget(s, x, resolve);
      t.Some? && t.value.target.Some? ==> s.arena.nodes[t.value.target.value].unit.entity == EventEntity
  {
    var t := LikeTarget(s, x, resolve);
    if t.Some? && t.value.target.Some? {
      if x.kind == 0 {
        LookupKind(s, s.events, EventEntity, x.relationId);
      } else {
        LookupKind(s, s.events, EventEntity, resolve(s.arena.edges[s.comments[x.relationId]]).value);
      }
    }
  }

  lemma LoadLikeValid(s: GraphState, x: Reaction, resolve: Resolver)
    requires Wf(s) && Valid(s.arena)
    ensures Valid(LoadLike(s, x, resolve).arena)
  {
    var t := LikeTarget(s, x, resolve);
    if t.Some? {
      ConnectValid(s.arena, LikeEntity, ReactionProps(x), Get(s.users, x.userId), t.value.target, t.value.weight);
    }
  }

  lemma LoadLikeTyped(s: GraphState, x: Reaction, resolve: Resolver)
    requires Consistent(s) && LikeTarget(s, x, resolve).Some?
    ensures Typed(LoadLike(s, x, resolve).arena)
  {
    var t := LikeTarget(s, x, resolve).value;
    var e := |s.arena.edges|;
    LookupKind(s, s.users, UserEntity, x.userId);
    LikeTargetKind(s, x, resolve);
    assert Weight(Unit(LikeEntity, ReactionProps(x), e)) == Weight(Unit(LikeEntity, ReactionProps(x), 0));
    TypedAppend(s.arena, LoadLike(s, x, resolve).arena,
                Edge(Unit(LikeEntity, ReactionProps(x), e), Get(s.users, x.userId), t.target, t.weight, true));
  }

  lemma LoadLikeConsistent(s: GraphState, x: Reaction, resolve: Resolver)
    requires Consistent(s)
    ensures Consistent(LoadLike(s, x, resolve))
  {
    if LikeTarget(s, x, resolve).Some? {
      var r := LoadLike(s, x, resolve);
      var e := |s.arena.edges|;
      LoadLikeValid(s, x, resolve);
      LoadLikeTyped(s, x, resolve);
      OtherIndexesKept(s, r.arena, e, LikeEntity);
      EdgesIndexedUpdate(s.arena, r.arena, s.likes, LikeEntity, true, x.id, e);
    }
  }

  lemma AddLikeConsistent(s: GraphState, reaction: Option<Reaction>, resolve: Resolver)
    requires Consistent(s)
    ensures Consistent(AddLike(s, reaction, resolve))
  {
    if reaction.Some? && reaction.value.id !in s.likes {
      LoadLikeConsistent(s, reaction.value, resolve);
    }
  }

  lemma UpdateLikeConsistent(s: GraphState, reaction: Option<Reaction>, resolve: Resolver)
    requires Consistent(s)
    ensures Consistent(UpdateLike(s, reaction, resolve))
  {
    if reaction.Some? {
      var k := reaction.value.id;
      if reaction.value.value == 1 {
        AddLikeConsistent(s, reaction, resolve);
      } else if k in s.likes {
        var e := s.likes[k];
        var r := UpdateLike(s, reaction, resolve);
        UnlinkEdgeValid(s.arena, e);
        assert EdgeTyped(r.arena, e);
        TypedOneChanged(s.arena, r.arena, e);
        OtherIndexesKept(s, r.arena, e, LikeEntity);
        EdgesIndexedRemove(s.arena, r.arena, s.likes, LikeEntity, k);
      }
    }
  }
}
