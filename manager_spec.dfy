/**
 * The graph manager's state as a value, its consistency invariant, and one
 * function per operation of GraphManager (src/middleware/graph/index.js)
 * giving the state the operation leaves behind. The imperative GraphManager
 * class is proved against these functions; the properties the source promises
 * are stated in their contracts and in the lemmas at the end.
 */
module ManagerSpec {
  import opened Wrappers
  import opened Rows
  import opened Units
  import opened GraphLib
  import Distants
  import opened Text

  /** The graph and the six id-keyed indices of GraphManager, with the root node. */
  datatype GraphState = GraphState(
    arena: Arena,
    rootNode: NodeId,
    users: map<int, NodeId>,
    events: map<int, NodeId>,
    posts: map<int, EdgeId>,
    relations: map<int, EdgeId>,
    likes: map<int, EdgeId>,
    comments: map<int, EdgeId>)

  /** The resolver for `comment.relation_id` read off a comment edge object: absent when it does not resolve. */
  type Resolver = Edge -> Option<int>

  /** The weight the manager gives an edge of each kind; a like weighs by the kind of thing liked. */
  function Weight(u: Unit): (w: int)
    ensures u.entity.UserEntity? || u.entity.EventEntity? ==> w == 0
    ensures !(u.entity.UserEntity? || u.entity.EventEntity?) ==> Distants.Follow <= w <= Distants.Root
    ensures u.entity.RootEntity? <==> w == Distants.Root
    ensures u.entity.RelationEntity? <==> w == Distants.Follow
    ensures u.entity.LikeEntity? ==> (w == Distants.LikeComment <==> u.properties.ReactionProps? && u.properties.reaction.kind == 1)
  {
    match u.entity
    case RootEntity => Distants.Root
    case RelationEntity => Distants.Follow
    case PostEntity => Distants.Post
    case CommentEntity => Distants.Comment
    case LikeEntity =>
      if u.properties.ReactionProps? && u.properties.reaction.kind == 1 then Distants.LikeComment else Distants.Like
    case _ => 0
  }

  /** The kind of node each kind of edge leaves from. */
  predicate SourceKindOk(edge: Entity, node: Entity)
  {
    if edge == RootEntity then node == RootEntity else node == UserEntity
  }

  /** The kind of node each kind of edge leads to. */
  predicate TargetKindOk(edge: Entity, node: Entity)
  {
    match edge
    case RootEntity => node == UserEntity || node == EventEntity
    case RelationEntity => node == UserEntity
    case _ => node == EventEntity
  }

  /** A linked edge carries the weight of its kind and joins nodes of the kinds its kind joins. */
  ghost predicate EdgeTyped(a: Arena, e: EdgeId)
    requires e < |a.edges|
  {
    var x := a.edges[e];
    x.linked ==>
      && x.distance == Weight(x.unit)
      && (x.source.Some? ==> x.source.value < |a.nodes| && SourceKindOk(x.unit.entity, a.nodes[x.source.value].unit.entity))
      && (x.target.Some? ==> x.target.value < |a.nodes| && TargetKindOk(x.unit.entity, a.nodes[x.target.value].unit.entity))
  }

  ghost predicate Typed(a: Arena)
  {
    forall e | 0 <= e < |a.edges| :: EdgeTyped(a, e)
  }

  ghost predicate NodesIndexed(a: Arena, m: map<int, NodeId>, kind: Entity)
  {
    forall k | k in m :: m[k] < |a.nodes| && a.nodes[m[k]].unit.entity == kind
  }

  /** Every id of the index maps to a linked edge of the kind; when `keyed`, one made for the row with that id. */
  ghost predicate EdgesIndexed(a: Arena, m: map<int, EdgeId>, kind: Entity, keyed: bool)
  {
    forall k | k in m ::
      && m[k] < |a.edges|
      && a.edges[m[k]].linked
      && a.edges[m[k]].unit.entity == kind
      && (keyed ==> RowId(a.edges[m[k]].unit.properties) == Some(k))
  }

  /** Every index entry and the root name an existing node or edge. */
  ghost predicate Wf(s: GraphState)
  {
    && s.rootNode < |s.arena.nodes|
    && (forall k | k in s.users :: s.users[k] < |s.arena.nodes|)
    && (forall k | k in s.events :: s.events[k] < |s.arena.nodes|)
    && (forall k | k in s.posts :: s.posts[k] < |s.arena.edges|)
    && (forall k | k in s.relations :: s.relations[k] < |s.arena.edges|)
    && (forall k | k in s.likes :: s.likes[k] < |s.arena.edges|)
    && (forall k | k in s.comments :: s.comments[k] < |s.arena.edges|)
  }

  /**
   * The manager's invariant: the arena is valid, the root node is the root,
   * every linked edge is typed and weighted by the table, the node indices
   * map to nodes of their kind, and every indexed post, relation, like or
   * comment id maps to a linked edge of its kind.
   */
  ghost predicate Consistent(s: GraphState)
  {
    && Wf(s)
    && Valid(s.arena)
    && s.rootNode < |s.arena.nodes|
    && s.arena.nodes[s.rootNode].unit.entity == RootEntity
    && Typed(s.arena)
    && NodesIndexed(s.arena, s.users, UserEntity)
    && NodesIndexed(s.arena, s.events, EventEntity)
    && EdgesIndexed(s.arena, s.posts, PostEntity, false)
    && EdgesIndexed(s.arena, s.relations, RelationEntity, true)
    && EdgesIndexed(s.arena, s.likes, LikeEntity, true)
    && EdgesIndexed(s.arena, s.comments, CommentEntity, true)
  }

  /** Node units are kept and nodes are only ever added. */
  ghost predicate NodesKept(a: Arena, b: Arena)
  {
    |a.nodes| <= |b.nodes| && forall i | 0 <= i < |a.nodes| :: b.nodes[i].unit == a.nodes[i].unit
  }

  lemma NodesKeptTrans(a: Arena, b: Arena, c: Arena)
    requires NodesKept(a, b) && NodesKept(b, c)
    ensures NodesKept(a, c)
  {
  }

  /** `b` is `a` with edge `e` unlinked: endpoints forgotten, every other edge and every node unit as it was. */
  ghost predicate UnlinkedAt(a: Arena, b: Arena, e: EdgeId)
  {
    && SameUnits(a, b)
    && e < |a.edges| && |b.edges| == |a.edges|
    && b.edges[e] == a.edges[e].(source := None, target := None, linked := false)
    && (forall x | 0 <= x < |a.edges| && x != e :: b.edges[x] == a.edges[x])
  }

  /** The constructor: a graph holding only the root node, and empty indices. */
  function Initial(): (s: GraphState)
    ensures Consistent(s)
    ensures s.arena.edges == [] && |s.arena.nodes| == 1 && s.rootNode == 0
    ensures s.arena.nodes[0].unit == Unit(RootEntity, RootProps("Root Node"), 0)
    ensures s.users == map[] && s.events == map[] && s.posts == map[]
    ensures s.relations == map[] && s.likes == map[] && s.comments == map[]
  {
    GraphState(AddNode(Arena([], []), RootEntity, RootProps("Root Node")), 0, map[], map[], map[], map[], map[], map[])
  }

  /** createEdge(kind, props).link(s, t).setDistance(w): one fresh edge, linked from s to t with weight w. */
  function Connect(a: Arena, kind: Entity, props: Props, s: Option<NodeId>, t: Option<NodeId>, w: int): (r: Arena)
    requires InRange(a, s) && InRange(a, t)
    ensures SameUnits(a, r)
    ensures r.edges == a.edges + [Edge(Unit(kind, props, |a.edges|), s, t, w, true)]
  {
    var e := |a.edges|;
    SetEdgeDistance(LinkEdge(AddEdge(a, kind, props), e, s, t), e, w)
  }

  /** `this.users[user.id] = createNode('user', user)`: a fresh user node, indexed under the user's id. */
  function IndexUserNode(s: GraphState, u: User): (r: GraphState)
    requires Wf(s)
    ensures Wf(r)
    ensures r == s.(arena := r.arena, users := s.users[u.id := |s.arena.nodes|])
    ensures NodesKept(s.arena, r.arena) && |r.arena.nodes| == |s.arena.nodes| + 1 && r.arena.edges == s.arena.edges
    ensures r.arena.nodes[|s.arena.nodes|] == NewNode(UserEntity, UserProps(u), |s.arena.nodes|)
  {
    s.(arena := AddNode(s.arena, UserEntity, UserProps(u)), users := s.users[u.id := |s.arena.nodes|])
  }

  /** `this.events[event.id] = createNode('event', event)`: a fresh event node, indexed under the event's id. */
  function IndexEventNode(s: GraphState, ev: Event): (r: GraphState)
    requires Wf(s)
    ensures Wf(r)
    ensures r == s.(arena := r.arena, events := s.events[ev.id := |s.arena.nodes|])
    ensures NodesKept(s.arena, r.arena) && |r.arena.nodes| == |s.arena.nodes| + 1 && r.arena.edges == s.arena.edges
    ensures r.arena.nodes[|s.arena.nodes|] == NewNode(EventEntity, EventProps(ev), |s.arena.nodes|)
  {
    s.(arena := AddNode(s.arena, EventEntity, EventProps(ev)), events := s.events[ev.id := |s.arena.nodes|])
  }

  /** `createEdge('root').link(rootNode, n).setDistance(Root)`: a root edge of weight 100 to `n`, not indexed. */
  function LinkFromRoot(s: GraphState, n: Option<NodeId>): (r: GraphState)
    requires Wf(s) && InRange(s.arena, n)
    ensures Wf(r)
    ensures r == s.(arena := r.arena) && SameUnits(s.arena, r.arena)
    ensures r.arena.edges == s.arena.edges + [Edge(Unit(RootEntity, NoProps, |s.arena.edges|), Some(s.rootNode), n, Distants.Root, true)]
  {
    s.(arena := Connect(s.arena, RootEntity, NoProps, Some(s.rootNode), n, Distants.Root))
  }

  /**
   * `this.posts[event.id] = createEdge('post').link(users[event.user_id], events[event.id]).setDistance(Post)`:
   * a post edge of weight 2 from the author to the event, indexed under the event's id.
   */
  function LinkPost(s: GraphState, ev: Event): (r: GraphState)
    requires Wf(s)
    ensures Wf(r)
    ensures r == s.(arena := r.arena, posts := s.posts[ev.id := |s.arena.edges|]) && SameUnits(s.arena, r.arena)
    ensures r.arena.edges == s.arena.edges +
      [Edge(Unit(PostEntity, NoProps, |s.arena.edges|), Get(s.users, ev.userId), Get(s.events, ev.id), Distants.Post, true)]
  {
    s.(arena := Connect(s.arena, PostEntity, NoProps, Get(s.users, ev.userId), Get(s.events, ev.id), Distants.Post),
       posts := s.posts[ev.id := |s.arena.edges|])
  }

  /**
   * One user of init's first loop, and the insertion addUser makes: a user
   * node, indexed under the user's id, linked from the root with weight 100.
   */
  function LoadUser(s: GraphState, u: User): (r: GraphState)
    requires Wf(s)
    ensures Wf(r)
    ensures r == s.(arena := r.arena, users := s.users[u.id := |s.arena.nodes|])
    ensures NodesKept(s.arena, r.arena) && |r.arena.nodes| == |s.arena.nodes| + 1
    ensures r.arena.nodes[|s.arena.nodes|].unit == Unit(UserEntity, UserProps(u), |s.arena.nodes|)
    ensures r.arena.edges == s.arena.edges +
      [Edge(Unit(RootEntity, NoProps, |s.arena.edges|), Some(s.rootNode), Some(|s.arena.nodes|), Distants.Root, true)]
  {
    var s1 := IndexUserNode(s, u);
    LinkFromRoot(s1, Get(s1.users, u.id))
  }

  /** addUser: nothing for an absent or already indexed user; otherwise init's step for it. */
  function AddUser(s: GraphState, user: Option<User>): (r: GraphState)
    requires Wf(s)
    ensures Wf(r)
    ensures user.None? || user.value.id in s.users ==> r == s
    ensures user.Some? && user.value.id !in s.users ==> r == LoadUser(s, user.value)
    ensures user.Some? ==> user.value.id in r.users
  {
    match user
    case None => s
    case Some(u) => if u.id in s.users then s else LoadUser(s, u)
  }

  /** One relation of init's second loop: a fresh follow edge from the followed user to the follower, weight 1. */
  function LoadRelation(s: GraphState, rel: Relation): (r: GraphState)
    requires Wf(s)
    ensures Wf(r)
    ensures r == s.(arena := r.arena, relations := s.relations[rel.id := |s.arena.edges|])
    ensures SameUnits(s.arena, r.arena)
    ensures r.arena.edges == s.arena.edges +
      [Edge(Unit(RelationEntity, RelationProps(rel), |s.arena.edges|),
            Get(s.users, rel.userId), Get(s.users, rel.followerId), Distants.Follow, true)]
  {
    s.(arena := Connect(s.arena, RelationEntity, RelationProps(rel), Get(s.users, rel.userId), Get(s.users, rel.followerId), Distants.Follow),
       relations := s.relations[rel.id := |s.arena.edges|])
  }

  /** unlink(), then link(s, t).setDistance(w), on one edge: the edge is moved, wherever it was before. */
  function Relink(a: Arena, e: EdgeId, s: Option<NodeId>, t: Option<NodeId>, w: int): (r: Arena)
    requires e < |a.edges| && InRange(a, s) && InRange(a, t)
    ensures SameUnits(a, r) && |r.edges| == |a.edges|
    ensures r.edges[e] == a.edges[e].(source := s, target := t, distance := w, linked := true)
    ensures forall x | 0 <= x < |a.edges| && x != e :: r.edges[x] == a.edges[x]
  {
    SetEdgeDistance(LinkEdge(UnlinkEdge(a, e), e, s, t), e, w)
  }

  /** The arena followUser relinks in: the current one, or one with a fresh relation edge made for `rel`. */
  function FollowArena(s: GraphState, rel: Relation): Arena
  {
    if rel.id in s.relations then s.arena else AddEdge(s.arena, RelationEntity, RelationProps(rel))
  }

  /** The edge followUser moves: the indexed one, or the next fresh one. */
  function FollowEdge(s: GraphState, rel: Relation): EdgeId
  {
    if rel.id in s.relations then s.relations[rel.id] else |s.arena.edges|
  }

  /**
   * followUser: nothing for an absent relation; otherwise the relation's
   * edge (the indexed one, or a fresh one) is moved to run from the followed
   * user to the follower with weight 1, and indexed under the relation's id.
   */
  function FollowUser(s: GraphState, relation: Option<Relation>): (r: GraphState)
    requires Wf(s)
    ensures Wf(r)
    ensures relation.None? ==> r == s
    ensures relation.Some? ==>
      var rel := relation.value;
      var known := rel.id in s.relations;
      var e := FollowEdge(s, rel);
      && r == s.(arena := r.arena, relations := s.relations[rel.id := e])
      && SameUnits(s.arena, r.arena)
      && |r.arena.edges| == |s.arena.edges| + (if known then 0 else 1)
      && r.arena.edges[e] ==
           Edge(if known then s.arena.edges[e].unit else Unit(RelationEntity, RelationProps(rel), e),
                Get(s.users, rel.userId), Get(s.users, rel.followerId), Distants.Follow, true)
      && (forall x | 0 <= x < |s.arena.edges| && x != e :: r.arena.edges[x] == s.arena.edges[x])
  {
    match relation
    case None => s
    case Some(rel) =>
      var e := FollowEdge(s, rel);
      s.(arena := Relink(FollowArena(s, rel), e, Get(s.users, rel.userId), Get(s.users, rel.followerId), Distants.Follow),
         relations := s.relations[rel.id := e])
  }

  /** followUser on a given relation, unfolded: the relation's edge in FollowArena, relinked. */
  lemma FollowUserSome(s: GraphState, rel: Relation)
    requires Wf(s)
    ensures FollowUser(s, Some(rel)) ==
      s.(arena := Relink(FollowArena(s, rel), FollowEdge(s, rel), Get(s.users, rel.userId), Get(s.users, rel.followerId), Distants.Follow),
         relations := s.relations[rel.id := FollowEdge(s, rel)])
  {
  }

  /**
   * unfollowUser: nothing for an absent or unindexed relation; otherwise the
   * relation's edge is unlinked and its id leaves the index.
   */
  function UnfollowUser(s: GraphState, relation: Option<Relation>): (r: GraphState)
    requires Wf(s)
    ensures Wf(r)
    ensures relation.None? || relation.value.id !in s.relations ==> r == s
    ensures relation.Some? && relation.value.id in s.relations ==>
      && r == s.(arena := r.arena, relations := s.relations - {relation.value.id})
      && UnlinkedAt(s.arena, r.arena, s.relations[relation.value.id])
  {
    match relation
    case None => s
    case Some(rel) =>
      if rel.id !in s.relations then s
      else s.(arena := UnlinkEdge(s.arena, s.relations[rel.id]), relations := s.relations - {rel.id})
  }

  /**
   * One event of init's third loop: an event node, linked from the root with
   * weight 100 and from its author with a post edge of weight 2.
   */
  function LoadEvent(s: GraphState, ev: Event): (r: GraphState)
    requires Wf(s)
    ensures Wf(r)
    ensures r == s.(arena := r.arena, events := s.events[ev.id := |s.arena.nodes|],
                    posts := s.posts[ev.id := |s.arena.edges| + 1])
    ensures NodesKept(s.arena, r.arena) && |r.arena.nodes| == |s.arena.nodes| + 1
    ensures r.arena.nodes[|s.arena.nodes|].unit == Unit(EventEntity, EventProps(ev), |s.arena.nodes|)
    ensures r.arena.edges == s.arena.edges +
      [Edge(Unit(RootEntity, NoProps, |s.arena.edges|), Some(s.rootNode), Some(|s.arena.nodes|), Distants.Root, true),
       Edge(Unit(PostEntity, NoProps, |s.arena.edges| + 1), Get(s.users, ev.userId), Some(|s.arena.nodes|), Distants.Post, true)]
  {
    var s1 := IndexEventNode(s, ev);
    var s2 := LinkFromRoot(s1, Get(s1.events, ev.id));
    var s3 := LinkPost(s2, ev);
    assert Get(s2.events, ev.id) == Some(|s.arena.nodes|) && s2.users == s.users;
    assert forall x: seq<Edge>, y, z :: (x + [y]) + [z] == x + [y, z];
    NodesKeptTrans(s.arena, s1.arena, s2.arena);
    NodesKeptTrans(s.arena, s2.arena, s3.arena);
    s3
  }

  /** The event node and post edge addEvent makes; unlike init it links no edge from the root. */
  function PostEvent(s: GraphState, ev: Event): (r: GraphState)
    requires Wf(s)
    ensures Wf(r)
    ensures r == s.(arena := r.arena, events := s.events[ev.id := |s.arena.nodes|],
                    posts := s.posts[ev.id := |s.arena.edges|])
    ensures NodesKept(s.arena, r.arena) && |r.arena.nodes| == |s.arena.nodes| + 1
    ensures r.arena.nodes[|s.arena.nodes|].unit == Unit(EventEntity, EventProps(ev), |s.arena.nodes|)
    ensures r.arena.edges == s.arena.edges +
      [Edge(Unit(PostEntity, NoProps, |s.arena.edges|), Get(s.users, ev.userId), Some(|s.arena.nodes|), Distants.Post, true)]
  {
    LinkPost(IndexEventNode(s, ev), ev)
  }

  /** addEvent: nothing for an absent or already indexed event; otherwise the event node and its post edge. */
  function AddEvent(s: GraphState, event: Option<Event>): (r: GraphState)
    requires Wf(s)
    ensures Wf(r)
    ensures event.None? || event.value.id in s.events ==> r == s
    ensures event.Some? && event.value.id !in s.events ==> r == PostEvent(s, event.value)
    ensures event.Some? ==> event.value.id in r.events
  {
    match event
    case None => s
    case Some(ev) => if ev.id in s.events then s else PostEvent(s, ev)
  }

  /** One comment of init's fourth loop: a comment edge from its author to the event it is on, weight 4. */
  function LoadComment(s: GraphState, c: Comment): (r: GraphState)
    requires Wf(s)
    ensures Wf(r)
    ensures r == s.(arena := r.arena, comments := s.comments[c.id := |s.arena.edges|])
    ensures SameUnits(s.arena, r.arena)
    ensures r.arena.edges == s.arena.edges +
      [Edge(Unit(CommentEntity, CommentProps(c), |s.arena.edges|),
            Get(s.users, c.userId), Get(s.events, c.relationId), Distants.Comment, true)]
  {
    s.(arena := Connect(s.arena, CommentEntity, CommentProps(c), Get(s.users, c.userId), Get(s.events, c.relationId), Distants.Comment),
       comments := s.comments[c.id := |s.arena.edges|])
  }

  /** addComment: nothing for an absent or already indexed comment; otherwise init's step for it. */
  function AddComment(s: GraphState, comment: Option<Comment>): (r: GraphState)
    requires Wf(s)
    ensures Wf(r)
    ensures comment.None? || comment.value.id in s.comments ==> r == s
    ensures comment.Some? && comment.value.id !in s.comments ==> r == LoadComment(s, comment.value)
    ensures comment.Some? ==> comment.value.id in r.comments
  {
    match comment
    case None => s
    case Some(c) => if c.id in s.comments then s else LoadComment(s, c)
  }

  /** deleteComment: nothing for an absent or unindexed comment; otherwise its edge is unlinked and its id leaves the index. */
  function DeleteComment(s: GraphState, comment: Option<Comment>): (r: GraphState)
    requires Wf(s)
    ensures Wf(r)
    ensures comment.None? || comment.value.id !in s.comments ==> r == s
    ensures comment.Some? && comment.value.id in s.comments ==>
      && r == s.(arena := r.arena, comments := s.comments - {comment.value.id})
      && UnlinkedAt(s.arena, r.arena, s.comments[comment.value.id])
  {
    match comment
    case None => s
    case Some(c) =>
      if c.id !in s.comments then s
      else s.(arena := UnlinkEdge(s.arena, s.comments[c.id]), comments := s.comments - {c.id})
  }

  /** Where a like edge goes and what it weighs. */
  datatype LikeEnd = LikeEnd(target: Option<NodeId>, weight: int)

  /**
   * The like rule shared by init, addLike and updateLike: only a reaction of
   * value 1 makes an edge; type 0 likes the event `relation_id` names (weight
   * 4); type 1 likes a comment, and makes an edge only when the comment is
   * indexed and the event its edge resolves to is indexed (weight 6); any
   * other type makes none.
   */
  function LikeTarget(s: GraphState, x: Reaction, resolve: Resolver): (t: Option<LikeEnd>)
    requires Wf(s)
    ensures t.Some? ==> x.value == 1 && (x.kind == 0 || x.kind == 1)
    ensures t.Some? ==> t.value.weight == Weight(Unit(LikeEntity, ReactionProps(x), 0)) && InRange(s.arena, t.value.target)
    ensures x.value == 1 && x.kind == 0 ==> t == Some(LikeEnd(Get(s.events, x.relationId), Distants.Like))
    ensures x.kind == 1 ==>
      (t.Some? <==> x.value == 1 && x.relationId in s.comments
                    && resolve(s.arena.edges[s.comments[x.relationId]]).Some?
                    && resolve(s.arena.edges[s.comments[x.relationId]]).value in s.events)
    ensures x.kind == 1 && t.Some? ==>
      t.value == LikeEnd(Get(s.events, resolve(s.arena.edges[s.comments[x.relationId]]).value), Distants.LikeComment)
  {
    if x.value != 1 then None
    else if x.kind == 0 then Some(LikeEnd(Get(s.events, x.relationId), Distants.Like))
    else if x.kind == 1 && x.relationId in s.comments then
      match resolve(s.arena.edges[s.comments[x.relationId]])
      case Some(k) => if k in s.events then Some(LikeEnd(Some(s.events[k]), Distants.LikeComment)) else None
      case None => None
    else None
  }

  /** One reaction of init's last loop: a like edge from the reacting user when the like rule gives a target. */
  function LoadLike(s: GraphState, x: Reaction, resolve: Resolver): (r: GraphState)
    requires Wf(s)
    ensures Wf(r)
    ensures LikeTarget(s, x, resolve).None? ==> r == s
    ensures LikeTarget(s, x, resolve).Some? ==>
      var t := LikeTarget(s, x, resolve).value;
      && r == s.(arena := r.arena, likes := s.likes[x.id := |s.arena.edges|])
      && SameUnits(s.arena, r.arena)
      && r.arena.edges == s.arena.edges +
           [Edge(Unit(LikeEntity, ReactionProps(x), |s.arena.edges|), Get(s.users, x.userId), t.target, t.weight, true)]
  {
    match LikeTarget(s, x, resolve)
    case None => s
    case Some(t) =>
      s.(arena := Connect(s.arena, LikeEntity, ReactionProps(x), Get(s.users, x.userId), t.target, t.weight),
         likes := s.likes[x.id := |s.arena.edges|])
  }

  /** addLike: nothing for an absent or already indexed reaction; otherwise init's step for it. */
  function AddLike(s: GraphState, reaction: Option<Reaction>, resolve: Resolver): (r: GraphState)
    requires Wf(s)
    ensures Wf(r)
    ensures reaction.None? || reaction.value.id in s.likes ==> r == s
    ensures reaction.Some? && reaction.value.id !in s.likes ==> r == LoadLike(s, reaction.value, resolve)
    ensures reaction.Some? ==>
      (reaction.value.id in r.likes <==> reaction.value.id in s.likes || LikeTarget(s, reaction.value, resolve).Some?)
  {
    match reaction
    case None => s
    case Some(x) => if x.id in s.likes then s else LoadLike(s, x, resolve)
  }

  /**
   * updateLike: nothing for an absent reaction; a reaction of value 1 is
   * added as addLike adds it; any other value unlinks the reaction's like
   * edge, if it is indexed, and takes its id out of the index.
   */
  function UpdateLike(s: GraphState, reaction: Option<Reaction>, resolve: Resolver): (r: GraphState)
    requires Wf(s)
    ensures Wf(r)
    ensures reaction.None? ==> r == s
    ensures reaction.Some? && reaction.value.value == 1 ==> r == AddLike(s, reaction, resolve)
    ensures reaction.Some? && reaction.value.value != 1 && reaction.value.id !in s.likes ==> r == s
    ensures reaction.Some? && reaction.value.value != 1 && reaction.value.id in s.likes ==>
      && r == s.(arena := r.arena, likes := s.likes - {reaction.value.id})
      && UnlinkedAt(s.arena, r.arena, s.likes[reaction.value.id])
  {
    match reaction
    case None => s
    case Some(x) =>
      if x.value == 1 then
        if x.id in s.likes then s else LoadLike(s, x, resolve)
      else if x.id in s.likes then
        s.(arena := UnlinkEdge(s.arena, s.likes[x.id]), likes := s.likes - {x.id})
      else s
  }

  /** init's first loop: each user in order. */
  function LoadUsers(s: GraphState, us: seq<User>): (r: GraphState)
    requires Wf(s)
    ensures Wf(r)
    ensures r == s.(arena := r.arena, users := r.users)
    ensures NodesKept(s.arena, r.arena) && |r.arena.nodes| == |s.arena.nodes| + |us|
    ensures |r.arena.edges| == |s.arena.edges| + |us|
    decreases |us|
  {
    if us == [] then s
    else
      var init := us[..|us| - 1];
      assert us == init + [us[|us| - 1]];
      var m := LoadUsers(s, init);
      var r := LoadUser(m, us[|us| - 1]);
      NodesKeptTrans(s.arena, m.arena, r.arena);
      r
  }

  /** init's second loop: each relation in order. */
  function LoadRelations(s: GraphState, rs: seq<Relation>): (r: GraphState)
    requires Wf(s)
    ensures Wf(r)
    ensures r == s.(arena := r.arena, relations := r.relations)
    ensures SameUnits(s.arena, r.arena) && |r.arena.edges| == |s.arena.edges| + |rs|
    decreases |rs|
  {
    if rs == [] then s
    else
      var init := rs[..|rs| - 1];
      assert rs == init + [rs[|rs| - 1]];
      LoadRelation(LoadRelations(s, init), rs[|rs| - 1])
  }

  /** init's third loop: each event in order. */
  function LoadEvents(s: GraphState, es: seq<Event>): (r: GraphState)
    requires Wf(s)
    ensures Wf(r)
    ensures r == s.(arena := r.arena, events := r.events, posts := r.posts)
    ensures NodesKept(s.arena, r.arena) && |r.arena.nodes| == |s.arena.nodes| + |es|
    ensures |r.arena.edges| == |s.arena.edges| + 2 * |es|
    decreases |es|
  {
    if es == [] then s
    else
      var init := es[..|es| - 1];
      assert es == init + [es[|es| - 1]];
      var m := LoadEvents(s, init);
      var r := LoadEvent(m, es[|es| - 1]);
      NodesKeptTrans(s.arena, m.arena, r.arena);
      r
  }

  /** init's fourth loop: each comment in order. */
  function LoadComments(s: GraphState, cs: seq<Comment>): (r: GraphState)
    requires Wf(s)
    ensures Wf(r)
    ensures r == s.(arena := r.arena, comments := r.comments)
    ensures SameUnits(s.arena, r.arena) && |r.arena.edges| == |s.arena.edges| + |cs|
    decreases |cs|
  {
    if cs == [] then s
    else
      var init := cs[..|cs| - 1];
      assert cs == init + [cs[|cs| - 1]];
      LoadComment(LoadComments(s, init), cs[|cs| - 1])
  }

  /** init's last loop: each reaction in order. */
  function LoadReactions(s: GraphState, xs: seq<Reaction>, resolve: Resolver): (r: GraphState)
    requires Wf(s)
    ensures Wf(r)
    ensures r == s.(arena := r.arena, likes := r.likes)
    ensures SameUnits(s.arena, r.arena) && |s.arena.edges| <= |r.arena.edges| <= |s.arena.edges| + |xs|
    decreases |xs|
  {
    if xs == [] then s
    else
      var init := xs[..|xs| - 1];
      assert xs == init + [xs[|xs| - 1]];
      LoadLike(LoadReactions(s, init, resolve), xs[|xs| - 1], resolve)
  }

  /** init: the five loops, in the order users, relations, events, comments, reactions. */
  function Init(s: GraphState, users: seq<User>, relations: seq<Relation>, events: seq<Event>,
                comments: seq<Comment>, reactions: seq<Reaction>, resolve: Resolver): (r: GraphState)
    requires Wf(s)
    ensures Wf(r)
    ensures r.rootNode == s.rootNode
    ensures NodesKept(s.arena, r.arena) && |r.arena.nodes| == |s.arena.nodes| + |users| + |events|
  {
    var s1 := LoadUsers(s, users);
    var s2 := LoadRelations(s1, relations);
    var s3 := LoadEvents(s2, events);
    var s4 := LoadComments(s3, comments);
    LoadReactions(s4, reactions, resolve)
  }

  /**
   * findEvents' compare, given the key already lowered ("" when absent): the
   * node is an event, the key (if any) occurs in its lowered title or
   * description, and it was created before the start date (if any).
   */
  predicate EventMatch(key: string, startDate: Option<int>, u: Unit)
    ensures EventMatch(key, startDate, u) ==>
      u.entity == EventEntity && u.properties.EventProps? && (startDate.Some? ==> u.properties.event.createdAt < startDate.value)
    ensures u.entity == EventEntity && u.properties.EventProps? && key == [] && startDate.None? ==> EventMatch(key, startDate, u)
  {
    && u.entity == EventEntity
    && u.properties.EventProps?
    && (key == [] || IndexOf(Lower(u.properties.event.title), key) > -1
                  || IndexOf(Lower(u.properties.event.description), key) > -1)
    && (startDate.None? || u.properties.event.createdAt < startDate.value)
  }

  /** `key && key.toLowerCase()`: the lowered key, or the empty (falsy) key when none is given. */
  function LoweredKey(key: Option<string>): (k: string)
    ensures key.None? ==> k == []
    ensures key.Some? ==> |k| == |key.value| && forall i | 0 <= i < |k| :: !('A' <= k[i] <= 'Z')
  {
    if key.Some? then Lower(key.value) else ""
  }

  /** findEvents' entry node: the user's node, or the root node for a user the graph does not know. */
  function Entry(s: GraphState, userId: int): (n: NodeId)
    requires Wf(s)
    ensures n < |s.arena.nodes|
    ensures userId in s.users ==> n == s.users[userId]
    ensures userId !in s.users ==> n == s.rootNode
  {
    if userId in s.users then s.users[userId] else s.rootNode
  }

  /**
   * findEvents' filter in terms of occurrence: an event node whose lowered
   * title or description contains the lowered key (any key when none is
   * given), created before the start date when one is given.
   */
  lemma EventMatchMeans(key: Option<string>, startDate: Option<int>, u: Unit)
    ensures EventMatch(LoweredKey(key), startDate, u) <==>
      && u.entity == EventEntity && u.properties.EventProps?
      && (key.None? || key.value == []
          || Contains(Lower(u.properties.event.title), Lower(key.value))
          || Contains(Lower(u.properties.event.description), Lower(key.value)))
      && (startDate.None? || u.properties.event.createdAt < startDate.value)
  {
  }

  /** The filter ignores case: an event whose title contains the key as typed passes a filter without a date. */
  lemma TitleContainingKeyMatches(key: string, u: Unit, j: int)
    requires u.entity == EventEntity && u.properties.EventProps?
    requires OccursAt(u.properties.event.title, key, j)
    ensures EventMatch(LoweredKey(Some(key)), None, u)
  {
    OccursLowered(u.properties.event.title, key, j);
  }
}
