/**
 * GraphManager (src/middleware/graph/index.js) as a class: the graph it owns
 * and the six id-keyed indices it assigns into and deletes from. Each method
 * changes the graph and the indices step by step, as the source does, and is
 * proved to leave exactly the state the matching ManagerSpec function gives,
 * and to keep the manager consistent.
 */
module Manager {
  import opened Wrappers
  import opened Rows
  import opened Units
  import GraphLib
  import Spec = ManagerSpec
  import opened ManagerInvariant
  import opened ManagerInit
  import opened Text
  import Distants

  class GraphManager {
    const g: GraphLib.Graph
    var rootNode: NodeId
    var users: map<int, NodeId>
    var events: map<int, NodeId>
    var posts: map<int, EdgeId>
    var relations: map<int, EdgeId>
    var likes: map<int, EdgeId>
    var comments: map<int, EdgeId>
    /** Reads `relation_id` off a comment edge object, for likes on comments. */
    const resolve: Spec.Resolver

    /** The manager as a value. */
    function State(): Spec.GraphState
      reads this, g
    {
      Spec.GraphState(g.View(), rootNode, users, events, posts, relations, likes, comments)
    }

    ghost predicate Valid()
      reads this, g
    {
      Spec.Consistent(State())
    }

    /** A graph holding only the root node, and six empty indices. */
    constructor (resolve: Spec.Resolver)
      ensures Valid() && State() == Spec.Initial() && this.resolve == resolve && fresh(g)
    {
      var graph := new GraphLib.Graph();
      var root := graph.CreateNode(RootEntity, RootProps("Root Node"));
      g := graph;
      rootNode := root;
      users, events, posts := map[], map[], map[];
      relations, likes, comments := map[], map[], map[];
      this.resolve := resolve;
    }

    /** createEdge(kind, props).link(s, t).setDistance(w), returning the edge. */
    method CreateLinked(kind: Entity, props: Props, s: Option<NodeId>, t: Option<NodeId>, w: int) returns (e: EdgeId)
      requires GraphLib.InRange(g.View(), s) && GraphLib.InRange(g.View(), t)
      modifies g
      ensures e == |old(g.edges)| && g.View() == Spec.Connect(old(g.View()), kind, props, s, t, w)
    {
      e := g.CreateEdge(kind, props);
      e := g.Link(e, s, t);
      g.SetDistance(e, w);
    }

    /** The body of init's user loop and of addUser. */
    method LoadOneUser(u: User)
      requires Spec.Wf(State())
      modifies this, g
      ensures State() == Spec.LoadUser(old(State()), u)
    {
      var n := g.CreateNode(UserEntity, UserProps(u));
      users := users[u.id := n];
      var _ := CreateLinked(RootEntity, NoProps, Some(rootNode), Get(users, u.id), Distants.Root);
    }

    /** The body of init's relation loop. */
    method LoadOneRelation(rel: Relation)
      requires Spec.Wf(State())
      modifies this, g
      ensures State() == Spec.LoadRelation(old(State()), rel)
    {
      var e := CreateLinked(RelationEntity, RelationProps(rel), Get(users, rel.userId), Get(users, rel.followerId), Distants.Follow);
      relations := relations[rel.id := e];
    }

    /** The event node and post edge, shared by init's event loop and addEvent. */
    method IndexEventWithPost(ev: Event, fromRoot: bool)
      requires Spec.Wf(State())
      modifies this, g
      ensures fromRoot ==> State() == Spec.LoadEvent(old(State()), ev)
      ensures !fromRoot ==> State() == Spec.PostEvent(old(State()), ev)
    {
      var n := g.CreateNode(EventEntity, EventProps(ev));
      events := events[ev.id := n];
      if fromRoot {
        var _ := CreateLinked(RootEntity, NoProps, Some(rootNode), Get(events, ev.id), Distants.Root);
      }
      var p := CreateLinked(PostEntity, NoProps, Get(users, ev.userId), Get(events, ev.id), Distants.Post);
      posts := posts[ev.id := p];
    }

    /** The body of init's comment loop and of addComment. */
    method LoadOneComment(c: Comment)
      requires Spec.Wf(State())
      modifies this, g
      ensures State() == Spec.LoadComment(old(State()), c)
    {
      var e := CreateLinked(CommentEntity, CommentProps(c), Get(users, c.userId), Get(events, c.relationId), Distants.Comment);
      comments := comments[c.id := e];
    }

    /** The like rule: the body of init's reaction loop, and of addLike and updateLike once the duplicate check passed. */
    method LoadOneLike(x: Reaction)
      requires Spec.Wf(State())
      modifies this, g
      ensures State() == Spec.LoadLike(old(State()), x, resolve)
    {
      if x.value == 1 {
        if x.kind == 0 {
          var e := CreateLinked(LikeEntity, ReactionProps(x), Get(users, x.userId), Get(events, x.relationId), Distants.Like);
          likes := likes[x.id := e];
        } else if x.kind == 1 {
          if x.relationId in comments {
            var comment := comments[x.relationId];
            var eventId := resolve(g.edges[comment]);
            if eventId.Some? && eventId.value in events {
              var e := CreateLinked(LikeEntity, ReactionProps(x), Get(users, x.userId), Get(events, eventId.value), Distants.LikeComment);
              likes := likes[x.id := e];
            }
          }
        }
      }
    }

    /** init's user loop. */
    method LoadAllUsers(rows: seq<User>)
      requires Spec.Wf(State())
      modifies this, g
      ensures State() == Spec.LoadUsers(old(State()), rows)
    {
      ghost var s0 := State();
      for i := 0 to |rows|
        invariant State() == Spec.LoadUsers(s0, rows[..i])
      {
        LoadUsersStep(s0, rows, i);
        LoadOneUser(rows[i]);
      }
      assert rows[..|rows|] == rows;
    }

    /** init's relation loop. */
    method LoadAllRelations(rows: seq<Relation>)
      requires Spec.Wf(State())
      modifies this, g
      ensures State() == Spec.LoadRelations(old(State()), rows)
    {
      ghost var s0 := State();
      for i := 0 to |rows|
        invariant State() == Spec.LoadRelations(s0, rows[..i])
      {
        LoadRelationsStep(s0, rows, i);
        LoadOneRelation(rows[i]);
      }
      assert rows[..|rows|] == rows;
    }

    /** init's event loop. */
    method LoadAllEvents(rows: seq<Event>)
      requires Spec.Wf(State())
      modifies this, g
      ensures State() == Spec.LoadEvents(old(State()), rows)
    {
      ghost var s0 := State();
      for i := 0 to |rows|
        invariant State() == Spec.LoadEvents(s0, rows[..i])
      {
        LoadEventsStep(s0, rows, i);
        IndexEventWithPost(rows[i], true);
      }
      assert rows[..|rows|] == rows;
    }

    /** init's comment loop. */
    method LoadAllComments(rows: seq<Comment>)
      requires Spec.Wf(State())
      modifies this, g
      ensures State() == Spec.LoadComments(old(State()), rows)
    {
      ghost var s0 := State();
      for i := 0 to |rows|
        invariant State() == Spec.LoadComments(s0, rows[..i])
      {
        LoadCommentsStep(s0, rows, i);
        LoadOneComment(rows[i]);
      }
      assert rows[..|rows|] == rows;
    }

    /** init's reaction loop. */
    method LoadAllReactions(rows: seq<Reaction>)
      requires Spec.Wf(State())
      modifies this, g
      ensures State() == Spec.LoadReactions(old(State()), rows, resolve)
    {
      ghost var s0 := State();
      for i := 0 to |rows|
        invariant State() == Spec.LoadReactions(s0, rows[..i], resolve)
      {
        LoadReactionsStep(s0, rows, i, resolve);
        LoadOneLike(rows[i]);
      }
      assert rows[..|rows|] == rows;
    }

    /** init's population loops, in the order users, relations, events, comments, reactions. */
    method Init(userRows: seq<User>, relationRows: seq<Relation>, eventRows: seq<Event>,
                commentRows: seq<Comment>, reactionRows: seq<Reaction>)
      requires Valid()
      modifies this, g
      ensures Valid()
      ensures State() == Spec.Init(old(State()), userRows, relationRows, eventRows, commentRows, reactionRows, resolve)
    {
      InitConsistent(State(), userRows, relationRows, eventRows, commentRows, reactionRows, resolve);
      LoadAllUsers(userRows);
      LoadAllRelations(relationRows);
      LoadAllEvents(eventRows);
      LoadAllComments(commentRows);
      LoadAllReactions(reactionRows);
    }

    method AddUser(user: Option<User>)
      requires Valid()
      modifies this, g
      ensures Valid() && State() == Spec.AddUser(old(State()), user)
    {
      AddUserConsistent(State(), user);
      if user.None? || user.value.id in users {
        return;
      }
      LoadOneUser(user.value);
    }

    method FollowUser(relation: Option<Relation>)
      requires Valid()
      modifies this, g
      ensures Valid() && State() == Spec.FollowUser(old(State()), relation)
    {
      FollowUserConsistent(State(), relation);
      if relation.None? {
        return;
      }
      FollowOne(relation.value);
    }

    /** followUser past its null check: make the relation's edge if it has none, then move it. */
    method FollowOne(rel: Relation)
      requires Spec.Wf(State())
      modifies this, g
      ensures State() == Spec.FollowUser(old(State()), Some(rel))
    {
      ghost var s0 := State();
      Spec.FollowUserSome(s0, rel);
      var source, target := Get(users, rel.userId), Get(users, rel.followerId);
      RelationEdge(rel);
      Move(relations[rel.id], source, target, Distants.Follow);
    }

    /** `if (!this.relations[relation.id]) this.relations[relation.id] = createEdge('relation', relation)`. */
    method RelationEdge(rel: Relation)
      requires Spec.Wf(State())
      modifies this, g
      ensures rel.id in relations && relations[rel.id] == Spec.FollowEdge(old(State()), rel)
      ensures State() == old(State()).(arena := Spec.FollowArena(old(State()), rel), relations := relations)
      ensures relations == old(relations)[rel.id := relations[rel.id]]
    {
      if rel.id !in relations {
        var created := g.CreateEdge(RelationEntity, RelationProps(rel));
        relations := relations[rel.id := created];
      } else {
        assert relations == relations[rel.id := relations[rel.id]];
      }
    }

    /** edge.unlink(), then edge.link(s, t).setDistance(w). */
    method Move(e: EdgeId, s: Option<NodeId>, t: Option<NodeId>, w: int)
      requires e < |g.edges| && GraphLib.InRange(g.View(), s) && GraphLib.InRange(g.View(), t)
      modifies g
      ensures g.View() == Spec.Relink(old(g.View()), e, s, t, w)
    {
      g.Unlink(e);
      var r := g.Link(e, s, t);
      g.SetDistance(r, w);
    }

    method UnfollowUser(relation: Option<Relation>)
      requires Valid()
      modifies this, g
      ensures Valid() && State() == Spec.UnfollowUser(old(State()), relation)
    {
      UnfollowUserConsistent(State(), relation);
      if relation.None? || relation.value.id !in relations {
        return;
      }
      g.Unlink(relations[relation.value.id]);
      relations := relations - {relation.value.id};
    }

    method AddEvent(event: Option<Event>)
      requires Valid()
      modifies this, g
      ensures Valid() && State() == Spec.AddEvent(old(State()), event)
    {
      AddEventConsistent(State(), event);
      if event.None? || event.value.id in events {
        return;
      }
      IndexEventWithPost(event.value, false);
    }

    method AddLike(reaction: Option<Reaction>)
      requires Valid()
      modifies this, g
      ensures Valid() && State() == Spec.AddLike(old(State()), reaction, resolve)
    {
      AddLikeConsistent(State(), reaction, resolve);
      if reaction.None? || reaction.value.id in likes {
        return;
      }
      LoadOneLike(reaction.value);
    }

    method UpdateLike(reaction: Option<Reaction>)
      requires Valid()
      modifies this, g
      ensures Valid() && State() == Spec.UpdateLike(old(State()), reaction, resolve)
    {
      UpdateLikeConsistent(State(), reaction, resolve);
      if reaction.None? {
        return;
      }
      var x := reaction.value;
      if x.value == 1 {
        if x.id in likes {
          return;
        }
        LoadOneLike(x);
      } else if x.id in likes {
        g.Unlink(likes[x.id]);
        likes := likes - {x.id};
      }
    }

    method AddComment(comment: Option<Comment>)
      requires Valid()
      modifies this, g
      ensures Valid() && State() == Spec.AddComment(old(State()), comment)
    {
      AddCommentConsistent(State(), comment);
      if comment.None? || comment.value.id in comments {
        return;
      }
      LoadOneComment(comment.value);
    }

    method DeleteComment(comment: Option<Comment>)
      requires Valid()
      modifies this, g
      ensures Valid() && State() == Spec.DeleteComment(old(State()), comment)
    {
      DeleteCommentConsistent(State(), comment);
      if comment.None? || comment.value.id !in comments {
        return;
      }
      g.Unlink(comments[comment.value.id]);
      comments := comments - {comment.value.id};
    }

    /**
     * findEvents: the end nodes of at most `limit` (20 when not given) paths
     * closest finds from the user's node (the root node for a user the graph
     * does not know), each at least two edges long and ending at an event
     * node that passes the filter.
     */
    method FindEvents(userId: int, key: Option<string>, startDate: Option<int>, limit: Option<int>)
      returns (ends: seq<NodeId>)
      requires Valid()
      ensures |ends| <= (var n := if limit.Some? then limit.value else 20; if n < 0 then 0 else n)
      ensures forall i | 0 <= i < |ends| ::
        ends[i] < |g.nodes| && Spec.EventMatch(Spec.LoweredKey(key), startDate, g.nodes[ends[i]].unit)
      ensures forall i | 0 <= i < |ends| ::
        exists steps :: |steps| >= 2 && GraphLib.IsWalk(g.View(), Spec.Entry(State(), userId), steps, ends[i])
    {
      var entry := if userId in users then users[userId] else rootNode;
      var k := if key.Some? then Lower(key.value) else "";
      var count := if limit.Some? then limit.value else 20;
      var results := g.Closest(entry, u => Spec.EventMatch(k, startDate, u), 2, count);
      ends := seq(|results|, i requires 0 <= i < |results| => results[i].end);
      assert forall i | 0 <= i < |ends| :: GraphLib.Admissible(g.View(), entry, u => Spec.EventMatch(k, startDate, u), 2, results[i]);
    }
  }
}
