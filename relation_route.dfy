/**
 * POST /follow/:user_id of the relation router (src/router/front/relation.js):
 * if the signed-in user already follows `user_id`, destroy that relation and
 * hand it to unfollowUser, otherwise create one and hand it to followUser;
 * then notify the followed user with a flag saying which happened. The
 * relation table is a sequence of rows with the next auto-increment id; the
 * notification is reduced to its flag and the follower lists of the reply
 * are not modelled.
 */
module RelationRoute {
  import opened Wrappers
  import opened Rows
  import opened Units
  import Spec = ManagerSpec
  import opened Manager
  import ManagerInit

  predicate IsPair(x: Relation, userId: int, followerId: int)
  {
    x.userId == userId && x.followerId == followerId
  }

  /** findOne({ user_id, follower_id }): the first such row in table order. */
  function FindRelation(rows: seq<Relation>, userId: int, followerId: int): (r: Option<nat>)
    ensures r.Some? ==> r.value < |rows| && IsPair(rows[r.value], userId, followerId)
    ensures r.Some? ==> forall j | 0 <= j < r.value :: !IsPair(rows[j], userId, followerId)
    ensures r.None? ==> forall x | x in rows :: !IsPair(x, userId, followerId)
    decreases |rows|
  {
    if rows == [] then None
    else if IsPair(rows[0], userId, followerId) then Some(0)
    else match FindRelation(rows[1..], userId, followerId)
      case None => None
      case Some(i) => Some(i + 1)
  }

  /** destroy({ where: { id } }): every row with that id goes, the others stay in order. */
  function RemoveId(rows: seq<Relation>, id: int): (r: seq<Relation>)
    ensures forall x :: x in r <==> x in rows && x.id != id
    ensures |r| <= |rows|
    decreases |rows|
  {
    if rows == [] then []
    else (if rows[0].id == id then [] else [rows[0]]) + RemoveId(rows[1..], id)
  }

  /** `followerId` follows `userId` according to the table. */
  predicate Follows(rows: seq<Relation>, userId: int, followerId: int)
  {
    exists x | x in rows :: IsPair(x, userId, followerId)
  }

  /** The table, the graph manager and the notification flag after one request. */
  datatype Outcome = Outcome(rows: seq<Relation>, nextId: int, graph: Spec.GraphState, flag: int)

  /**
   * The route for the signed-in user `me` and the path's `user_id`: an
   * existing relation is destroyed and goes to unfollowUser with flag 1;
   * otherwise a new one is created and goes to followUser with flag 0.
   */
  function Handle(rows: seq<Relation>, nextId: int, s: Spec.GraphState, me: int, userId: int): (o: Outcome)
    requires Spec.Wf(s)
    ensures o.flag == 1 <==> Follows(rows, userId, me)
    ensures o.flag == 0 <==> !Follows(rows, userId, me)
  {
    match FindRelation(rows, userId, me)
    case Some(i) =>
      Outcome(RemoveId(rows, rows[i].id), nextId, Spec.UnfollowUser(s, Some(rows[i])), 1)
    case None =>
      var row := Relation(nextId, userId, me);
      Outcome(rows + [row], nextId + 1, Spec.FollowUser(s, Some(row)), 0)
  }

  /** The ids of the table's rows. */
  ghost function Ids(rows: seq<Relation>): set<int>
  {
    set x | x in rows :: x.id
  }

  /** The table's keys: ids are below the next id and name one row each, and a pair of users has at most one row. */
  ghost predicate TableOk(rows: seq<Relation>, nextId: int)
  {
    && (forall x | x in rows :: x.id < nextId)
    && (forall x, y | x in rows && y in rows && x.id == y.id :: x == y)
    && (forall x, y | x in rows && y in rows && x.userId == y.userId && x.followerId == y.followerId :: x == y)
  }

  /** The table is well keyed, and the graph's relation index holds exactly the table's ids. */
  ghost predicate Coherent(rows: seq<Relation>, nextId: int, relations: map<int, EdgeId>)
  {
    TableOk(rows, nextId) && relations.Keys == Ids(rows)
  }

  /** Building the graph from the store's rows makes its relation index agree with the relation table. */
  lemma CoherentAtStart(rows: seq<Relation>, nextId: int, users: seq<User>, events: seq<Event>,
                        comments: seq<Comment>, reactions: seq<Reaction>, resolve: Spec.Resolver)
    requires TableOk(rows, nextId)
    ensures Coherent(rows, nextId, Spec.Init(Spec.Initial(), users, rows, events, comments, reactions, resolve).relations)
  {
    ManagerInit.InitKeys(Spec.Initial(), users, rows, events, comments, reactions, resolve);
  }

  /** Destroying the row of a pair: the pair no longer follows, its id is gone, and the keys still hold. */
  lemma DestroyRow(rows: seq<Relation>, nextId: int, d: Relation)
    requires TableOk(rows, nextId) && d in rows
    ensures TableOk(RemoveId(rows, d.id), nextId)
    ensures !Follows(RemoveId(rows, d.id), d.userId, d.followerId)
    ensures Ids(RemoveId(rows, d.id)) == Ids(rows) - {d.id}
  {
    var r := RemoveId(rows, d.id);
    forall x | x in r
      ensures !IsPair(x, d.userId, d.followerId)
    {
      assert x in rows && x.id != d.id;
    }
    forall k | k in Ids(rows) && k != d.id
      ensures k in Ids(r)
    {
      var x :| x in rows && x.id == k;
      assert x in r;
    }
  }

  /** Creating the row of a pair that has none, under the next id: the pair follows, the id is added, and the keys still hold. */
  lemma CreateRow(rows: seq<Relation>, nextId: int, row: Relation)
    requires TableOk(rows, nextId) && row.id == nextId && !Follows(rows, row.userId, row.followerId)
    ensures TableOk(rows + [row], nextId + 1)
    ensures Follows(rows + [row], row.userId, row.followerId)
    ensures Ids(rows + [row]) == Ids(rows) + {row.id}
  {
    var r := rows + [row];
    assert row in r;
    forall x | x in r
      ensures x.id in Ids(rows) + {row.id}
    {
      if x != row {
        assert x in rows;
      }
    }
    forall x, y | x in r && y in r && x.userId == y.userId && x.followerId == y.followerId
      ensures x == y
    {
      assert (x != row ==> x in rows) && (y != row ==> y in rows);
    }
  }

  /** A request toggles whether `me` follows `userId`, and keeps the table and the graph in agreement. */
  lemma HandleToggles(rows: seq<Relation>, nextId: int, s: Spec.GraphState, me: int, userId: int)
    requires Spec.Wf(s) && Coherent(rows, nextId, s.relations)
    ensures var o := Handle(rows, nextId, s, me, userId);
      && (Follows(o.rows, userId, me) <==> !Follows(rows, userId, me))
      && Coherent(o.rows, o.nextId, o.graph.relations)
  {
    match FindRelation(rows, userId, me)
    case Some(i) =>
      var d := rows[i];
      assert d in rows && d.id in s.relations;
      DestroyRow(rows, nextId, d);
      assert Spec.UnfollowUser(s, Some(d)).relations == s.relations - {d.id};
    case None =>
      CreateRow(rows, nextId, Relation(nextId, userId, me));
  }

  /** Two requests for the same pair in a row give the pair back its membership in the table. */
  lemma TwoRequestsRestore(rows: seq<Relation>, nextId: int, s: Spec.GraphState, me: int, userId: int)
    requires Spec.Wf(s) && Coherent(rows, nextId, s.relations)
    ensures var o1 := Handle(rows, nextId, s, me, userId);
      var o2 := Handle(o1.rows, o1.nextId, o1.graph, me, userId);
      Follows(o2.rows, userId, me) <==> Follows(rows, userId, me)
  {
    var o1 := Handle(rows, nextId, s, me, userId);
    HandleToggles(rows, nextId, s, me, userId);
    HandleToggles(o1.rows, o1.nextId, o1.graph, me, userId);
  }

  /**
   * End to end: after a request, `me` follows `userId` in the table exactly
   * when the graph indexes a relation for that pair, and that relation's edge
   * then runs from the followed user's node to the follower's with weight 1.
   */
  lemma FollowEdgeIffFollows(rows: seq<Relation>, nextId: int, s: Spec.GraphState, me: int, userId: int)
    requires Spec.Consistent(s) && Coherent(rows, nextId, s.relations)
    ensures var o := Handle(rows, nextId, s, me, userId);
      && (Follows(o.rows, userId, me) <==> exists x | x in o.rows :: IsPair(x, userId, me) && x.id in o.graph.relations)
      && (forall x | x in o.rows && IsPair(x, userId, me) && !Follows(rows, userId, me) ::
            var e := o.graph.arena.edges[o.graph.relations[x.id]];
            e.linked && e.source == Get(s.users, userId) && e.target == Get(s.users, me) && e.distance == 1)
  {
    HandleToggles(rows, nextId, s, me, userId);
    var o := Handle(rows, nextId, s, me, userId);
    if !Follows(rows, userId, me) {
      var row := Relation(nextId, userId, me);
      assert row in o.rows;
      forall x | x in o.rows && IsPair(x, userId, me)
        ensures x == row
      {
      }
    }
  }

  /** The relation table. */
  class RelationTable {
    var rows: seq<Relation>
    var nextId: int

    /** Relation.destroy({ where: { id } }). */
    method Destroy(id: int)
      modifies this
      ensures rows == RemoveId(old(rows), id) && nextId == old(nextId)
    {
      rows := RemoveId(rows, id);
    }

    /** Relation.create({ user_id, follower_id }): a new row under the next id. */
    method Create(userId: int, followerId: int) returns (row: Relation)
      modifies this
      ensures row == Relation(old(nextId), userId, followerId)
      ensures rows == old(rows) + [row] && nextId == old(nextId) + 1
    {
      row := Relation(nextId, userId, followerId);
      rows := rows + [row];
      nextId := nextId + 1;
    }
  }

  /** The route handler for the signed-in user `me`; returns the flag sent with the follow notification. */
  method PostFollow(graph: GraphManager, table: RelationTable, me: int, userId: int) returns (flag: int)
    requires graph.Valid()
    modifies graph, graph.g, table
    ensures graph.Valid()
    ensures Outcome(table.rows, table.nextId, graph.State(), flag)
            == Handle(old(table.rows), old(table.nextId), old(graph.State()), me, userId)
  {
    var relation := FindRelation(table.rows, userId, me);
    flag := 0;
    if relation.Some? {
      var row := table.rows[relation.value];
      flag := 1;
      table.Destroy(row.id);
      graph.UnfollowUser(Some(row));
    } else {
      var row := table.Create(userId, me);
      graph.FollowUser(Some(row));
    }
  }
}
