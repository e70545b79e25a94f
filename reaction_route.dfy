/**
 * POST / of the reaction router (src/router/front/reaction.js): validate the
 * request, toggle the value of the user's existing reaction or create one,
 * and hand the row to the graph manager (updateLike or addLike). The reaction
 * table is a sequence of rows in table order with the next auto-increment id;
 * the event lookup that builds the response is reduced to whether it found a
 * row.
 */
module ReactionRoute {
  import opened Wrappers
  import opened Rows
  import opened Units
  import Spec = ManagerSpec
  import opened Manager
  import ManagerInit

  /** The body fields `relation_id`, `type` and `value`, absent when missing or not a number. */
  datatype ReactionRequest = ReactionRequest(relationId: Option<int>, kind: Option<int>, value: Option<int>)

  datatype Response =
    | Forbidden                                     // 403: the request failed validation
    | Ok(value: int, kind: int, relationId: int)    // 200, echoing the value now stored
    | ServerError                                   // 500: something threw after validation

  /** The request schema: all three fields are numbers, and `value` is at least 1. */
  predicate Accepted(req: ReactionRequest)
    ensures req.relationId.None? || req.kind.None? || req.value.None? ==> !Accepted(req)
    ensures Accepted(req) ==> req.value.value != 0
  {
    req.relationId.Some? && req.kind.Some? && req.value.Some? && req.value.value >= 1
  }

  /** The toggle rule: a different value replaces the stored one; the same value again clears it to 0. */
  function NewValue(stored: int, requested: int): (v: int)
    ensures v == requested || v == 0
  {
    if stored != requested then requested else 0
  }

  /** Requesting the value already stored withdraws the reaction; any other request stores it. */
  lemma NewValueToggles(stored: int, requested: int)
    requires requested >= 1
    ensures NewValue(stored, requested) == 0 <==> stored == requested
    ensures NewValue(stored, requested) == requested <==> stored != requested
    ensures NewValue(NewValue(stored, requested), requested) == (if stored == requested then requested else 0)
  {
  }

  predicate Matches(x: Reaction, relationId: int, kind: int, userId: int)
  {
    x.relationId == relationId && x.kind == kind && x.userId == userId
  }

  /** findOne({ relation_id, type, user_id }): the first such row in table order. */
  function FindReaction(rows: seq<Reaction>, relationId: int, kind: int, userId: int): (r: Option<nat>)
    ensures r.Some? ==> r.value < |rows| && Matches(rows[r.value], relationId, kind, userId)
    ensures r.Some? ==> forall j | 0 <= j < r.value :: !Matches(rows[j], relationId, kind, userId)
    ensures r.None? ==> forall j | 0 <= j < |rows| :: !Matches(rows[j], relationId, kind, userId)
    decreases |rows|
  {
    if rows == [] then None
    else if Matches(rows[0], relationId, kind, userId) then Some(0)
    else match FindReaction(rows[1..], relationId, kind, userId)
      case None => None
      case Some(i) => Some(i + 1)
  }

  /** The table, the graph manager and the response after one request. */
  datatype Outcome = Outcome(rows: seq<Reaction>, nextId: int, graph: Spec.GraphState, response: Response)

  /**
   * The route: a request that fails validation changes nothing and gets 403.
   * Otherwise the user's reaction on (relation_id, type) gets the toggled
   * value and goes to updateLike as the stored row with that value, or a new
   * row is created with the requested value and goes to addLike. The reply
   * echoes the value; only a reaction on an event (type 0) whose event row
   * exists gets 200, since for any other type the related model is `{}`,
   * whose findOne is not a function, and the handler answers 500 after the
   * writes.
   */
  function Handle(rows: seq<Reaction>, nextId: int, s: Spec.GraphState, me: int, req: ReactionRequest,
                  resolve: Spec.Resolver, eventFound: bool): (o: Outcome)
    requires Spec.Wf(s)
    ensures !Accepted(req) ==> o == Outcome(rows, nextId, s, Forbidden)
    ensures Accepted(req) ==> o.response.Ok? || o.response.ServerError?
    ensures Accepted(req) && o.response.Ok? ==>
      req.kind.value == 0 && o.response.kind == 0 && o.response.relationId == req.relationId.value
  {
    if !Accepted(req) then Outcome(rows, nextId, s, Forbidden)
    else
      var relationId, kind, requested := req.relationId.value, req.kind.value, req.value.value;
      var o := match FindReaction(rows, relationId, kind, me)
        case Some(i) =>
          var value := NewValue(rows[i].value, requested);
          var row := rows[i].(value := value);
          Outcome(rows[i := row], nextId, Spec.UpdateLike(s, Some(row), resolve), Ok(value, kind, relationId))
        case None =>
          var row := Reaction(nextId, relationId, kind, me, requested);
          Outcome(rows + [row], nextId + 1, Spec.AddLike(s, Some(row), resolve), Ok(requested, kind, relationId));
      if kind == 0 && eventFound then o else o.(response := ServerError)
  }

  /** Every row id is below the next id, and no two rows share an id (the table's primary key). */
  ghost predicate IdsOk(rows: seq<Reaction>, nextId: int)
  {
    && (forall i | 0 <= i < |rows| :: rows[i].id < nextId)
    && (forall i, j | 0 <= i < j < |rows| :: rows[i].id != rows[j].id)
  }

  /**
   * The table and the graph agree on likes of events: a reaction on an event
   * has its like edge indexed exactly when its value is 1, and every indexed
   * like belongs to an id already handed out.
   */
  ghost predicate Coherent(rows: seq<Reaction>, nextId: int, likes: map<int, EdgeId>)
  {
    && IdsOk(rows, nextId)
    && (forall i | 0 <= i < |rows| && rows[i].kind == 0 :: rows[i].id in likes <==> rows[i].value == 1)
    && (forall k | k in likes :: k < nextId)
  }

  /**
   * Building the graph from the store's rows makes its like index agree with
   * the reaction table: a reaction on an event is indexed exactly when its
   * value is 1, and every indexed like is an id already handed out.
   */
  lemma CoherentAtStart(rows: seq<Reaction>, nextId: int, users: seq<User>, relations: seq<Relation>,
                        events: seq<Event>, comments: seq<Comment>, resolve: Spec.Resolver)
    requires IdsOk(rows, nextId)
    ensures Coherent(rows, nextId, Spec.Init(Spec.Initial(), users, relations, events, comments, rows, resolve).likes)
  {
    var likes := Spec.Init(Spec.Initial(), users, relations, events, comments, rows, resolve).likes;
    ManagerInit.InitKeys(Spec.Initial(), users, relations, events, comments, rows, resolve);
    forall i | 0 <= i < |rows| && rows[i].kind == 0
      ensures rows[i].id in likes <==> rows[i].value == 1
    {
      if rows[i].id in likes {
        var j :| 0 <= j < |rows| && rows[j].value == 1 && rows[j].id == rows[i].id;
        assert i == j;
      } else {
        assert rows[i] in rows;
      }
    }
    forall k | k in likes
      ensures k < nextId
    {
      var j :| 0 <= j < |rows| && rows[j].value == 1 && rows[j].id == k;
    }
  }

  /**
   * After an accepted request: an existing reaction of the user on
   * (relation_id, type) has its value toggled in place, every other row kept;
   * without one, a row with the requested value is appended under the next
   * id. Either way the row the next findOne returns holds the requested value
   * or 0, and the reply echoes it.
   */
  lemma StoredValue(rows: seq<Reaction>, nextId: int, s: Spec.GraphState, me: int, req: ReactionRequest,
                    resolve: Spec.Resolver, eventFound: bool)
    requires Spec.Wf(s) && Accepted(req)
    ensures var o := Handle(rows, nextId, s, me, req, resolve, eventFound);
      var relationId, kind, requested := req.relationId.value, req.kind.value, req.value.value;
      var before := FindReaction(rows, relationId, kind, me);
      && (before.Some? ==>
            && |o.rows| == |rows| && o.nextId == nextId
            && o.rows[before.value] == rows[before.value].(value := if rows[before.value].value == requested then 0 else requested)
            && (forall j | 0 <= j < |rows| && j != before.value :: o.rows[j] == rows[j]))
      && (before.None? ==>
            o.rows == rows + [Reaction(nextId, relationId, kind, me, requested)] && o.nextId == nextId + 1)
    ensures var o := Handle(rows, nextId, s, me, req, resolve, eventFound);
      var found := FindReaction(o.rows, req.relationId.value, req.kind.value, me);
      && found.Some?
      && (o.rows[found.value].value == req.value.value || o.rows[found.value].value == 0)
      && (o.response.Ok? ==> o.response.value == o.rows[found.value].value)
  {
    var relationId, kind, requested := req.relationId.value, req.kind.value, req.value.value;
    var o := Handle(rows, nextId, s, me, req, resolve, eventFound);
    match FindReaction(rows, relationId, kind, me)
    case Some(i) =>
      FoundAgain(rows, i, rows[i].(value := NewValue(rows[i].value, requested)), relationId, kind, me);
    case None =>
      FoundAppended(rows, Reaction(nextId, relationId, kind, me, requested), relationId, kind, me);
  }

  /** Replacing the first match by another matching row keeps it the first match. */
  lemma FoundAgain(rows: seq<Reaction>, i: nat, row: Reaction, relationId: int, kind: int, userId: int)
    requires FindReaction(rows, relationId, kind, userId) == Some(i)
    requires Matches(row, relationId, kind, userId)
    ensures FindReaction(rows[i := row], relationId, kind, userId) == Some(i)
  {
    var r := rows[i := row];
    assert Matches(r[i], relationId, kind, userId);
    assert forall j | 0 <= j < i :: r[j] == rows[j];
  }

  /** A matching row appended to a table with no match is the first match. */
  lemma FoundAppended(rows: seq<Reaction>, row: Reaction, relationId: int, kind: int, userId: int)
    requires FindReaction(rows, relationId, kind, userId).None?
    requires Matches(row, relationId, kind, userId)
    ensures FindReaction(rows + [row], relationId, kind, userId) == Some(|rows|)
  {
    var r := rows + [row];
    assert Matches(r[|rows|], relationId, kind, userId);
    assert forall j | 0 <= j < |rows| :: r[j] == rows[j];
  }

  /**
   * updateLike only touches the reaction's own id in the like index, and
   * leaves a reaction on an event indexed exactly when its value is 1, given
   * that a like of value 1 is not indexed yet.
   */
  lemma UpdateLikeKeys(s: Spec.GraphState, x: Reaction, resolve: Spec.Resolver)
    requires Spec.Wf(s)
    requires x.kind == 0 && x.value == 1 ==> x.id !in s.likes
    ensures forall k | k != x.id :: k in Spec.UpdateLike(s, Some(x), resolve).likes <==> k in s.likes
    ensures x.kind == 0 ==> (x.id in Spec.UpdateLike(s, Some(x), resolve).likes <==> x.value == 1)
  {
    if x.value == 1 && x.id !in s.likes {
      AddLikeKeys(s, x, resolve);
    }
  }

  /** addLike of a reaction not indexed yet only touches its id, and indexes a reaction on an event exactly when its value is 1. */
  lemma AddLikeKeys(s: Spec.GraphState, x: Reaction, resolve: Spec.Resolver)
    requires Spec.Wf(s) && x.id !in s.likes
    ensures forall k | k != x.id :: k in Spec.AddLike(s, Some(x), resolve).likes <==> k in s.likes
    ensures x.kind == 0 ==> (x.id in Spec.AddLike(s, Some(x), resolve).likes <==> x.value == 1)
  {
    var t := Spec.LikeTarget(s, x, resolve);
    assert x.kind == 0 && x.value == 1 ==> t.Some?;
  }

  /**
   * End to end, for reactions on events: after an accepted request the user's
   * reaction has its like edge indexed in the graph exactly when its stored
   * value is 1, and the table and the graph still agree on every other reaction.
   */
  lemma LikeIndexedIffLiked(rows: seq<Reaction>, nextId: int, s: Spec.GraphState, me: int, req: ReactionRequest,
                            resolve: Spec.Resolver, eventFound: bool)
    requires Spec.Wf(s) && Coherent(rows, nextId, s.likes)
    requires Accepted(req) && req.kind.value == 0
    ensures var o := Handle(rows, nextId, s, me, req, resolve, eventFound);
      var found := FindReaction(o.rows, req.relationId.value, 0, me);
      && found.Some?
      && (o.rows[found.value].id in o.graph.likes <==> o.rows[found.value].value == 1)
      && Coherent(o.rows, o.nextId, o.graph.likes)
  {
    StoredValue(rows, nextId, s, me, req, resolve, eventFound);
    var relationId, requested := req.relationId.value, req.value.value;
    var o := Handle(rows, nextId, s, me, req, resolve, eventFound);
    match FindReaction(rows, relationId, 0, me)
    case Some(i) =>
      var row := rows[i].(value := NewValue(rows[i].value, requested));
      UpdateCoherent(rows, nextId, s, i, row, resolve);
    case None =>
      var row := Reaction(nextId, relationId, 0, me, requested);
      AddCoherent(rows, nextId, s, row, resolve);
  }

  /** updateLike on a row of the table, with the row updated alike, keeps the table and the graph in agreement. */
  lemma UpdateCoherent(rows: seq<Reaction>, nextId: int, s: Spec.GraphState, i: nat, row: Reaction, resolve: Spec.Resolver)
    requires Spec.Wf(s) && Coherent(rows, nextId, s.likes)
    requires i < |rows| && row.id == rows[i].id && row.kind == rows[i].kind
    requires row.kind == 0 ==> (row.value == 1 ==> rows[i].value != 1)
    ensures Coherent(rows[i := row], nextId, Spec.UpdateLike(s, Some(row), resolve).likes)
  {
    var r := rows[i := row];
    UpdateLikeKeys(s, row, resolve);
    var likes := Spec.UpdateLike(s, Some(row), resolve).likes;
    forall j | 0 <= j < |r| && r[j].kind == 0
      ensures r[j].id in likes <==> r[j].value == 1
    {
      if j != i {
        assert r[j] == rows[j] && rows[j].id != row.id;
      }
    }
  }

  /** addLike on a freshly created row, appended to the table, keeps the table and the graph in agreement. */
  lemma AddCoherent(rows: seq<Reaction>, nextId: int, s: Spec.GraphState, row: Reaction, resolve: Spec.Resolver)
    requires Spec.Wf(s) && Coherent(rows, nextId, s.likes) && row.id == nextId
    ensures Coherent(rows + [row], nextId + 1, Spec.AddLike(s, Some(row), resolve).likes)
  {
    var r := rows + [row];
    AddLikeKeys(s, row, resolve);
    var likes := Spec.AddLike(s, Some(row), resolve).likes;
    forall j | 0 <= j < |r| && r[j].kind == 0
      ensures r[j].id in likes <==> r[j].value == 1
    {
      if j < |rows| {
        assert r[j] == rows[j] && rows[j].id != row.id;
      }
    }
  }

  /** The reaction table. */
  class ReactionTable {
    var rows: seq<Reaction>
    var nextId: int

    /** Reaction.update({ value }, { where: { id } }) on the row at position `i`. */
    method Update(i: nat, value: int)
      requires i < |rows|
      modifies this
      ensures rows == old(rows)[i := old(rows)[i].(value := value)] && nextId == old(nextId)
    {
      rows := rows[i := rows[i].(value := value)];
    }

    /** Reaction.create(..): a new row under the next id. */
    method Create(relationId: int, kind: int, userId: int, value: int) returns (row: Reaction)
      modifies this
      ensures row == Reaction(old(nextId), relationId, kind, userId, value)
      ensures rows == old(rows) + [row] && nextId == old(nextId) + 1
    {
      row := Reaction(nextId, relationId, kind, userId, value);
      rows := rows + [row];
      nextId := nextId + 1;
    }
  }

  /** The route handler for the signed-in user `me`; `eventFound` is whether the event row for the reply exists. */
  method PostReaction(graph: GraphManager, table: ReactionTable, me: int, req: ReactionRequest, eventFound: bool)
    returns (response: Response)
    requires graph.Valid()
    modifies graph, graph.g, table
    ensures graph.Valid()
    ensures Outcome(table.rows, table.nextId, graph.State(), response)
            == Handle(old(table.rows), old(table.nextId), old(graph.State()), me, req, graph.resolve, eventFound)
  {
    if !Accepted(req) {
      return Forbidden;
    }
    var relationId, kind := req.relationId.value, req.kind.value;
    var value := req.value.value;
    var duplication := FindReaction(table.rows, relationId, kind, me);
    if duplication.Some? {
      var stored := table.rows[duplication.value];
      value := NewValue(stored.value, value);
      table.Update(duplication.value, value);
      graph.UpdateLike(Some(stored.(value := value)));
    } else {
      var reaction := table.Create(relationId, kind, me, value);
      graph.AddLike(Some(reaction));
    }
    if kind == 0 && eventFound {
      response := Ok(value, kind, relationId);
    } else {
      response := ServerError;
    }
  }
}
