/**
 * Proofs about GraphManager.init (ManagerSpec.Init): each of its five loops
 * keeps the manager's invariant, so a manager that has loaded the store is
 * consistent (LoadUsersConsistent .. InitConsistent). The key-set lemmas
 * (LoadUsersKeys .. InitKeys) state which ids each loop indexes: exactly the
 * ids of its rows, except that the reaction loop indexes only rows of value
 * 1, and among them every one that likes an event.
 */
module ManagerInit {
  import opened Rows
  import opened GraphLib
  import opened ManagerSpec
  import opened ManagerInvariant

  lemma {:induction false} LoadUsersConsistent(s: GraphState, us: seq<User>)
    requires Consistent(s)
    ensures Consistent(LoadUsers(s, us))
    decreases |us|
  {
    if us != [] {
      var init := us[..|us| - 1];
      LoadUsersConsistent(s, init);
      LoadUserConsistent(LoadUsers(s, init), us[|us| - 1]);
    }
  }

  lemma {:induction false} LoadRelationsConsistent(s: GraphState, rs: seq<Relation>)
    requires Consistent(s)
    ensures Consistent(LoadRelations(s, rs))
    decreases |rs|
  {
    if rs != [] {
      var init := rs[..|rs| - 1];
      LoadRelationsConsistent(s, init);
      LoadRelationConsistent(LoadRelations(s, init), rs[|rs| - 1]);
    }
  }

  lemma {:induction false} LoadEventsConsistent(s: GraphState, es: seq<Event>)
    requires Consistent(s)
    ensures Consistent(LoadEvents(s, es))
    decreases |es|
  {
    if es != [] {
      var init := es[..|es| - 1];
      LoadEventsConsistent(s, init);
      LoadEventConsistent(LoadEvents(s, init), es[|es| - 1]);
    }
  }

  lemma {:induction false} LoadCommentsConsistent(s: GraphState, cs: seq<Comment>)
    requires Consistent(s)
    ensures Consistent(LoadComments(s, cs))
    decreases |cs|
  {
    if cs != [] {
      var init := cs[..|cs| - 1];
      LoadCommentsConsistent(s, init);
      LoadCommentConsistent(LoadComments(s, init), cs[|cs| - 1]);
    }
  }

  lemma {:induction false} LoadReactionsConsistent(s: GraphState, xs: seq<Reaction>, resolve: Resolver)
    requires Consistent(s)
    ensures Consistent(LoadReactions(s, xs, resolve))
    decreases |xs|
  {
    if xs != [] {
      var init := xs[..|xs| - 1];
      LoadReactionsConsistent(s, init, resolve);
      LoadLikeConsistent(LoadReactions(s, init, resolve), xs[|xs| - 1], resolve);
    }
  }

  /** init's user loop, one iteration further. */
  lemma LoadUsersStep(s: GraphState, rows: seq<User>, i: nat)
    requires Wf(s) && i < |rows|
    ensures LoadUsers(s, rows[..i + 1]) == LoadUser(LoadUsers(s, rows[..i]), rows[i])
  {
    assert rows[..i + 1][..i] == rows[..i];
  }

  /** init's relation loop, one iteration further. */
  lemma LoadRelationsStep(s: GraphState, rows: seq<Relation>, i: nat)
    requires Wf(s) && i < |rows|
    ensures LoadRelations(s, rows[..i + 1]) == LoadRelation(LoadRelations(s, rows[..i]), rows[i])
  {
    assert rows[..i + 1][..i] == rows[..i];
  }

  /** init's event loop, one iteration further. */
  lemma LoadEventsStep(s: GraphState, rows: seq<Event>, i: nat)
    requires Wf(s) && i < |rows|
    ensures LoadEvents(s, rows[..i + 1]) == LoadEvent(LoadEvents(s, rows[..i]), rows[i])
  {
    assert rows[..i + 1][..i] == rows[..i];
  }

  /** init's comment loop, one iteration further. */
  lemma LoadCommentsStep(s: GraphState, rows: seq<Comment>, i: nat)
    requires Wf(s) && i < |rows|
    ensures LoadComments(s, rows[..i + 1]) == LoadComment(LoadComments(s, rows[..i]), rows[i])
  {
    assert rows[..i + 1][..i] == rows[..i];
  }

  /** init's reaction loop, one iteration further. */
  lemma LoadReactionsStep(s: GraphState, rows: seq<Reaction>, i: nat, resolve: Resolver)
    requires Wf(s) && i < |rows|
    ensures LoadReactions(s, rows[..i + 1], resolve) == LoadLike(LoadReactions(s, rows[..i], resolve), rows[i], resolve)
  {
    assert rows[..i + 1][..i] == rows[..i];
  }

  /** init keeps the invariant, so the manager is consistent once it has loaded the store. */
  lemma InitConsistent(s: GraphState, users: seq<User>, relations: seq<Relation>, events: seq<Event>,
                       comments: seq<Comment>, reactions: seq<Reaction>, resolve: Resolver)
    requires Consistent(s)
    ensures Consistent(Init(s, users, relations, events, comments, reactions, resolve))
  {
    var s1 := LoadUsers(s, users);
    LoadUsersConsistent(s, users);
    var s2 := LoadRelations(s1, relations);
    LoadRelationsConsistent(s1, relations);
    var s3 := LoadEvents(s2, events);
    LoadEventsConsistent(s2, events);
    var s4 := LoadComments(s3, comments);
    LoadCommentsConsistent(s3, comments);
    LoadReactionsConsistent(s4, reactions, resolve);
  }

  /** The ids of non-empty user rows: those of all but the last row, and the last row's. */
  lemma UserIdsSnoc(us: seq<User>)
    requires us != []
    ensures (set u | u in us :: u.id) == (set u | u in us[..|us| - 1] :: u.id) + {us[|us| - 1].id}
  {
    assert us == us[..|us| - 1] + [us[|us| - 1]];
  }

  /** The ids of non-empty relation rows: those of all but the last row, and the last row's. */
  lemma RelationIdsSnoc(rs: seq<Relation>)
    requires rs != []
    ensures (set x | x in rs :: x.id) == (set x | x in rs[..|rs| - 1] :: x.id) + {rs[|rs| - 1].id}
  {
    assert rs == rs[..|rs| - 1] + [rs[|rs| - 1]];
  }

  /** The ids of non-empty event rows: those of all but the last row, and the last row's. */
  lemma EventIdsSnoc(es: seq<Event>)
    requires es != []
    ensures (set e | e in es :: e.id) == (set e | e in es[..|es| - 1] :: e.id) + {es[|es| - 1].id}
  {
    assert es == es[..|es| - 1] + [es[|es| - 1]];
  }

  /** The ids of non-empty comment rows: those of all but the last row, and the last row's. */
  lemma CommentIdsSnoc(cs: seq<Comment>)
    requires cs != []
    ensures (set c | c in cs :: c.id) == (set c | c in cs[..|cs| - 1] :: c.id) + {cs[|cs| - 1].id}
  {
    assert cs == cs[..|cs| - 1] + [cs[|cs| - 1]];
  }

  /** The ids of the value-1 rows among non-empty reaction rows: those among all but the last row, and the last row's if it has value 1. */
  lemma ValuedIdsSnoc(xs: seq<Reaction>)
    requires xs != []
    ensures (set x | x in xs && x.value == 1 :: x.id)
            == (set x | x in xs[..|xs| - 1] && x.value == 1 :: x.id) + (if xs[|xs| - 1].value == 1 then {xs[|xs| - 1].id} else {})
    ensures forall x | x in xs :: x in xs[..|xs| - 1] || x == xs[|xs| - 1]
  {
    assert xs == xs[..|xs| - 1] + [xs[|xs| - 1]];
  }

  /** One step of the event loop indexes the event's id in events and in posts, and no other id. */
  lemma LoadEventKeys(s: GraphState, e: Event)
    requires Wf(s)
    ensures LoadEvent(s, e).events.Keys == s.events.Keys + {e.id}
    ensures LoadEvent(s, e).posts.Keys == s.posts.Keys + {e.id}
  {
  }

  /** One step of the reaction loop adds at most the reaction's own id, only for value 1, and always for a like of an event. */
  lemma LoadLikeKeys(s: GraphState, x: Reaction, resolve: Resolver)
    requires Wf(s)
    ensures var r := LoadLike(s, x, resolve);
      && s.likes.Keys <= r.likes.Keys <= s.likes.Keys + (if x.value == 1 then {x.id} else {})
      && (x.value == 1 && x.kind == 0 ==> x.id in r.likes)
  {
  }

  /** The user loop indexes exactly the ids of the rows it is given, on top of those already indexed. */
  lemma {:induction false} LoadUsersKeys(s: GraphState, us: seq<User>)
    requires Wf(s)
    ensures LoadUsers(s, us).users.Keys == s.users.Keys + (set u | u in us :: u.id)
    decreases |us|
  {
    if us != [] {
      var init := us[..|us| - 1];
      LoadUsersKeys(s, init);
      UserIdsSnoc(us);
    }
  }

  /** The relation loop indexes exactly the ids of the rows it is given, on top of those already indexed. */
  lemma {:induction false} LoadRelationsKeys(s: GraphState, rs: seq<Relation>)
    requires Wf(s)
    ensures LoadRelations(s, rs).relations.Keys == s.relations.Keys + (set x | x in rs :: x.id)
    decreases |rs|
  {
    if rs != [] {
      var init := rs[..|rs| - 1];
      LoadRelationsKeys(s, init);
      RelationIdsSnoc(rs);
    }
  }

  /** The event loop indexes exactly the ids of the rows it is given in events, on top of those already indexed. */
  lemma {:induction false} LoadEventsKeys(s: GraphState, es: seq<Event>)
    requires Wf(s)
    ensures LoadEvents(s, es).events.Keys == s.events.Keys + (set e | e in es :: e.id)
    decreases |es|
  {
    if es != [] {
      var init := es[..|es| - 1];
      LoadEventsKeys(s, init);
      EventIdsSnoc(es);
      LoadEventKeys(LoadEvents(s, init), es[|es| - 1]);
    }
  }

  /** The event loop indexes exactly the ids of the rows it is given in posts, on top of those already indexed. */
  lemma {:induction false} LoadEventsPostKeys(s: GraphState, es: seq<Event>)
    requires Wf(s)
    ensures LoadEvents(s, es).posts.Keys == s.posts.Keys + (set e | e in es :: e.id)
    decreases |es|
  {
    if es != [] {
      var init := es[..|es| - 1];
      LoadEventsPostKeys(s, init);
      EventIdsSnoc(es);
      LoadEventKeys(LoadEvents(s, init), es[|es| - 1]);
    }
  }

  /** The comment loop indexes exactly the ids of the rows it is given, on top of those already indexed. */
  lemma {:induction false} LoadCommentsKeys(s: GraphState, cs: seq<Comment>)
    requires Wf(s)
    ensures LoadComments(s, cs).comments.Keys == s.comments.Keys + (set c | c in cs :: c.id)
    decreases |cs|
  {
    if cs != [] {
      var init := cs[..|cs| - 1];
      LoadCommentsKeys(s, init);
      CommentIdsSnoc(cs);
    }
  }

  /**
   * The reaction loop only adds likes, only under the ids of rows of value 1,
   * and always indexes a like of an event.
   */
  lemma {:induction false} LoadReactionsKeys(s: GraphState, xs: seq<Reaction>, resolve: Resolver)
    requires Wf(s)
    ensures var r := LoadReactions(s, xs, resolve);
      && s.likes.Keys <= r.likes.Keys <= s.likes.Keys + (set x | x in xs && x.value == 1 :: x.id)
      && (forall x | x in xs && x.value == 1 && x.kind == 0 :: x.id in r.likes)
    decreases |xs|
  {
    if xs != [] {
      var init := xs[..|xs| - 1];
      var last := xs[|xs| - 1];
      LoadReactionsKeys(s, init, resolve);
      ValuedIdsSnoc(xs);
      LoadLikeKeys(LoadReactions(s, init, resolve), last, resolve);
    }
  }

  /**
   * init indexes exactly the users, relations, events (and their posts) and
   * comments it loads, and likes only under ids of reactions of value 1,
   * every like of an event among them.
   */
  lemma InitKeys(s: GraphState, users: seq<User>, relations: seq<Relation>, events: seq<Event>,
                 comments: seq<Comment>, reactions: seq<Reaction>, resolve: Resolver)
    requires Wf(s)
    ensures var r := Init(s, users, relations, events, comments, reactions, resolve);
      && r.users.Keys == s.users.Keys + (set u | u in users :: u.id)
      && r.relations.Keys == s.relations.Keys + (set x | x in relations :: x.id)
      && r.events.Keys == s.events.Keys + (set e | e in events :: e.id)
      && r.posts.Keys == s.posts.Keys + (set e | e in events :: e.id)
      && r.comments.Keys == s.comments.Keys + (set c | c in comments :: c.id)
      && s.likes.Keys <= r.likes.Keys <= s.likes.Keys + (set x | x in reactions && x.value == 1 :: x.id)
      && (forall x | x in reactions && x.value == 1 && x.kind == 0 :: x.id in r.likes)
  {
    var s1 := LoadUsers(s, users);
    LoadUsersKeys(s, users);
    var s2 := LoadRelations(s1, relations);
    LoadRelationsKeys(s1, relations);
    var s3 := LoadEvents(s2, events);
    LoadEventsKeys(s2, events);
    LoadEventsPostKeys(s2, events);
    var s4 := LoadComments(s3, comments);
    LoadCommentsKeys(s3, comments);
    LoadReactionsKeys(s4, reactions, resolve);
  }
}
