# Social proximity graph manager

This project models the in-memory proximity graph behind the event platform's
recommendations, together with the two request handlers that write to it.

**The graph.** `GraphManager` keeps one graph whose nodes are the root, users
and events. Its edges are weighted and directed. Six id-keyed indices map
relational ids to graph elements:

- `users` and `events` map ids to nodes;
- `posts`, `relations`, `likes` and `comments` map ids to edges.

Edge weights come from the fixed `Distants` table:

| edge | weight |
|---|---|
| root | 100 |
| follow | 1 |
| post | 2 |
| like | 4 |
| comment | 4 |
| like of a comment | 6 |

**The operations.** The manager is populated in a fixed order: users, then
relations, events, comments and reactions. After that it is kept up to date by
`addUser`, `followUser`, `unfollowUser`, `addEvent`, `addLike`, `updateLike`,
`addComment` and `deleteComment`. Each of these does one of three things:

- rejects a null input or a duplicate id;
- creates and links an edge of the right weight;
- unlinks an edge and de-indexes it.

`findEvents` picks an entry node (the user, or the root for an unknown user)
and asks the graph for the closest event nodes that match a case-insensitive
key and a date bound.

**The route handlers.** Two handlers write to the graph:

- the reaction route toggles a user's stored reaction and hands it to
  `updateLike` or `addLike`;
- the follow route toggles a follow relation and hands it to `unfollowUser` or
  `followUser`.

**How the model is built.**

- Units and edges live in an arena (`GraphLib.Arena`) and are named by their
  index. Each edge has optional endpoints, a weight and a linked flag. Each
  node keeps its `edges`, `inputEdges` and `outputEdges` lists.
- `GraphLib.Graph` is the mutable graph. Its methods are proved against pure
  functions on the arena.
- `ManagerSpec` gives each manager operation as a function on the whole manager
  state. `ManagerInvariant` proves that every operation preserves `Consistent`,
  which says:
  - the arena's lists match its edges;
  - every indexed user or event id names a node of that kind;
  - every linked edge carries the weight the `Distants` table gives its kind,
    and joins nodes of the kinds its kind joins;
  - every indexed post, relation, like or comment id names a linked edge of
    that kind. For relations, likes and comments the edge also carries the
    row with that id. For posts the invariant does not say which row the
    edge carries.
- `ManagerInit` proves that the population loops keep the manager consistent
  and states which ids each loop indexes. `ReactionRoute.CoherentAtStart` and
  `RelationRoute.CoherentAtStart` build on it: the like and relation indices
  built from the store's rows agree with the reaction and relation tables the
  two handlers work on.
- `Manager.GraphManager` is the class with the six index fields. Each of its
  methods is proved to take the state to exactly what the specification
  function gives. The public operations (`Init`, `AddUser`, `FollowUser`,
  `UnfollowUser`, `AddEvent`, `AddLike`, `UpdateLike`, `AddComment`,
  `DeleteComment`, `FindEvents`) need and keep `Valid()`. The step helpers
  (`LoadOne*`, `LoadAll*`, `CreateLinked`, `IndexEventWithPost`, `FollowOne`,
  `RelationEdge`, `Move`) need only the index ranges, `ManagerSpec.Wf`, and
  keep them.
- `ReactionRoute` and `RelationRoute` model the two handlers over a table of
  rows and prove the end-to-end properties.

**Behaviour of the code that the model keeps.**

- `addEvent` creates no root edge. Only the `init` loop does.
- Endpoint lookups such as `this.users[event.user_id]` may be absent. The
  model then links the edge with that endpoint missing (see "Left out").
- The reaction route answers 500, after its writes, for any reaction type other
  than 0. For those types the related model is `{}`, and `{}` has no `findOne`.

## Model

| member | source | states |
|---|---|---|
| Units.NewNode | src/middleware/graph/lib/unit/node.js:5-12 | A new node carries the entity, properties and id it was given, and has no edge in any of its three lists |
| GraphLib.AddNode | src/middleware/graph/index.js:42 | createNode appends exactly one node, a fresh one with the next id, and changes no other node or edge |
| GraphLib.AddEdge | src/middleware/graph/index.js:43 | createEdge appends one unlinked edge with the next id, no endpoints and weight 0, and changes nothing else |
| GraphLib.LinkEdge | src/middleware/graph/index.js:44 | link sets the edge's endpoints and marks it linked, keeps its unit and weight, and leaves every other edge and every unit as it was |
| GraphLib.SetEdgeDistance | src/middleware/graph/index.js:45 | setDistance changes only the weight of that one edge |
| GraphLib.UnlinkEdge | src/middleware/graph/index.js:124 | unlink clears the edge's endpoints and linked flag and touches no other edge. Node lists only lose entries. Unlinking an edge that is already unlinked leaves the nodes unchanged |
| GraphLib.AddNodeValid | src/middleware/graph/index.js:25 | Adding a node keeps the arena valid: its node lists match its edges |
| GraphLib.AddEdgeValid | src/middleware/graph/index.js:43 | Adding an edge keeps the arena valid |
| GraphLib.LinkEdgeValid | src/middleware/graph/index.js:44 | Linking an unlinked edge keeps the arena valid |
| GraphLib.LinkEdgeLists | src/middleware/graph/index.js:44 | Linking keeps every list entry pointing at an existing edge |
| GraphLib.AttachRegisters | src/middleware/graph/index.js:44 | After link, an edge is in a node's output, input or edge list exactly when that node is its source, its target, or either |
| GraphLib.SetEdgeDistanceValid | src/middleware/graph/index.js:45 | Setting a weight keeps the arena valid |
| GraphLib.UnlinkEdgeValid | src/middleware/graph/index.js:141 | Unlinking keeps the arena valid |
| GraphLib.UnlinkIdempotent | src/middleware/graph/index.js:124 | Unlinking twice is the same as unlinking once, which is why followUser may unlink a fresh edge |
| GraphLib.UnlinkUndoesLink | src/middleware/graph/index.js:141 | Unlinking a just-linked edge gives back the arena from before the link |
| GraphLib.SetDistanceCommutes | src/middleware/graph/index.js:125-126 | Setting the weight commutes with link and with unlink |
| GraphLib.UnlinkAll | src/middleware/graph/lib/unit/node.js:18-20 | Unlinking a list of edges one after the other keeps every unit and the number of edges |
| GraphLib.UnlinkAllValid | src/middleware/graph/lib/unit/node.js:18-20 | The unlink loop keeps the arena valid |
| GraphLib.UnlinkAllEdges | src/middleware/graph/lib/unit/node.js:18-20 | After the loop, every listed edge is unlinked and every other edge is unchanged |
| GraphLib.UnlinkAllShrinks | src/middleware/graph/lib/unit/node.js:18-20 | The loop only removes entries from node lists |
| GraphLib.NodeUnlinkCascade | src/middleware/graph/lib/unit/node.js:14-24 | Unlinking a node's edges, as listed on entry, leaves the arena valid, every listed edge unlinked, every other edge untouched, and all three of the node's lists empty |
| GraphLib.Graph.constructor | src/middleware/graph/index.js:24 | A new graph has no nodes and no edges |
| GraphLib.Graph.CreateNode | src/middleware/graph/index.js:25 | Returns the new node's id and leaves the graph as AddNode gives it |
| GraphLib.Graph.CreateEdge | src/middleware/graph/index.js:43 | Returns the new edge's id and leaves the graph as AddEdge gives it |
| GraphLib.Graph.Link | src/middleware/graph/index.js:44 | Returns the same edge, so calls can be chained, and leaves the graph as LinkEdge gives it |
| GraphLib.Graph.SetDistance | src/middleware/graph/index.js:45 | Leaves the graph as SetEdgeDistance gives it |
| GraphLib.Graph.Unlink | src/middleware/graph/index.js:141 | Leaves the graph as UnlinkEdge gives it |
| GraphLib.Graph.UnlinkNode | src/middleware/graph/lib/unit/node.js:14-24 | The loop bound is the list length on entry. The method returns true and leaves the graph as UnlinkAll over the list from entry gives it |
| GraphLib.Graph.Closest | src/middleware/graph/index.js:90-97 | Returns at most `count` paths. Each starts at the entry, has at least `minDepth` steps, and ends at a node that satisfies `compare` |
| ManagerSpec.Initial | src/middleware/graph/index.js:23-32 | The manager starts consistent, with one root node named "Root Node", no edges and six empty indices |
| ManagerSpec.Connect | src/middleware/graph/index.js:43-45 | A created, linked and weighted edge is appended with the given kind, endpoints and weight, and no unit changes |
| ManagerSpec.IndexUserNode | src/middleware/graph/index.js:42 | Indexes the user's id to a fresh user node and changes no other index |
| ManagerSpec.IndexEventNode | src/middleware/graph/index.js:54 | Indexes the event's id to a fresh event node and changes no other index |
| ManagerSpec.LinkFromRoot | src/middleware/graph/index.js:55-57 | Appends a linked root edge of weight 100 from the root to the node and changes no index |
| ManagerSpec.LinkPost | src/middleware/graph/index.js:58-60 | Indexes the event's id in posts to a linked post edge of weight 2 from the author to the event |
| ManagerSpec.LoadUser | src/middleware/graph/index.js:41-46 | One step of the user loop: a new user node is indexed, and a root edge of weight 100 runs to it |
| ManagerSpec.AddUser | src/middleware/graph/index.js:103-113 | A null user or a known id changes nothing. A fresh id does exactly what one step of the loading loop does. Either way the id is indexed afterwards |
| ManagerSpec.LoadRelation | src/middleware/graph/index.js:47-51 | Indexes a new linked follow edge of weight 1 from users[user_id] to users[follower_id]. Either endpoint may be missing |
| ManagerSpec.Relink | src/middleware/graph/index.js:124-126 | Unlink, link and setDistance on one edge give it the new endpoints and weight and mark it linked. Nothing else changes |
| ManagerSpec.FollowUser | src/middleware/graph/index.js:115-128 | A null relation changes nothing. Otherwise relations[id] is one linked edge from users[user_id] to users[follower_id] with weight 1. That edge is the existing one, or one new edge when the id is not indexed. No other edge or index changes |
| ManagerSpec.UnfollowUser | src/middleware/graph/index.js:130-144 | A null relation or an id that is not indexed changes nothing. Otherwise the indexed edge is unlinked and the id is removed from relations, and nothing else changes |
| ManagerSpec.LoadEvent | src/middleware/graph/index.js:53-61 | One step of the event loop: a new event node, a root edge of weight 100 to it, and a post edge of weight 2 from its author, indexed in events and posts under the event's id |
| ManagerSpec.PostEvent | src/middleware/graph/index.js:151-154 | A new event node and a post edge of weight 2, indexed under the event's id. No root edge is added |
| ManagerSpec.AddEvent | src/middleware/graph/index.js:146-156 | A null event or a known id changes nothing. A fresh id does what PostEvent does, and the id is indexed afterwards |
| ManagerSpec.LoadComment | src/middleware/graph/index.js:63-67 | Indexes a new linked comment edge of weight 4 from the author to the commented event |
| ManagerSpec.AddComment | src/middleware/graph/index.js:212-221 | A null comment or a known id changes nothing. A fresh id is loaded as in init and is indexed afterwards |
| ManagerSpec.DeleteComment | src/middleware/graph/index.js:223-231 | A null comment or an id that is not indexed changes nothing. Otherwise the comment's edge is unlinked and the id is removed from comments |
| ManagerSpec.LikeTarget | src/middleware/graph/index.js:163-175 | A like gets an edge only when its value is 1. For type 0 the edge goes to events[relation_id] with weight 4. For type 1 it needs an indexed comment whose event is indexed, and then has weight 6 |
| ManagerSpec.LoadLike | src/middleware/graph/index.js:68-83 | A reaction with no like target changes nothing. Otherwise its id is indexed in likes to a new linked like edge from the user to that target, with that weight |
| ManagerSpec.AddLike | src/middleware/graph/index.js:158-178 | A null reaction or a known id changes nothing. Otherwise the reaction is loaded as in init |
| ManagerSpec.UpdateLike | src/middleware/graph/index.js:180-210 | With value 1 it is addLike, so a known id is a no-op. With any other value, an indexed like is unlinked and de-indexed, and a like that is not indexed is left alone |
| ManagerSpec.LoadUsers | src/middleware/graph/index.js:41-46 | The user loop adds one node and one edge per row and changes only users. LoadUsersKeys states which ids it adds |
| ManagerSpec.LoadRelations | src/middleware/graph/index.js:47-51 | The relation loop adds one edge per row and changes only relations. LoadRelationsKeys states which ids it adds |
| ManagerSpec.LoadEvents | src/middleware/graph/index.js:53-61 | The event loop adds one node and two edges per row and changes only events and posts. LoadEventsKeys and LoadEventsPostKeys state which ids it adds |
| ManagerSpec.LoadComments | src/middleware/graph/index.js:63-67 | The comment loop adds one edge per row and changes only comments. LoadCommentsKeys states which ids it adds |
| ManagerSpec.LoadReactions | src/middleware/graph/index.js:68-83 | The reaction loop adds at most one edge per row and changes only likes. LoadReactionsKeys bounds which ids it adds |
| ManagerSpec.Init | src/middleware/graph/index.js:41-83 | The five loops, in order, keep the root and add one node per user and per event. InitKeys states the indices' key sets |
| ManagerSpec.Weight | src/middleware/graph/index.js:12-19 | User and event nodes weigh nothing. Every edge kind weighs between Follow (1) and Root (100). Only a root edge weighs 100 and only a follow weighs 1. A like weighs LikeComment (6) exactly when it likes a comment |
| ManagerSpec.LoweredKey | src/middleware/graph/index.js:89 | An absent key becomes the empty key. A given key keeps its length and loses its capital letters |
| ManagerSpec.EventMatch | src/middleware/graph/index.js:91-94 | Only event nodes created before the start date, when one is given, match. With an empty key and no date, every event matches |
| ManagerSpec.Entry | src/middleware/graph/index.js:87 | The search starts at users[user_id] when that id is indexed, and at the root otherwise |
| ManagerSpec.EventMatchMeans | src/middleware/graph/index.js:89-94 | A node matches exactly when it is an event and passes two tests. The key test holds when the key is absent or empty, or the lowered title or description contains the lowered key. The date test holds when no date is given, or the event's creation time is before it |
| ManagerSpec.TitleContainingKeyMatches | src/middleware/graph/index.js:92 | An event whose title contains the key, in any case, matches that key |
| ManagerInvariant.ConnectValid | src/middleware/graph/index.js:43-45 | Creating, linking and weighting an edge keeps the arena valid |
| ManagerInvariant.RelinkValid | src/middleware/graph/index.js:124-126 | Relinking an edge keeps the arena valid |
| ManagerInvariant.IndexUserNodeConsistent | src/middleware/graph/index.js:42 | Indexing a fresh user node keeps the manager consistent |
| ManagerInvariant.IndexEventNodeConsistent | src/middleware/graph/index.js:54 | Indexing a fresh event node keeps the manager consistent |
| ManagerInvariant.LinkFromRootConsistent | src/middleware/graph/index.js:55-57 | A root edge to an indexed node keeps the manager consistent |
| ManagerInvariant.LinkPostConsistent | src/middleware/graph/index.js:58-60 | A post edge keeps the manager consistent |
| ManagerInvariant.LoadUserConsistent | src/middleware/graph/index.js:41-46 | One step of the user loop keeps the manager consistent |
| ManagerInvariant.AddUserConsistent | src/middleware/graph/index.js:103-113 | addUser keeps the manager consistent |
| ManagerInvariant.LoadRelationConsistent | src/middleware/graph/index.js:47-51 | One step of the relation loop keeps the manager consistent |
| ManagerInvariant.FollowUserValid | src/middleware/graph/index.js:121-126 | followUser keeps the arena valid |
| ManagerInvariant.FollowKnownConsistent | src/middleware/graph/index.js:124-126 | Relinking a relation that is already indexed keeps the manager consistent |
| ManagerInvariant.FollowFresh | src/middleware/graph/index.js:121-123 | For an id that is not indexed, followUser does exactly what one step of the init relation loop does: unlinking the fresh edge is a no-op |
| ManagerInvariant.FollowFreshConsistent | src/middleware/graph/index.js:121-126 | followUser with a new relation id keeps the manager consistent |
| ManagerInvariant.FollowUserConsistent | src/middleware/graph/index.js:115-128 | followUser keeps the manager consistent |
| ManagerInvariant.UnfollowUserConsistent | src/middleware/graph/index.js:130-144 | unfollowUser keeps the manager consistent: the unlinked edge is no longer indexed |
| ManagerInvariant.LoadEventConsistent | src/middleware/graph/index.js:53-61 | One step of the event loop keeps the manager consistent |
| ManagerInvariant.PostEventConsistent | src/middleware/graph/index.js:151-154 | Adding an event without a root edge keeps the manager consistent |
| ManagerInvariant.AddEventConsistent | src/middleware/graph/index.js:146-156 | addEvent keeps the manager consistent |
| ManagerInvariant.LoadCommentConsistent | src/middleware/graph/index.js:63-67 | One step of the comment loop keeps the manager consistent |
| ManagerInvariant.AddCommentConsistent | src/middleware/graph/index.js:212-221 | addComment keeps the manager consistent |
| ManagerInvariant.DeleteCommentConsistent | src/middleware/graph/index.js:223-231 | deleteComment keeps the manager consistent |
| ManagerInvariant.LikeTargetKind | src/middleware/graph/index.js:163-175 | A like target, when one exists, is an event node |
| ManagerInvariant.LoadLikeValid | src/middleware/graph/index.js:68-83 | One step of the reaction loop keeps the arena valid |
| ManagerInvariant.LoadLikeTyped | src/middleware/graph/index.js:68-83 | One step of the reaction loop keeps every edge running between nodes of the right kinds |
| ManagerInvariant.LoadLikeConsistent | src/middleware/graph/index.js:68-83 | One step of the reaction loop keeps the manager consistent |
| ManagerInvariant.AddLikeConsistent | src/middleware/graph/index.js:158-178 | addLike keeps the manager consistent |
| ManagerInvariant.UpdateLikeConsistent | src/middleware/graph/index.js:180-210 | updateLike keeps the manager consistent |
| ManagerInit.LoadUsersConsistent | src/middleware/graph/index.js:41-46 | The whole user loop keeps the manager consistent |
| ManagerInit.LoadRelationsConsistent | src/middleware/graph/index.js:47-51 | The whole relation loop keeps the manager consistent |
| ManagerInit.LoadEventsConsistent | src/middleware/graph/index.js:53-61 | The whole event loop keeps the manager consistent |
| ManagerInit.LoadCommentsConsistent | src/middleware/graph/index.js:63-67 | The whole comment loop keeps the manager consistent |
| ManagerInit.LoadReactionsConsistent | src/middleware/graph/index.js:68-83 | The whole reaction loop keeps the manager consistent |
| ManagerInit.LoadUsersKeys | src/middleware/graph/index.js:41-46 | The user loop adds exactly the ids of its rows to users |
| ManagerInit.LoadRelationsKeys | src/middleware/graph/index.js:47-51 | The relation loop adds exactly the ids of its rows to relations |
| ManagerInit.LoadEventKeys | src/middleware/graph/index.js:53-61 | One step of the event loop adds exactly the event's id to events and to posts |
| ManagerInit.LoadEventsKeys | src/middleware/graph/index.js:53-61 | The event loop adds exactly the ids of its rows to events |
| ManagerInit.LoadEventsPostKeys | src/middleware/graph/index.js:53-61 | The event loop adds exactly the ids of its rows to posts |
| ManagerInit.LoadCommentsKeys | src/middleware/graph/index.js:63-67 | The comment loop adds exactly the ids of its rows to comments |
| ManagerInit.LoadLikeKeys | src/middleware/graph/index.js:68-83 | One step of the reaction loop adds at most the row's id to likes, and only when its value is 1. A liked event always gets it |
| ManagerInit.LoadReactionsKeys | src/middleware/graph/index.js:68-83 | The reaction loop adds to likes only ids of rows with value 1, and adds every such row that likes an event |
| ManagerInit.InitKeys | src/middleware/graph/index.js:41-83 | After the five loops, users, relations, events, posts and comments hold exactly the ids already there and those of the given rows. likes holds the ids already there, only ids of rows with value 1, and every such row that likes an event |
| ManagerInit.InitConsistent | src/middleware/graph/index.js:41-83 | Populating from any rows, in the order users, relations, events, comments, reactions, keeps the manager consistent |
| ManagerLaws.RelinkIdempotent | src/middleware/graph/index.js:124-126 | Relinking an edge to the same endpoints and weight twice is the same as doing it once |
| ManagerLaws.FollowKnown | src/middleware/graph/index.js:121-126 | followUser on an indexed relation creates no edge and only relinks the indexed one |
| ManagerLaws.FollowIdempotent | src/middleware/graph/index.js:115-128 | Calling followUser twice with the same relation is the same as calling it once |
| ManagerLaws.ConnectThenUnlink | src/middleware/graph/index.js:141 | Unlinking an edge right after createEdge, link and setDistance is the same as creating it and setting its weight without ever linking it: every node is as it was |
| ManagerLaws.UnfollowAfterFollow | src/middleware/graph/index.js:115-144 | After followUser with a new id, unfollowUser removes the id again and leaves only an unlinked edge behind |
| ManagerLaws.DeleteAfterAddComment | src/middleware/graph/index.js:212-231 | After addComment with a new id, deleteComment removes the id again and leaves only an unlinked edge behind |
| ManagerLaws.UnlikeAfterLike | src/middleware/graph/index.js:158-210 | After addLike creates a like edge, updateLike with a value other than 1 removes the id again and leaves only an unlinked edge behind |
| Text.Lower | src/middleware/graph/index.js:89 | toLowerCase keeps the length, turns each capital A-Z into its small letter and keeps every other character |
| Text.LowerIdempotent | src/middleware/graph/index.js:89 | Lowering twice is lowering once, and a lowered string has no capital letter |
| Text.IndexFrom | src/middleware/graph/index.js:92 | The search from a position finds the first occurrence at or after it, or -1 when there is none |
| Text.IndexOf | src/middleware/graph/index.js:92 | indexOf(key) > -1 exactly when the key occurs, and the result is then the first occurrence |
| Text.LowerSlice | src/middleware/graph/index.js:92 | Lowering a slice is slicing the lowered string |
| Text.OccursLowered | src/middleware/graph/index.js:92 | A key that occurs in a string also occurs, at the same place, once both are lowered |
| Manager.GraphManager.constructor | src/middleware/graph/index.js:23-32 | A new manager is valid and in the initial state |
| Manager.GraphManager.CreateLinked | src/middleware/graph/index.js:43-45 | The chained createEdge, link and setDistance call leaves the graph as Connect gives it and returns the new edge |
| Manager.GraphManager.LoadOneUser | src/middleware/graph/index.js:42-45 | One step of the user loop takes the state to LoadUser |
| Manager.GraphManager.LoadOneRelation | src/middleware/graph/index.js:48-50 | One step of the relation loop takes the state to LoadRelation |
| Manager.GraphManager.IndexEventWithPost | src/middleware/graph/index.js:54-60 | One event step takes the state to LoadEvent (in init) or PostEvent (in addEvent) |
| Manager.GraphManager.LoadOneComment | src/middleware/graph/index.js:64-66 | One step of the comment loop takes the state to LoadComment |
| Manager.GraphManager.LoadOneLike | src/middleware/graph/index.js:69-82 | One step of the reaction loop takes the state to LoadLike |
| Manager.GraphManager.LoadAllUsers | src/middleware/graph/index.js:41-46 | The user loop takes the state to LoadUsers over the rows, in order |
| Manager.GraphManager.LoadAllRelations | src/middleware/graph/index.js:47-51 | The relation loop takes the state to LoadRelations over the rows, in order |
| Manager.GraphManager.LoadAllEvents | src/middleware/graph/index.js:53-61 | The event loop takes the state to LoadEvents over the rows, in order |
| Manager.GraphManager.LoadAllComments | src/middleware/graph/index.js:63-67 | The comment loop takes the state to LoadComments over the rows, in order |
| Manager.GraphManager.LoadAllReactions | src/middleware/graph/index.js:68-83 | The reaction loop takes the state to LoadReactions over the rows, in order |
| Manager.GraphManager.Init | src/middleware/graph/index.js:41-83 | init runs the five loops in order, reaches Init's state and stays valid |
| Manager.GraphManager.AddUser | src/middleware/graph/index.js:103-113 | Takes the state to AddUser's and stays valid |
| Manager.GraphManager.FollowUser | src/middleware/graph/index.js:115-128 | Takes the state to FollowUser's and stays valid |
| Manager.GraphManager.FollowOne | src/middleware/graph/index.js:121-126 | For a relation that is present, takes the state to FollowUser's |
| Manager.GraphManager.RelationEdge | src/middleware/graph/index.js:121-123 | Makes relations[id] an edge, the indexed one or a new one, and changes nothing else |
| Manager.GraphManager.Move | src/middleware/graph/index.js:124-126 | unlink, link and setDistance on one edge leave the graph as Relink gives it |
| Manager.GraphManager.UnfollowUser | src/middleware/graph/index.js:130-144 | Takes the state to UnfollowUser's and stays valid |
| Manager.GraphManager.AddEvent | src/middleware/graph/index.js:146-156 | Takes the state to AddEvent's and stays valid |
| Manager.GraphManager.AddLike | src/middleware/graph/index.js:158-178 | Takes the state to AddLike's and stays valid |
| Manager.GraphManager.UpdateLike | src/middleware/graph/index.js:180-210 | Takes the state to UpdateLike's and stays valid |
| Manager.GraphManager.AddComment | src/middleware/graph/index.js:212-221 | Takes the state to AddComment's and stays valid |
| Manager.GraphManager.DeleteComment | src/middleware/graph/index.js:223-231 | Takes the state to DeleteComment's and stays valid |
| Manager.GraphManager.FindEvents | src/middleware/graph/index.js:86-100 | Returns at most `limit` end nodes, 20 when no limit is given. Each is an event that matches the lowered key and the date bound, and each is reached by a walk of at least two edges from the entry node |
| ReactionRoute.Accepted | src/router/front/reaction.js:13-17 | A request missing relation_id, type or value fails the schema. An accepted request never asks for the value 0 |
| ReactionRoute.NewValue | src/router/front/reaction.js:31 | The new stored value is the requested value or 0 |
| ReactionRoute.NewValueToggles | src/router/front/reaction.js:31 | The value becomes 0 exactly when it equals the stored one, and becomes the requested value otherwise. Sending the same request twice gives back the requested value, or 0 |
| ReactionRoute.FindReaction | src/router/front/reaction.js:29 | findOne returns the first row matching (relation_id, type, user), or none exactly when no row matches |
| ReactionRoute.Handle | src/router/front/reaction.js:9-82 | A request that fails validation changes nothing and gets 403. An accepted request gets 200 or 500. A 200 echoes the request's type and relation_id |
| ReactionRoute.StoredValue | src/router/front/reaction.js:29-36 | After an accepted request, an existing reaction of the user on (relation_id, type) has its value toggled in place: 0 when the request repeats the stored value, the requested value otherwise. Every other row and the next id stay as they were. With no such reaction, a row with the requested value is appended under the next id, which advances. Either way the next findOne returns that row, and a 200 reply echoes its value |
| ReactionRoute.CoherentAtStart | src/middleware/graph/index.js:68-83 | Populating the manager from the store's rows, with unique reaction ids, leaves a reaction on an event indexed in likes exactly when its value is 1, and every indexed like is an id below the table's next id |
| ReactionRoute.FoundAgain | src/router/front/reaction.js:32 | Updating the found row keeps it the row the next findOne returns |
| ReactionRoute.FoundAppended | src/router/front/reaction.js:35 | A created row is the row the next findOne returns |
| ReactionRoute.UpdateLikeKeys | src/middleware/graph/index.js:180-210 | updateLike changes only the reaction's own id in likes. A reaction on an event is indexed afterwards exactly when its value is 1 |
| ReactionRoute.AddLikeKeys | src/middleware/graph/index.js:158-178 | addLike of a new id changes only that id in likes. A reaction on an event is indexed exactly when its value is 1 |
| ReactionRoute.LikeIndexedIffLiked | src/router/front/reaction.js:29-37 | After any accepted request on an event, a like edge is indexed for the user's reaction id exactly when its stored value is 1, and the table and the graph still agree on every reaction |
| ReactionRoute.UpdateCoherent | src/router/front/reaction.js:30-33 | Updating a row and passing it to updateLike keeps the table and the like index in agreement |
| ReactionRoute.AddCoherent | src/router/front/reaction.js:34-36 | Creating a row and passing it to addLike keeps the table and the like index in agreement |
| ReactionRoute.ReactionTable.Update | src/router/front/reaction.js:32 | Only the value of the row with that id changes |
| ReactionRoute.ReactionTable.Create | src/router/front/reaction.js:35 | Appends a row with the next id and the given fields, and returns it |
| ReactionRoute.PostReaction | src/router/front/reaction.js:9-82 | The handler leaves the table, the graph and the reply as Handle gives them, and keeps the graph valid |
| RelationRoute.FindRelation | src/router/front/relation.js:57-62 | findOne returns the first row for (user_id, follower_id), or none exactly when no row has that pair |
| RelationRoute.CoherentAtStart | src/middleware/graph/index.js:47-51 | Populating the manager from the store's rows, with a well-keyed relation table, makes the keys of the relation index exactly the table's ids |
| RelationRoute.RemoveId | src/router/front/relation.js:67 | destroy keeps exactly the rows whose id differs from the given one |
| RelationRoute.Handle | src/router/front/relation.js:57-72 | The notification flag is 1 exactly when `me` already followed the user, and 0 exactly when not |
| RelationRoute.DestroyRow | src/router/front/relation.js:67 | Destroying the pair's row: the pair no longer follows, exactly that id goes, and the table stays well keyed |
| RelationRoute.CreateRow | src/router/front/relation.js:70 | Creating the pair's row under the next id: the pair follows, exactly that id is added, and the table stays well keyed |
| RelationRoute.HandleToggles | src/router/front/relation.js:57-72 | A request flips whether `me` follows the user, and keeps the relation table's ids equal to the keys of the graph's relation index |
| RelationRoute.TwoRequestsRestore | src/router/front/relation.js:57-72 | Two requests for the same pair in a row restore whether `me` follows the user |
| RelationRoute.FollowEdgeIffFollows | src/router/front/relation.js:57-72 | After a request, `me` follows the user exactly when a row of the pair is indexed in relations. A newly created follow is a linked edge from the followed user to `me` with weight 1 |
| RelationRoute.RelationTable.Destroy | src/router/front/relation.js:67 | The table becomes RemoveId of the rows, and the next id is kept |
| RelationRoute.RelationTable.Create | src/router/front/relation.js:70 | Appends a row with the next id and the given pair, and returns it |
| RelationRoute.PostFollow | src/router/front/relation.js:52-85 | The handler leaves the table, the graph and the flag as Handle gives them, and keeps the graph valid |

## Left out

- `lib/graph.js`, `lib/unit/edge.js` and `lib/unit/unit.js` are not part of this model. `Edge.link`, `unlink` and `setDistance` are modelled only through what their call sites rely on: endpoints, the linked flag, the three node lists and the weight.
- GraphLib.Graph.Closest: the contract states only the bound on the number of results and that each result is admissible. The search order and tie-breaking of `closest` are not modelled: the body picks any sequence of results that meets the contract.
- The bulk reads in `init` are database I/O. The population loops take the rows as parameters, in the order the code uses.
- Dates handled through `moment` are integer timestamps. A start date of 0, which the code treats as "no date", is modelled as a given date.
- `limit = 20` applies when the argument is absent. An explicit `null` limit is not modelled.
- `toLowerCase` is modelled for ASCII letters only.
- `Node.unlink` iterates over the node's live `edges` array with a bound fixed on entry. `lib/unit/edge.js` is not part of this model, so whether `edge.unlink()` removes entries from that array is not known here. The model assumes it does not, and unlinks every edge of the list as it was on entry. If `edge.unlink()` did remove entries, the loop would skip edges and, for two or more edges, read past the end of the shrunken array.
- Linking an edge whose endpoint lookup is absent (an unknown `user_id` or `follower_id`, say) is assumed to leave that endpoint unset rather than throw. This behaviour belongs to `lib/unit/edge.js`, which is not part of this model.
- Logging and `console.log` are left out. The operator-precedence slip in the error messages only affects log text.
- The reaction route's reply lists of likes and dislikes are left out. The event lookup is reduced to whether the event row exists.
- The follow route's notification is reduced to its flag. The reply's follower and following lists are left out.
- Joi's coercion of numeric strings, non-integer numbers, and `parseInt` returning NaN are not modelled. Fields are integers or absent.
- Database errors, which make a handler answer 500 before or between its writes, are not modelled.
- Concurrency between the handlers' `await`s is not modelled. Calls are sequential.
- The resolution of a comment edge to the event it belongs to (`comment.relation_id` read off an edge) is a parameter of the manager, because it depends on `Edge` internals that are not part of this model.
- ManagerSpec.LoadReactions: which reactions on comments (type 1) get a like edge depends on the resolver parameter, so ManagerInit.LoadReactionsKeys only bounds likes from above for them. Per row, LoadLike states it exactly.
