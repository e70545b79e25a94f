/**
 * Graph units (lib/unit/unit.js, node.js, edge.js): the typed, property-bearing record shared by
 * nodes and edges, a node with its three edge lists, and an edge with its
 * endpoints, weight and link state. Nodes and edges live in an arena (see
 * GraphLib) and refer to each other by index.
 */
module Units {
  import opened Wrappers
  import opened Rows

  type NodeId = nat
  type EdgeId = nat

  /** The entity names the graph manager passes to createNode / createEdge. */
  datatype Entity =
    | RootEntity      // 'root': the root node and the root -> user/event edges
    | UserEntity      // 'user'
    | EventEntity     // 'event'
    | RelationEntity  // 'relation': a follow edge
    | PostEntity      // 'post'
    | LikeEntity      // 'like'
    | CommentEntity   // 'comment'

  /** The properties a unit is created with: the mirrored row, if any. */
  datatype Props =
    | NoProps
    | RootProps(name: string)
    | UserProps(user: User)
    | EventProps(event: Event)
    | RelationProps(relation: Relation)
    | ReactionProps(reaction: Reaction)
    | CommentProps(comment: Comment)

  /** The id of the mirrored row, for the properties that carry one. */
  function RowId(p: Props): Option<int>
  {
    match p
    case UserProps(u) => Some(u.id)
    case EventProps(e) => Some(e.id)
    case RelationProps(r) => Some(r.id)
    case ReactionProps(r) => Some(r.id)
    case CommentProps(c) => Some(c.id)
    case _ => None
  }

  datatype Unit = Unit(entity: Entity, properties: Props, uniqid: nat)

  /** A node: its unit, and the incident, inbound and outbound edges in registration order. */
  datatype Node = Node(unit: Unit, edges: seq<EdgeId>, inputEdges: seq<EdgeId>, outputEdges: seq<EdgeId>)

  /** An edge: endpoints are optional because `link` may be handed an absent node. */
  datatype Edge = Edge(unit: Unit, source: Option<NodeId>, target: Option<NodeId>, distance: int, linked: bool)

  /** The Node constructor: the unit fields are passed through and the three lists start empty. */
  function NewNode(entity: Entity, properties: Props, uniqid: nat): (n: Node)
    ensures n.unit.entity == entity && n.unit.properties == properties && n.unit.uniqid == uniqid
    ensures forall e :: e !in n.edges && e !in n.inputEdges && e !in n.outputEdges
  {
    Node(Unit(entity, properties, uniqid), [], [], [])
  }

  /** `s` with every occurrence of `x` taken out, the rest in order. */
  function Remove(s: seq<EdgeId>, x: EdgeId): (r: seq<EdgeId>)
    ensures forall y :: y in r <==> y in s && y != x
    ensures x !in s ==> r == s
    ensures |r| <= |s|
  {
    if s == [] then []
    else if s[0] == x then Remove(s[1..], x)
    else [s[0]] + Remove(s[1..], x)
  }

  /** Removing `x` from a list it was appended to (and was not in before) gives the list back. */
  lemma {:induction false} RemoveAppended(s: seq<EdgeId>, x: EdgeId)
    requires x !in s
    ensures Remove(s + [x], x) == s
  {
    if s == [] {
      assert [x][1..] == [];
    } else {
      assert (s + [x])[1..] == s[1..] + [x];
      RemoveAppended(s[1..], x);
    }
  }

  /** Node `self` after edge `e` is registered on it by link(s, t). */
  function Attach(n: Node, self: NodeId, e: EdgeId, s: Option<NodeId>, t: Option<NodeId>): Node
  {
    n.(edges := if s == Some(self) || t == Some(self) then n.edges + [e] else n.edges,
       inputEdges := if t == Some(self) then n.inputEdges + [e] else n.inputEdges,
       outputEdges := if s == Some(self) then n.outputEdges + [e] else n.outputEdges)
  }

  /** A node after edge `e` has withdrawn its registrations from it. */
  function Detach(n: Node, e: EdgeId): Node
  {
    n.(edges := Remove(n.edges, e), inputEdges := Remove(n.inputEdges, e), outputEdges := Remove(n.outputEdges, e))
  }
}
