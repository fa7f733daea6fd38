/** Values, rows and the property graph that the operators read (src/cypher/value.rs,
    src/graph/engine.rs), abstractly: nodes in id order, and per node an outgoing and an incoming
    list of live edges, newest first. */
module Graphs {
  import opened Frames
  import opened Plan

  datatype Value =
    | Null
    | Boolean(b: bool)
    | Integer(i: int)
    | Real(r: real)
    | Str(s: string)
    | ListV(items: seq<Value>)
    | MapV(entries: map<string, Value>)
    | NodeV(id: nat, labels: seq<string>, properties: map<string, Value>)
    | RelV(id: nat, relType: string, source: nat, target: nat, properties: map<string, Value>)

  type Row = map<string, Value>

  datatype NodeRec = NodeRec(nodeLabel: Option<string>, properties: map<string, Value>, deleted: bool)

  datatype Edge = Edge(id: nat, relType: Option<string>, source: nat, target: nat, properties: map<string, Value>)

  datatype Graph = Graph(
    /** Node ids, ascending. */
    ids: seq<nat>,
    nodes: map<nat, NodeRec>,
    outgoing: map<nat, seq<Edge>>,
    incoming: map<nat, seq<Edge>>,
    /** The next id to allocate, for nodes and edges alike. */
    nextId: nat)

  // ---------------------------------------------------------------- reading

  /** `load_node_value` */
  function LoadNode(g: Graph, id: nat): Option<Value> {
    if id in g.nodes && !g.nodes[id].deleted then
      var rec := g.nodes[id];
      Some(NodeV(id, if rec.nodeLabel.Some? then [rec.nodeLabel.value] else [], rec.properties))
    else None
  }

  /** `edge_record_to_value` */
  function EdgeValue(e: Edge): Value {
    RelV(e.id, if e.relType.Some? then e.relType.value else "TYPE_0", e.source, e.target, e.properties)
  }

  predicate TypeMatches(types: seq<string>, e: Edge) {
    types == [] || (e.relType.Some? && e.relType.value in types)
  }

  function OutEdges(g: Graph, n: nat): seq<Edge> {
    if n in g.nodes && n in g.outgoing then g.outgoing[n] else []
  }

  function InEdges(g: Graph, n: nat): seq<Edge> {
    if n in g.nodes && n in g.incoming then g.incoming[n] else []
  }

  /** `scan_outgoing_edges` / `scan_incoming_edges`: matching edges with the node at their far end. */
  function Scan(edges: seq<Edge>, types: seq<string>, outward: bool): (r: seq<(Edge, nat)>) {
    if edges == [] then []
    else
      var rest := Scan(edges[1..], types, outward);
      if TypeMatches(types, edges[0]) then [(edges[0], if outward then edges[0].target else edges[0].source)] + rest
      else rest
  }

  function Neighbours(g: Graph, n: nat, direction: Direction, types: seq<string>): seq<(Edge, nat)> {
    match direction
    case Outgoing => Scan(OutEdges(g, n), types, true)
    case Incoming => Scan(InEdges(g, n), types, false)
    case Both => Scan(OutEdges(g, n), types, true) + Scan(InEdges(g, n), types, false)
  }

  /** The ids a label scan's cursor holds: live nodes with that label, ascending. */
  function IdsWithLabel(g: Graph, ids: seq<nat>, l: string): seq<nat> {
    if ids == [] then []
    else
      var rest := IdsWithLabel(g, ids[1..], l);
      if ids[0] in g.nodes && !g.nodes[ids[0]].deleted && g.nodes[ids[0]].nodeLabel == Some(l) then [ids[0]] + rest
      else rest
  }

  // ---------------------------------------------------------------- well-formed graphs

  ghost predicate DistinctIds(edges: seq<Edge>) {
    forall i, j | 0 <= i < j < |edges| :: edges[i].id != edges[j].id
  }

  predicate HasOut(g: Graph, e: Edge) {
    e.source in g.outgoing && e in g.outgoing[e.source]
  }

  predicate HasIn(g: Graph, e: Edge) {
    e.target in g.incoming && e in g.incoming[e.target]
  }

  /** The outgoing and the incoming lists hold the same edges, each under its own id. */
  ghost predicate Mirrored(g: Graph) {
    && (forall e :: HasOut(g, e) <==> HasIn(g, e))
    && (forall e, f | HasOut(g, e) && HasOut(g, f) && e.id == f.id :: e == f)
  }

  /** Everything named in the graph has been allocated, no list holds an edge twice, and the lists
      agree. */
  ghost predicate WellFormed(g: Graph) {
    && Mirrored(g)
    && (forall i | 0 <= i < |g.ids| :: g.ids[i] in g.nodes)
    && (forall n | n in g.nodes :: n < g.nextId)
    && (forall n, i | n in g.outgoing && 0 <= i < |g.outgoing[n]| ::
          g.outgoing[n][i].target < g.nextId && g.outgoing[n][i].source == n && g.outgoing[n][i].id < g.nextId)
    && (forall n, i | n in g.incoming && 0 <= i < |g.incoming[n]| ::
          g.incoming[n][i].source < g.nextId && g.incoming[n][i].target == n && g.incoming[n][i].id < g.nextId)
    && (forall n | n in g.outgoing :: DistinctIds(g.outgoing[n]))
    && (forall n | n in g.incoming :: DistinctIds(g.incoming[n]))
  }

  lemma {:induction false} ScanFrom(edges: seq<Edge>, types: seq<string>, outward: bool)
    ensures forall x | x in Scan(edges, types, outward) ::
              x.0 in edges && TypeMatches(types, x.0) && x.1 == (if outward then x.0.target else x.0.source)
    ensures forall e | e in edges && TypeMatches(types, e) ::
              (e, if outward then e.target else e.source) in Scan(edges, types, outward)
  {
    if edges != [] {
      ScanFrom(edges[1..], types, outward);
      assert edges == [edges[0]] + edges[1..];
    }
  }

  ghost predicate EntriesDistinct(adj: seq<(Edge, nat)>) {
    forall i, j | 0 <= i < j < |adj| :: adj[i].0.id != adj[j].0.id
  }

  lemma {:induction false} ScanDistinct(edges: seq<Edge>, types: seq<string>, outward: bool)
    requires DistinctIds(edges)
    ensures EntriesDistinct(Scan(edges, types, outward))
  {
    if edges != [] {
      ScanDistinct(edges[1..], types, outward);
      ScanFrom(edges[1..], types, outward);
      assert forall x | x in Scan(edges[1..], types, outward) :: x.0 in edges[1..] && x.0.id != edges[0].id;
    }
  }

  /** Neighbours of a well-formed graph are allocated. */
  lemma NeighboursAllocated(g: Graph, n: nat, direction: Direction, types: seq<string>)
    requires WellFormed(g)
    ensures forall x | x in Neighbours(g, n, direction, types) :: x.1 < g.nextId && x.0.id < g.nextId
  {
    ScanFrom(OutEdges(g, n), types, true);
    ScanFrom(InEdges(g, n), types, false);
  }
}
