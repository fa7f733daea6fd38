/** `CreateOp::execute_create` (src/cypher/physical.rs:672-836) on the graph it writes to. */
module Creating {
  import opened Frames
  import opened Ast
  import opened Plan
  import opened Graphs
  import opened Trails
  import opened Streams
  import opened Physical

  /** The graph and the row after creating, up to the first error. */
  datatype Made = Made(g: Graph, row: Row, ok: bool)

  // ---------------------------------------------------------------- the graph's writers

  function AddNode(g: Graph, nodeLabel: Option<string>, properties: map<string, Value>): Graph {
    g.(ids := g.ids + [g.nextId], nodes := g.nodes[g.nextId := NodeRec(nodeLabel, properties, false)], nextId := g.nextId + 1)
  }

  /** The edge goes to the front of both adjacency lists. */
  function AddEdge(g: Graph, relType: Option<string>, source: nat, target: nat, properties: map<string, Value>): Graph {
    var e := Edge(g.nextId, relType, source, target, properties);
    g.(outgoing := g.outgoing[source := [e] + (if source in g.outgoing then g.outgoing[source] else [])],
       incoming := g.incoming[target := [e] + (if target in g.incoming then g.incoming[target] else [])],
       nextId := g.nextId + 1)
  }

  predicate Storable(v: Value) {
    v.Null? || v.Boolean? || v.Integer? || v.Real? || v.Str?
  }

  /** The properties of a pattern, evaluated; values that cannot be stored are left out. */
  function Properties(env: Env, exprs: seq<(string, Expr)>, row: Row, out: map<string, Value>): Option<map<string, Value>>
    decreases |exprs|
  {
    if exprs == [] then Some(out)
    else
      match env.eval(exprs[0].1, row)
      case None => None
      case Some(v) => Properties(env, exprs[1..], row, if Storable(v) then out[exprs[0].0 := v] else out)
  }

  function FirstName(names: seq<string>): Option<string> {
    if names == [] then None else Some(names[0])
  }

  /** First pass: a new node for every node pattern; properties see the row as it came in. */
  function CreateNodes(g: Graph, env: Env, pattern: Pattern, came: Row, row: Row): Made
    decreases |pattern|
  {
    if pattern == [] then Made(g, row, true)
    else
      match pattern[0]
      case RelElem(_) => CreateNodes(g, env, pattern[1..], came, row)
      case NodeElem(n) =>
        match Properties(env, n.properties, came, map[])
        case None => Made(g, row, false)
        case Some(props) =>
          var g' := AddNode(g, FirstName(n.labels), props);
          var row' := match LoadNode(g', g.nextId) case Some(nv) => Bind(row, n.variable, nv) case None => row;
          CreateNodes(g', env, pattern[1..], came, row')
  }

  /** The node a pattern's variable is bound to. */
  function Endpoint(row: Row, n: NodePattern): Option<nat> {
    if n.variable.None? then None else StartId(row, n.variable.value)
  }

  /** Second pass: an edge for every relationship pattern between two bound nodes. */
  function CreateRels(g: Graph, env: Env, pattern: Pattern, i: nat, row: Row): Made
    decreases |pattern| - i
  {
    if i + 2 >= |pattern| then Made(g, row, true)
    else if pattern[i].NodeElem? && pattern[i + 1].RelElem? && pattern[i + 2].NodeElem? then
      var made := CreateRel(g, env, pattern[i].node, pattern[i + 1].rel, pattern[i + 2].node, row);
      if made.ok then CreateRels(made.g, env, pattern, i + 2, made.row) else made
    else CreateRels(g, env, pattern, i + 1, row)
  }

  function CreateRel(g: Graph, env: Env, src: NodePattern, rel: RelPattern, tgt: NodePattern, row: Row): Made {
    var s, t := Endpoint(row, src), Endpoint(row, tgt);
    if s.None? || t.None? then Made(g, row, true)
    else
      match Properties(env, rel.properties, row, map[])
      case None => Made(g, row, false)
      case Some(props) =>
        if s.value !in g.nodes || t.value !in g.nodes then Made(g.(nextId := g.nextId + 1), row, false)
        else
          var relType := FirstName(rel.types);
          Made(AddEdge(g, relType, s.value, t.value, props),
               Bind(row, rel.variable, RelV(g.nextId, env.typeText(relType), s.value, t.value, map[])), true)
  }

  function ExecuteCreate(g: Graph, env: Env, pattern: Pattern, row: Row): Made {
    var made := CreateNodes(g, env, pattern, row, row);
    if made.ok then CreateRels(made.g, env, pattern, 0, made.row) else made
  }

  // ---------------------------------------------------------------- as the source runs it

  method EvalProperties(env: Env, exprs: seq<(string, Expr)>, row: Row) returns (props: Option<map<string, Value>>)
    ensures props == Properties(env, exprs, row, map[])
  {
    var out: map<string, Value> := map[];
    for i := 0 to |exprs|
      invariant Properties(env, exprs[i..], row, out) == Properties(env, exprs, row, map[])
    {
      assert exprs[i..][1..] == exprs[i + 1..];
      match env.eval(exprs[i].1, row)
      case None => return None;
      case Some(v) =>
        if Storable(v) {
          out := out[exprs[i].0 := v];
        }
    }
    props := Some(out);
  }

  /** `execute_create`: the two loops over the pattern. */
  method RunCreate(g0: Graph, env: Env, pattern: Pattern, came: Row) returns (made: Made)
    ensures made == ExecuteCreate(g0, env, pattern, came)
  {
    hide Properties, AddNode, LoadNode, CreateRel;
    var g, row := g0, came;
    for i := 0 to |pattern|
      invariant CreateNodes(g, env, pattern[i..], came, row) == CreateNodes(g0, env, pattern, came, came)
    {
      assert pattern[i..][1..] == pattern[i + 1..];
      match pattern[i]
      case RelElem(_) =>
      case NodeElem(n) =>
        var props := EvalProperties(env, n.properties, came);
        if props.None? {
          return Made(g, row, false);
        }
        var id := g.nextId;
        g := AddNode(g, FirstName(n.labels), props.value);
        var node := LoadNode(g, id);
        if node.Some? {
          row := Bind(row, n.variable, node.value);
        }
    }
    var i := 0;
    while i + 2 < |pattern|
      invariant CreateRels(g, env, pattern, i, row) == ExecuteCreate(g0, env, pattern, came)
      decreases |pattern| - i
    {
      if pattern[i].NodeElem? && pattern[i + 1].RelElem? && pattern[i + 2].NodeElem? {
        made := RunCreateRel(g, env, pattern[i].node, pattern[i + 1].rel, pattern[i + 2].node, row);
        if !made.ok {
          return;
        }
        g, row := made.g, made.row;
        i := i + 2;
      } else {
        i := i + 1;
      }
    }
    made := Made(g, row, true);
  }

  method RunCreateRel(g: Graph, env: Env, src: NodePattern, rel: RelPattern, tgt: NodePattern, row: Row) returns (made: Made)
    ensures made == CreateRel(g, env, src, rel, tgt, row)
  {
    var s, t := Endpoint(row, src), Endpoint(row, tgt);
    if s.None? || t.None? {
      return Made(g, row, true);
    }
    var props := EvalProperties(env, rel.properties, row);
    if props.None? {
      return Made(g, row, false);
    }
    if s.value !in g.nodes || t.value !in g.nodes {
      return Made(g.(nextId := g.nextId + 1), row, false);
    }
    var relType := FirstName(rel.types);
    made := Made(AddEdge(g, relType, s.value, t.value, props.value),
                 Bind(row, rel.variable, RelV(g.nextId, env.typeText(relType), s.value, t.value, map[])), true);
  }

  // ---------------------------------------------------------------- what creating leaves alone

  /** `g'` is `g` and more: what was allocated is as before, and every new node shows in the footprint. */
  ghost predicate Grown(g: Graph, g': Graph, fp: CreateFootprint) {
    && g.nextId <= g'.nextId
    && (forall n: nat | n < g.nextId ::
          && (n in g'.nodes <==> n in g.nodes) && (n in g.nodes ==> g'.nodes[n] == g.nodes[n])
          && OutEdges(g', n) == OutEdges(g, n) && InEdges(g', n) == InEdges(g, n))
    && g.ids <= g'.ids
    && (forall i | |g.ids| <= i < |g'.ids| ::
          g'.ids[i] >= g.nextId && g'.ids[i] in g'.nodes && Declared(g'.nodes[g'.ids[i]].nodeLabel, fp))
  }

  lemma GrownOn(g: Graph, g': Graph, g'': Graph, fp: CreateFootprint)
    requires Grown(g, g', fp) && Grown(g', g'', fp) && WellFormed(g')
    ensures Grown(g, g'', fp)
  {
    hide OutEdges, InEdges;
    assert g.ids <= g''.ids;
    forall i | |g.ids| <= i < |g''.ids|
      ensures g''.ids[i] >= g.nextId && g''.ids[i] in g''.nodes && Declared(g''.nodes[g''.ids[i]].nodeLabel, fp)
    {
      if i < |g'.ids| {
        assert g''.ids[i] == g'.ids[i];
        assert g'.ids[i] < g'.nextId;
      }
    }
  }

  lemma AddNodeGrows(g: Graph, nodeLabel: Option<string>, properties: map<string, Value>, fp: CreateFootprint)
    requires WellFormed(g) && Declared(nodeLabel, fp)
    ensures WellFormed(AddNode(g, nodeLabel, properties)) && Grown(g, AddNode(g, nodeLabel, properties), fp)
  {
    hide DistinctIds, Mirrored;
    AddNodeMirrored(g, nodeLabel, properties);
  }

  lemma AddNodeMirrored(g: Graph, nodeLabel: Option<string>, properties: map<string, Value>)
    requires Mirrored(g)
    ensures Mirrored(AddNode(g, nodeLabel, properties))
  {
    var g' := AddNode(g, nodeLabel, properties);
    assert forall e :: (HasOut(g', e) <==> HasOut(g, e)) && (HasIn(g', e) <==> HasIn(g, e));
  }

  /** A new edge, under a new id, is in both lists. */
  lemma AddEdgeMirrored(g: Graph, relType: Option<string>, s: nat, t: nat, props: map<string, Value>)
    requires WellFormed(g)
    ensures Mirrored(AddEdge(g, relType, s, t, props))
  {
    var g' := AddEdge(g, relType, s, t, props);
    var e := Edge(g.nextId, relType, s, t, props);
    forall f ensures (HasOut(g', f) <==> HasOut(g, f) || f == e) && (HasIn(g', f) <==> HasIn(g, f) || f == e) {
    }
    forall f | HasOut(g, f) ensures f.id < g.nextId {
    }
  }

  lemma PrependedDistinct(e: Edge, es: seq<Edge>)
    requires DistinctIds(es) && forall i | 0 <= i < |es| :: es[i].id < e.id
    ensures DistinctIds([e] + es)
  {
  }

  /** An edge between nodes that `base` does not have grows `base`. */
  lemma AddEdgeGrows(base: Graph, g: Graph, relType: Option<string>, s: nat, t: nat, props: map<string, Value>, fp: CreateFootprint)
    requires WellFormed(g) && Grown(base, g, fp)
    requires s in g.nodes && t in g.nodes && s >= base.nextId && t >= base.nextId
    ensures var g' := AddEdge(g, relType, s, t, props); WellFormed(g') && Grown(base, g', fp)
  {
    hide DistinctIds, Mirrored, Grown;
    AddEdgeMirrored(g, relType, s, t, props);
    AddEdgeElsewhere(base, g, relType, s, t, props, fp);
    var g' := AddEdge(g, relType, s, t, props);
    var e := Edge(g.nextId, relType, s, t, props);
    PrependedDistinct(e, if s in g.outgoing then g.outgoing[s] else []) by {
      NoneDistinct();
    }
    PrependedDistinct(e, if t in g.incoming then g.incoming[t] else []) by {
      NoneDistinct();
    }
  }

  lemma AddEdgeElsewhere(base: Graph, g: Graph, relType: Option<string>, s: nat, t: nat, props: map<string, Value>, fp: CreateFootprint)
    requires Grown(base, g, fp) && s >= base.nextId && t >= base.nextId
    ensures Grown(base, AddEdge(g, relType, s, t, props), fp)
  {
  }

  lemma NoneDistinct()
    ensures DistinctIds([])
  {
  }

  /** Every node pattern shows in the footprint. */
  ghost predicate AllDeclared(pattern: Pattern, fp: CreateFootprint) {
    forall i | 0 <= i < |pattern| && pattern[i].NodeElem? :: Declared(FirstName(pattern[i].node.labels), fp)
  }

  lemma PatternDeclared(pattern: Pattern)
    ensures AllDeclared(pattern, Creates(pattern))
  {
    forall i | 0 <= i < |pattern| && pattern[i].NodeElem?
      ensures Declared(FirstName(pattern[i].node.labels), Creates(pattern))
    {
      var ls := pattern[i].node.labels;
      if ls != [] {
        assert ls[0] in pattern[i].node.labels;
      }
    }
  }

  /** The value is a node of `g` that `base` does not have, or at least no node. */
  predicate NewNode(base: Graph, g: Graph, v: Value) {
    v.RelV? || (v.NodeV? && base.nextId <= v.id && v.id in g.nodes)
  }

  /** The variables of the node patterns are bound to new nodes. */
  ghost predicate BoundNew(base: Graph, g: Graph, pattern: Pattern, row: Row) {
    forall i | 0 <= i < |pattern| && pattern[i].NodeElem? && pattern[i].node.variable.Some? ::
      pattern[i].node.variable.value in row && NewNode(base, g, row[pattern[i].node.variable.value])
  }

  /** A variable bound to a new node stays bound to one while nodes are created. */
  ghost predicate StillNew(base: Graph, g: Graph, row: Row, g': Graph, row': Row) {
    forall v | v in row && NewNode(base, g, row[v]) :: v in row' && NewNode(base, g', row'[v])
  }

  lemma {:induction false} CreateNodesGrows(base: Graph, g: Graph, env: Env, pattern: Pattern, came: Row, row: Row, fp: CreateFootprint)
    requires WellFormed(g) && AllDeclared(pattern, fp) && base.nextId <= g.nextId
    ensures var made := CreateNodes(g, env, pattern, came, row);
            && WellFormed(made.g) && Grown(g, made.g, fp)
            && StillNew(base, g, row, made.g, made.row)
            && (made.ok ==> BoundNew(base, made.g, pattern, made.row))
    decreases |pattern|
  {
    hide WellFormed, Properties, AddNode, Grown, LoadNode;
    GrownSame(g, fp);
    if pattern != [] {
      assert pattern == [pattern[0]] + pattern[1..];
      assert AllDeclared(pattern[1..], fp);
      if pattern[0].RelElem? {
        CreateNodesGrows(base, g, env, pattern[1..], came, row, fp);
      } else {
        var n := pattern[0].node;
        var props := Properties(env, n.properties, came, map[]);
        if props.Some? {
          var g' := AddNode(g, FirstName(n.labels), props.value);
          AddNodeGrows(g, FirstName(n.labels), props.value, fp);
          AddNodeLoads(g, FirstName(n.labels), props.value);
          var row' := Bind(row, n.variable, LoadNode(g', g.nextId).value);
          CreateNodesGrows(base, g', env, pattern[1..], came, row', fp);
          GrownOn(g, g', CreateNodes(g', env, pattern[1..], came, row').g, fp);
        }
      }
    }
  }

  lemma GrownSame(g: Graph, fp: CreateFootprint)
    ensures Grown(g, g, fp)
  {
  }

  lemma AddNodeLoads(g: Graph, nodeLabel: Option<string>, props: map<string, Value>)
    ensures var g' := AddNode(g, nodeLabel, props);
            && g'.nextId == g.nextId + 1 && g.nextId in g'.nodes && (forall n | n in g.nodes :: n in g'.nodes)
            && LoadNode(g', g.nextId).Some? && LoadNode(g', g.nextId).value.NodeV? && LoadNode(g', g.nextId).value.id == g.nextId
  {
  }

  /** Every edge joins new nodes: creating leaves the adjacency of what was there alone. */
  lemma {:induction false} CreateRelsGrows(base: Graph, g: Graph, env: Env, pattern: Pattern, i: nat, row: Row, fp: CreateFootprint)
    requires WellFormed(g) && Grown(base, g, fp) && BoundNew(base, g, pattern, row)
    ensures var made := CreateRels(g, env, pattern, i, row); WellFormed(made.g) && Grown(base, made.g, fp)
    decreases |pattern| - i
  {
    hide WellFormed, Grown, Properties, AddEdge;
    if i + 2 < |pattern| {
      if pattern[i].NodeElem? && pattern[i + 1].RelElem? && pattern[i + 2].NodeElem? {
        CreateRelGrows(base, g, env, pattern, i, row, fp);
        var made := CreateRel(g, env, pattern[i].node, pattern[i + 1].rel, pattern[i + 2].node, row);
        if made.ok {
          CreateRelsGrows(base, made.g, env, pattern, i + 2, made.row, fp);
        }
      } else {
        CreateRelsGrows(base, g, env, pattern, i + 1, row, fp);
      }
    }
  }

  lemma CreateRelGrows(base: Graph, g: Graph, env: Env, pattern: Pattern, i: nat, row: Row, fp: CreateFootprint)
    requires WellFormed(g) && Grown(base, g, fp) && BoundNew(base, g, pattern, row)
    requires i + 2 < |pattern| && pattern[i].NodeElem? && pattern[i + 1].RelElem? && pattern[i + 2].NodeElem?
    ensures var made := CreateRel(g, env, pattern[i].node, pattern[i + 1].rel, pattern[i + 2].node, row);
            WellFormed(made.g) && Grown(base, made.g, fp) && BoundNew(base, made.g, pattern, made.row)
  {
    hide WellFormed, Grown, Properties, AddEdge;
    var s, t := Endpoint(row, pattern[i].node), Endpoint(row, pattern[i + 2].node);
    if s.Some? && t.Some? {
      var rel := pattern[i + 1].rel;
      var props := Properties(env, rel.properties, row, map[]);
      if props.Some? {
        AddEdgeGrows(base, g, FirstName(rel.types), s.value, t.value, props.value, fp);
        AddEdgeNodes(g, FirstName(rel.types), s.value, t.value, props.value);
      }
    }
  }

  lemma AddEdgeNodes(g: Graph, relType: Option<string>, s: nat, t: nat, props: map<string, Value>)
    ensures AddEdge(g, relType, s, t, props).nodes == g.nodes
  {
  }

  /** Whatever it does, even up to an error, CREATE only grows the graph, as its footprint says. */
  lemma ExecuteCreateGrows(g: Graph, env: Env, pattern: Pattern, row: Row)
    requires WellFormed(g)
    ensures var made := ExecuteCreate(g, env, pattern, row);
            WellFormed(made.g) && Grown(g, made.g, Creates(pattern))
  {
    hide WellFormed, Grown, Creates, CreateNodes, CreateRels;
    PatternDeclared(pattern);
    CreateNodesGrows(g, g, env, pattern, row, row, Creates(pattern));
    var made := CreateNodes(g, env, pattern, row, row);
    if made.ok {
      CreateRelsGrows(g, made.g, env, pattern, 0, made.row, Creates(pattern));
    }
  }

  // ---------------------------------------------------------------- what creating makes

  /** The label each node pattern's node gets. */
  function NodeLabels(pattern: Pattern): seq<Option<string>> {
    if pattern == [] then []
    else (if pattern[0].NodeElem? then [FirstName(pattern[0].node.labels)] else []) + NodeLabels(pattern[1..])
  }

  /** `g'` has one more node per label, in order, under consecutive ids; edges are as before. */
  ghost predicate NodesMade(g: Graph, g': Graph, labels: seq<Option<string>>) {
    && g'.nextId == g.nextId + |labels| && |g'.ids| == |g.ids| + |labels| && g.ids <= g'.ids
    && g'.outgoing == g.outgoing && g'.incoming == g.incoming
    && (forall k | 0 <= k < |labels| :: NodeMade(g, g', k, labels[k]))
    && (forall n | n in g.nodes && n < g.nextId :: n in g'.nodes && g'.nodes[n] == g.nodes[n])
  }

  ghost predicate NodeMade(g: Graph, g': Graph, k: nat, nodeLabel: Option<string>)
    requires |g'.ids| > |g.ids| + k
  {
    var id := g.nextId + k;
    g'.ids[|g.ids| + k] == id && id in g'.nodes && g'.nodes[id].nodeLabel == nodeLabel && !g'.nodes[id].deleted
  }

  lemma OneMadeFirst(g: Graph, nodeLabel: Option<string>, props: map<string, Value>, g'': Graph, labels: seq<Option<string>>)
    requires NodesMade(AddNode(g, nodeLabel, props), g'', labels)
    ensures NodesMade(g, g'', [nodeLabel] + labels)
  {
    var g', all := AddNode(g, nodeLabel, props), [nodeLabel] + labels;
    assert g'.ids[|g.ids|] == g.nextId && g''.ids[|g.ids|] == g.nextId && g''.nodes[g.nextId] == g'.nodes[g.nextId];
    forall k | 0 <= k < |all| ensures NodeMade(g, g'', k, all[k]) {
      if k > 0 {
        assert NodeMade(g', g'', k - 1, labels[k - 1]);
      }
    }
  }

  /** One new node per node pattern, in order, with its first label, under consecutive ids. */
  lemma {:induction false} CreateNodesMakes(g: Graph, env: Env, pattern: Pattern, came: Row, row: Row)
    requires CreateNodes(g, env, pattern, came, row).ok
    ensures NodesMade(g, CreateNodes(g, env, pattern, came, row).g, NodeLabels(pattern))
    decreases |pattern|
  {
    hide Properties, LoadNode, AddNode, NodesMade;
    if pattern == [] {
      NoneMade(g);
    } else if pattern[0].RelElem? {
      CreateNodesMakes(g, env, pattern[1..], came, row);
      assert [] + NodeLabels(pattern[1..]) == NodeLabels(pattern[1..]);
    } else {
      var n := pattern[0].node;
      var props := Properties(env, n.properties, came, map[]).value;
      var g' := AddNode(g, FirstName(n.labels), props);
      var row' := match LoadNode(g', g.nextId) case Some(nv) => Bind(row, n.variable, nv) case None => row;
      CreateNodesMakes(g', env, pattern[1..], came, row');
      OneMadeFirst(g, FirstName(n.labels), props, CreateNodes(g', env, pattern[1..], came, row').g, NodeLabels(pattern[1..]));
    }
  }

  lemma NoneMade(g: Graph)
    ensures NodesMade(g, g, [])
  {
  }

  /** A relationship pattern between two bound nodes makes one edge: from the first to the second, of its first
      type, at the front of both adjacency lists. */
  lemma CreateRelMakes(g: Graph, env: Env, src: NodePattern, rel: RelPattern, tgt: NodePattern, row: Row)
    requires Endpoint(row, src).Some? && Endpoint(row, tgt).Some? && CreateRel(g, env, src, rel, tgt, row).ok
    ensures var g', s, t := CreateRel(g, env, src, rel, tgt, row).g, Endpoint(row, src).value, Endpoint(row, tgt).value;
            && g'.nextId == g.nextId + 1 && g'.nodes == g.nodes
            && |OutEdges(g', s)| == |OutEdges(g, s)| + 1 && OutEdges(g', s)[1..] == OutEdges(g, s)
            && |InEdges(g', t)| == |InEdges(g, t)| + 1 && InEdges(g', t)[1..] == InEdges(g, t)
            && OutEdges(g', s)[0] == InEdges(g', t)[0]
            && var e := OutEdges(g', s)[0];
               e.id == g.nextId && e.source == s && e.target == t && e.relType == FirstName(rel.types)
  {
    hide Properties;
  }
}
