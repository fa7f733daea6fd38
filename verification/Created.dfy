/** What CREATE leaves (src/cypher/physical.rs:697-836), said of the graph and the row: which nodes and edges there are
    now, with which properties, and what the row binds. */
module Created {
  import opened Frames
  import opened Ast
  import opened Plan
  import opened Graphs
  import opened Physical
  import opened PlanLaws
  import opened Creating

  // ---------------------------------------------------------------- properties

  /** A value that a property can have. */
  ghost predicate IsScalar(v: Value) {
    !v.ListV? && !v.MapV? && !v.NodeV? && !v.RelV?
  }

  /** The `i`-th expression gives its name a value. */
  ghost predicate Sets(env: Env, exprs: seq<(string, Expr)>, row: Row, i: int) {
    0 <= i < |exprs| && var v := env.eval(exprs[i].1, row); v.Some? && IsScalar(v.value)
  }

  /** ... and no later one does. */
  ghost predicate SetsLast(env: Env, exprs: seq<(string, Expr)>, row: Row, i: int) {
    Sets(env, exprs, row, i) && forall j | i < j < |exprs| && exprs[j].0 == exprs[i].0 :: !Sets(env, exprs, row, j)
  }

  /** Every name has the value of the last expression that gives it one, and there are no others. */
  ghost predicate HasProperties(env: Env, exprs: seq<(string, Expr)>, row: Row, props: map<string, Value>) {
    && (forall x | x in props :: exists i :: Sets(env, exprs, row, i) && exprs[i].0 == x)
    && (forall i | SetsLast(env, exprs, row, i) :: exprs[i].0 in props && env.eval(exprs[i].1, row) == Some(props[exprs[i].0]))
  }

  ghost predicate AllHaveValues(env: Env, exprs: seq<(string, Expr)>, row: Row) {
    forall i | 0 <= i < |exprs| :: env.eval(exprs[i].1, row).Some?
  }

  /** The properties of a pattern are its expressions' values on the row. */
  lemma PropertiesMean(env: Env, exprs: seq<(string, Expr)>, row: Row)
    ensures var props := Properties(env, exprs, row, map[]);
            && (props.Some? <==> AllHaveValues(env, exprs, row))
            && (props.Some? ==> HasProperties(env, exprs, row, props.value))
  {
    PropertiesFail(env, exprs, row, map[]);
    var props := Properties(env, exprs, row, map[]);
    if props.Some? {
      PropertyNames(env, exprs, row, map[]);
      forall i | SetsLast(env, exprs, row, i) ensures exprs[i].0 in props.value && env.eval(exprs[i].1, row) == Some(props.value[exprs[i].0]) {
        LastProperty(env, exprs, row, map[], i);
      }
    }
  }

  lemma {:induction false} PropertiesFail(env: Env, exprs: seq<(string, Expr)>, row: Row, from: map<string, Value>)
    ensures Properties(env, exprs, row, from).Some? <==> AllHaveValues(env, exprs, row)
    decreases |exprs|
  {
    if exprs != [] {
      var v := env.eval(exprs[0].1, row);
      assert forall i | 1 <= i < |exprs| :: exprs[i] == exprs[1..][i - 1];
      if v.Some? {
        PropertiesFail(env, exprs[1..], row, if Storable(v.value) then from[exprs[0].0 := v.value] else from);
      }
    }
  }

  lemma SetsOn(env: Env, exprs: seq<(string, Expr)>, row: Row, i: int)
    requires exprs != [] && i > 0
    ensures Sets(env, exprs, row, i) <==> Sets(env, exprs[1..], row, i - 1)
  {
  }

  /** Names bound before and not set stay; all others are set. */
  lemma {:induction false} PropertyNames(env: Env, exprs: seq<(string, Expr)>, row: Row, from: map<string, Value>)
    requires Properties(env, exprs, row, from).Some?
    ensures var props := Properties(env, exprs, row, from).value;
            && (forall x | x in props :: x in from || exists i :: Sets(env, exprs, row, i) && exprs[i].0 == x)
            && (forall x | x in from :: x in props)
            && (forall x | x in from && (forall i | Sets(env, exprs, row, i) :: exprs[i].0 != x) :: props[x] == from[x])
    decreases |exprs|
  {
    if exprs != [] {
      var v, props := env.eval(exprs[0].1, row).value, Properties(env, exprs, row, from).value;
      var from' := if Storable(v) then from[exprs[0].0 := v] else from;
      PropertyNames(env, exprs[1..], row, from');
      hide Properties;
      assert Storable(v) <==> Sets(env, exprs, row, 0);
      forall x | x in props && x !in from ensures exists i :: Sets(env, exprs, row, i) && exprs[i].0 == x {
        if x !in from' {
          var i :| Sets(env, exprs[1..], row, i) && exprs[1..][i].0 == x;
          SetsOn(env, exprs, row, i + 1);
          assert exprs[i + 1].0 == x;
        } else {
          assert Sets(env, exprs, row, 0) && exprs[0].0 == x;
        }
      }
      forall x | x in from && (forall i | Sets(env, exprs, row, i) :: exprs[i].0 != x) ensures props[x] == from[x] {
        forall i | Sets(env, exprs[1..], row, i) ensures exprs[1..][i].0 != x {
          SetsOn(env, exprs, row, i + 1);
        }
        assert from'[x] == from[x];
      }
    }
  }

  lemma {:induction false} LastProperty(env: Env, exprs: seq<(string, Expr)>, row: Row, from: map<string, Value>, i: int)
    requires Properties(env, exprs, row, from).Some? && SetsLast(env, exprs, row, i)
    ensures var props := Properties(env, exprs, row, from).value; exprs[i].0 in props && env.eval(exprs[i].1, row) == Some(props[exprs[i].0])
    decreases |exprs|
  {
    var v := env.eval(exprs[0].1, row).value;
    var from' := if Storable(v) then from[exprs[0].0 := v] else from;
    forall j | Sets(env, exprs[1..], row, j) ensures Sets(env, exprs, row, j + 1) && exprs[1..][j] == exprs[j + 1] {
      SetsOn(env, exprs, row, j + 1);
    }
    if i > 0 {
      SetsOn(env, exprs, row, i);
      forall j | i - 1 < j < |exprs[1..]| && exprs[1..][j].0 == exprs[1..][i - 1].0 ensures !Sets(env, exprs[1..], row, j) {
      }
      LastProperty(env, exprs[1..], row, from', i - 1);
    } else {
      PropertyNames(env, exprs[1..], row, from');
    }
  }

  // ---------------------------------------------------------------- nodes

  /** The node patterns, in order. */
  function NodePatterns(pattern: Pattern): seq<NodePattern> {
    if pattern == [] then []
    else (if pattern[0].NodeElem? then [pattern[0].node] else []) + NodePatterns(pattern[1..])
  }

  /** Node `id` is live, with the pattern's first label and its properties as they are on the incoming row. */
  ghost predicate MadeAs(env: Env, n: NodePattern, came: Row, g: Graph, id: nat) {
    && Live(g, id) && HasProperties(env, n.properties, came, g.nodes[id].properties)
    && g.nodes[id].nodeLabel == if n.labels == [] then None else Some(n.labels[0])
  }

  /** A new node per pattern, in order, under consecutive ids; nothing else is new. */
  ghost predicate NodesAre(env: Env, ns: seq<NodePattern>, came: Row, g: Graph, g': Graph) {
    && g'.nextId == g.nextId + |ns| && g'.outgoing == g.outgoing && g'.incoming == g.incoming
    && g'.ids == g.ids + seq(|ns|, k requires 0 <= k < |ns| => g.nextId + k)
    && (forall n: nat | n < g.nextId || n >= g.nextId + |ns| :: n in g'.nodes <==> n in g.nodes)
    && (forall n: nat | n in g.nodes && (n < g.nextId || n >= g.nextId + |ns|) :: g'.nodes[n] == g.nodes[n])
    && (forall k | 0 <= k < |ns| :: MadeAs(env, ns[k], came, g', g.nextId + k))
  }

  /** The `k`-th pattern is the last with variable `x`. */
  ghost predicate NamedLast(ns: seq<NodePattern>, x: string, k: int) {
    0 <= k < |ns| && ns[k].variable == Some(x) && forall j | k < j < |ns| :: ns[j].variable != Some(x)
  }

  /** Each variable is bound to its last node as it is in the graph; everything else is as before. */
  ghost predicate RowIs(ns: seq<NodePattern>, row: Row, g': Graph, first: nat, row': Row) {
    && (forall x, k | NamedLast(ns, x, k) :: x in row' && ShowsNode(g', first + k, row'[x]))
    && (forall x | (forall k | 0 <= k < |ns| :: ns[k].variable != Some(x)) :: (x in row' <==> x in row) && (x in row ==> row'[x] == row[x]))
  }

  /** The first pass of CREATE makes its nodes with their labels and properties, and binds them. */
  lemma {:induction false} CreateNodesMean(g: Graph, env: Env, pattern: Pattern, came: Row, row: Row)
    requires CreateNodes(g, env, pattern, came, row).ok
    ensures var made := CreateNodes(g, env, pattern, came, row);
            NodesAre(env, NodePatterns(pattern), came, g, made.g) && RowIs(NodePatterns(pattern), row, made.g, g.nextId, made.row)
    decreases |pattern|
  {
    hide Properties, LoadNode, AddNode, NodesAre, RowIs;
    if pattern == [] {
      NoNodes(env, came, g, row);
    } else if pattern[0].RelElem? {
      CreateNodesMean(g, env, pattern[1..], came, row);
      assert [] + NodePatterns(pattern[1..]) == NodePatterns(pattern[1..]);
    } else {
      var n := pattern[0].node;
      PropertiesMean(env, n.properties, came);
      var props := Properties(env, n.properties, came, map[]).value;
      var g' := AddNode(g, FirstName(n.labels), props);
      OneNode(env, n, came, g, props);
      var row' := match LoadNode(g', g.nextId) case Some(nv) => Bind(row, n.variable, nv) case None => row;
      CreateNodesMean(g', env, pattern[1..], came, row');
      var made := CreateNodes(g', env, pattern[1..], came, row');
      NodesOn(env, n, NodePatterns(pattern[1..]), came, g, g', made.g);
      LoadNodeMeans(g', g.nextId);
      KeptNode(env, NodePatterns(pattern[1..]), came, g', made.g, g.nextId);
      RowOn(n, NodePatterns(pattern[1..]), row, row', g', made.g, g.nextId, made.row);
    }
  }

  lemma NoNodes(env: Env, came: Row, g: Graph, row: Row)
    ensures NodesAre(env, [], came, g, g) && RowIs([], row, g, g.nextId, row)
  {
    assert g.ids == g.ids + [];
  }

  /** One node more. */
  ghost predicate Adds(g: Graph, g': Graph, rec: NodeRec) {
    && g'.nextId == g.nextId + 1 && g'.ids == g.ids + [g.nextId] && g'.nodes == g.nodes[g.nextId := rec]
    && g'.outgoing == g.outgoing && g'.incoming == g.incoming
  }

  lemma OneNode(env: Env, n: NodePattern, came: Row, g: Graph, props: map<string, Value>)
    requires HasProperties(env, n.properties, came, props)
    ensures var g' := AddNode(g, FirstName(n.labels), props);
            MadeAs(env, n, came, g', g.nextId) && Adds(g, g', g'.nodes[g.nextId])
  {
    hide HasProperties;
  }

  lemma NodesOn(env: Env, n: NodePattern, ns: seq<NodePattern>, came: Row, g: Graph, g': Graph, g'': Graph)
    requires MadeAs(env, n, came, g', g.nextId) && Adds(g, g', g'.nodes[g.nextId]) && NodesAre(env, ns, came, g', g'')
    ensures NodesAre(env, [n] + ns, came, g, g'')
  {
    hide HasProperties;
    var all := [n] + ns;
    assert g''.ids == g.ids + seq(|all|, k requires 0 <= k < |all| => g.nextId + k);
    forall k | 0 <= k < |all| ensures MadeAs(env, all[k], came, g'', g.nextId + k) {
      if k > 0 {
        assert MadeAs(env, ns[k - 1], came, g'', g'.nextId + (k - 1));
      } else {
        assert g''.nodes[g.nextId] == g'.nodes[g.nextId];
      }
    }
  }

  lemma KeptNode(env: Env, ns: seq<NodePattern>, came: Row, g': Graph, g'': Graph, id: nat)
    requires NodesAre(env, ns, came, g', g'') && id < g'.nextId && id in g'.nodes
    ensures id in g''.nodes && g''.nodes[id] == g'.nodes[id]
  {
  }

  lemma RowOn(n: NodePattern, ns: seq<NodePattern>, row: Row, row': Row, g': Graph, g'': Graph, first: nat, row'': Row)
    requires LoadNode(g', first).Some? && row' == Bind(row, n.variable, LoadNode(g', first).value)
    requires ShowsNode(g', first, LoadNode(g', first).value) && first in g''.nodes && g''.nodes[first] == g'.nodes[first]
    requires RowIs(ns, row', g'', first + 1, row'')
    ensures RowIs([n] + ns, row, g'', first, row'')
  {
    hide LoadNode, ShowsNode, RowIs;
    var all := [n] + ns;
    forall x, k | NamedLast(all, x, k) ensures x in row'' && ShowsNode(g'', first + k, row''[x]) {
      RowNamed(n, ns, row, row', g', g'', first, row'', x, k);
    }
    forall x | (forall k | 0 <= k < |all| :: all[k].variable != Some(x))
      ensures (x in row'' <==> x in row) && (x in row ==> row''[x] == row[x])
    {
      RowOther(n, ns, row, row', g', g'', first, row'', x);
    }
    RowFrom(all, row, g'', first, row'');
  }

  lemma RowFrom(ns: seq<NodePattern>, row: Row, g': Graph, first: nat, row': Row)
    requires forall x, k | NamedLast(ns, x, k) :: x in row' && ShowsNode(g', first + k, row'[x])
    requires forall x | (forall k | 0 <= k < |ns| :: ns[k].variable != Some(x)) :: (x in row' <==> x in row) && (x in row ==> row'[x] == row[x])
    ensures RowIs(ns, row, g', first, row')
  {
  }

  lemma RowNamed(n: NodePattern, ns: seq<NodePattern>, row: Row, row': Row, g': Graph, g'': Graph, first: nat, row'': Row, x: string, k: int)
    requires LoadNode(g', first).Some? && row' == Bind(row, n.variable, LoadNode(g', first).value)
    requires ShowsNode(g', first, LoadNode(g', first).value) && first in g''.nodes && g''.nodes[first] == g'.nodes[first]
    requires RowIs(ns, row', g'', first + 1, row'') && NamedLast([n] + ns, x, k)
    ensures x in row'' && ShowsNode(g'', first + k, row''[x])
  {
    hide LoadNode;
    var all := [n] + ns;
    assert forall j | 0 <= j < |ns| :: ns[j] == all[j + 1];
    if k > 0 {
      assert NamedLast(ns, x, k - 1);
    } else {
      assert row'[x] == LoadNode(g', first).value;
    }
  }

  lemma RowOther(n: NodePattern, ns: seq<NodePattern>, row: Row, row': Row, g': Graph, g'': Graph, first: nat, row'': Row, x: string)
    requires LoadNode(g', first).Some? && row' == Bind(row, n.variable, LoadNode(g', first).value)
    requires RowIs(ns, row', g'', first + 1, row'')
    requires forall k | 0 <= k < |[n] + ns| :: ([n] + ns)[k].variable != Some(x)
    ensures (x in row'' <==> x in row) && (x in row ==> row''[x] == row[x])
  {
    hide LoadNode, ShowsNode;
    var all := [n] + ns;
    assert all[0].variable != Some(x);
    assert forall j | 0 <= j < |ns| :: ns[j] == all[j + 1];
  }

  // ---------------------------------------------------------------- relationships

  /** The node pattern's variable names node `id`. */
  ghost predicate EndsAt(row: Row, n: NodePattern, id: nat) {
    n.variable.Some? && n.variable.value in row && Names(row[n.variable.value], id)
  }

  ghost function ListAt(lists: map<nat, seq<Edge>>, n: nat): seq<Edge> {
    if n in lists then lists[n] else []
  }

  /** `e` stands first in the list of node `n`; the lists of others are as before. */
  ghost predicate Prepended(before: map<nat, seq<Edge>>, after: map<nat, seq<Edge>>, n: nat, e: Edge) {
    ListAt(after, n) == [e] + ListAt(before, n) && forall m: nat | m != n :: ListAt(after, m) == ListAt(before, m)
  }

  /** The row binds that variable, if there is one, to `v`, and is as before otherwise. */
  ghost predicate Rebinds(row: Row, variable: Option<string>, v: Value, row': Row) {
    && (variable.Some? ==> variable.value in row' && row'[variable.value] == v)
    && (forall x | variable != Some(x) :: (x in row' <==> x in row) && (x in row ==> row'[x] == row[x]))
  }

  /** The graph has one edge more, `e`: from `s` to `t`, first in both lists, with the pattern's first type and its
      properties as they are on the row; the row binds its variable to it, without the properties. */
  ghost predicate EdgeIs(env: Env, rel: RelPattern, s: nat, t: nat, g: Graph, row: Row, after: Made, e: Edge) {
    && e.id == g.nextId && e.source == s && e.target == t && e.relType == (if rel.types == [] then None else Some(rel.types[0]))
    && HasProperties(env, rel.properties, row, e.properties)
    && after.g.nextId == g.nextId + 1 && after.g.ids == g.ids && after.g.nodes == g.nodes
    && Prepended(g.outgoing, after.g.outgoing, s, e) && Prepended(g.incoming, after.g.incoming, t, e)
    && Rebinds(row, rel.variable, RelV(e.id, env.typeText(e.relType), s, t, map[]), after.row)
  }

  /** A relationship pattern makes its edge if both its ends name a node, and nothing if one does not.  It fails
      exactly if its properties have no value or an end is not in the graph. */
  lemma CreateRelMeans(g: Graph, env: Env, src: NodePattern, rel: RelPattern, tgt: NodePattern, row: Row, s: nat, t: nat)
    returns (e: Edge)
    ensures var after := CreateRel(g, env, src, rel, tgt, row);
            EndsAt(row, src, s) && EndsAt(row, tgt, t) ==>
              && (after.ok <==> AllHaveValues(env, rel.properties, row) && s in g.nodes && t in g.nodes)
              && (after.ok ==> EdgeIs(env, rel, s, t, g, row, after, e))
              && (!after.ok ==> after.row == row && after.g == g.(nextId := after.g.nextId) && g.nextId <= after.g.nextId <= g.nextId + 1)
    ensures (forall n: nat :: !EndsAt(row, src, n)) || (forall n: nat :: !EndsAt(row, tgt, n)) ==>
              CreateRel(g, env, src, rel, tgt, row) == Made(g, row, true)
  {
    hide Properties, HasProperties, Names, AllHaveValues;
    EndpointMeans(row, src, s);
    EndpointMeans(row, tgt, t);
    PropertiesMean(env, rel.properties, row);
    var props := Properties(env, rel.properties, row, map[]);
    e := Edge(g.nextId, FirstName(rel.types), s, t, if props.Some? then props.value else map[]);
    if Endpoint(row, src).Some? {
      EndpointMeans(row, src, Endpoint(row, src).value);
    }
    if Endpoint(row, tgt).Some? {
      EndpointMeans(row, tgt, Endpoint(row, tgt).value);
    }
  }

  lemma EndpointMeans(row: Row, n: NodePattern, id: nat)
    ensures Endpoint(row, n) == Some(id) <==> EndsAt(row, n, id)
  {
    if n.variable.Some? {
      StartIdMeans(row, n.variable.value, id);
    }
  }

  /** A relationship pattern between two node patterns stands at place `i + 1`. */
  predicate IsTriple(pattern: Pattern, i: int) {
    0 <= i && i + 2 < |pattern| && pattern[i].NodeElem? && pattern[i + 1].RelElem? && pattern[i + 2].NodeElem?
  }

  /** From state to state, one relationship pattern after the other. */
  ghost predicate RelSteps(env: Env, pattern: Pattern, at: seq<nat>, states: seq<Made>) {
    && |states| == |at| + 1 && (forall j | 0 <= j < |at| :: IsTriple(pattern, at[j]) && states[j].ok)
    && (forall j, k | 0 <= j < k < |at| :: at[j] < at[k])
    && forall j | 0 <= j < |at| ::
         states[j + 1] == CreateRel(states[j].g, env, pattern[at[j]].node, pattern[at[j] + 1].rel, pattern[at[j] + 2].node, states[j].row)
  }

  /** The second pass takes every relationship pattern between two node patterns, in order, up to the first that
      fails. */
  lemma {:induction false} CreateRelsMean(g: Graph, env: Env, pattern: Pattern, i: nat, row: Row)
    returns (at: seq<nat>, states: seq<Made>)
    ensures RelSteps(env, pattern, at, states) && states[0] == Made(g, row, true) && states[|at|] == CreateRels(g, env, pattern, i, row)
    ensures forall k | 0 <= k < |at| :: at[k] >= i
    ensures states[|at|].ok ==> forall p: nat | p >= i && IsTriple(pattern, p) :: p in at
    decreases |pattern| - i
  {
    hide CreateRel, IsTriple;
    at, states := [], [Made(g, row, true)];
    if i + 2 < |pattern| {
      TripleAt(pattern, i);
      if pattern[i].NodeElem? && pattern[i + 1].RelElem? && pattern[i + 2].NodeElem? {
        var made := CreateRel(g, env, pattern[i].node, pattern[i + 1].rel, pattern[i + 2].node, row);
        at, states := [i], [Made(g, row, true), made];
        if made.ok {
          var at', states' := CreateRelsMean(made.g, env, pattern, i + 2, made.row);
          StepsOn(env, pattern, i, at', Made(g, row, true), states');
          at, states := [i] + at', [Made(g, row, true)] + states';
        }
      } else {
        at, states := CreateRelsMean(g, env, pattern, i + 1, row);
      }
    } else {
      NoTriples(pattern, i);
    }
  }

  lemma TripleAt(pattern: Pattern, i: nat)
    requires i + 2 < |pattern|
    ensures IsTriple(pattern, i) <==> pattern[i].NodeElem? && pattern[i + 1].RelElem? && pattern[i + 2].NodeElem?
    ensures IsTriple(pattern, i) ==> !IsTriple(pattern, i + 1)
  {
  }

  lemma NoTriples(pattern: Pattern, i: nat)
    requires i + 2 >= |pattern|
    ensures forall p: nat | p >= i :: !IsTriple(pattern, p)
  {
  }

  lemma StepsOn(env: Env, pattern: Pattern, i: nat, at: seq<nat>, first: Made, states: seq<Made>)
    requires RelSteps(env, pattern, at, states) && IsTriple(pattern, i) && first.ok && forall k | 0 <= k < |at| :: at[k] > i
    requires states[0] == CreateRel(first.g, env, pattern[i].node, pattern[i + 1].rel, pattern[i + 2].node, first.row)
    ensures RelSteps(env, pattern, [i] + at, [first] + states)
  {
    hide CreateRel;
    var at', states' := [i] + at, [first] + states;
    forall j | 0 <= j < |at'|
      ensures IsTriple(pattern, at'[j]) && states'[j].ok
      ensures states'[j + 1] ==
              CreateRel(states'[j].g, env, pattern[at'[j]].node, pattern[at'[j] + 1].rel, pattern[at'[j] + 2].node, states'[j].row)
    {
      if j > 0 {
        assert at'[j] == at[j - 1] && states'[j] == states[j - 1] && states'[j + 1] == states[j - 1 + 1];
      }
    }
  }

  /** The nodes are made exactly if all their properties have values. */
  lemma {:induction false} NodesSucceed(g: Graph, env: Env, pattern: Pattern, came: Row, row: Row)
    ensures CreateNodes(g, env, pattern, came, row).ok <==>
            forall i | 0 <= i < |pattern| && pattern[i].NodeElem? :: AllHaveValues(env, pattern[i].node.properties, came)
    decreases |pattern|
  {
    hide Properties, AllHaveValues, AddNode, LoadNode;
    if pattern != [] {
      assert forall i | 1 <= i < |pattern| :: pattern[i] == pattern[1..][i - 1];
      if pattern[0].RelElem? {
        NodesSucceed(g, env, pattern[1..], came, row);
      } else {
        var n := pattern[0].node;
        PropertiesMean(env, n.properties, came);
        var props := Properties(env, n.properties, came, map[]);
        if props.Some? {
          var g' := AddNode(g, FirstName(n.labels), props.value);
          NodesSucceed(g', env, pattern[1..], came, match LoadNode(g', g.nextId) case Some(nv) => Bind(row, n.variable, nv) case None => row);
        }
      }
      if !(forall i | 0 <= i < |pattern[1..]| && pattern[1..][i].NodeElem? :: AllHaveValues(env, pattern[1..][i].node.properties, came)) {
        var i :| 0 <= i < |pattern[1..]| && pattern[1..][i].NodeElem? && !AllHaveValues(env, pattern[1..][i].node.properties, came);
        assert pattern[i + 1] == pattern[1..][i];
      }
    }
  }

  /** CREATE makes its nodes, then its edges on the graph and the row with them. */
  lemma CreateMeans(g: Graph, env: Env, pattern: Pattern, row: Row) returns (nodes: Made, at: seq<nat>, states: seq<Made>)
    requires ExecuteCreate(g, env, pattern, row).ok
    ensures NodesAre(env, NodePatterns(pattern), row, g, nodes.g) && RowIs(NodePatterns(pattern), row, nodes.g, g.nextId, nodes.row)
    ensures RelSteps(env, pattern, at, states) && states[0] == nodes && states[|at|] == ExecuteCreate(g, env, pattern, row)
    ensures forall p: nat :: IsTriple(pattern, p) <==> p in at
  {
    hide NodesAre, RowIs, CreateRels, CreateNodes, IsTriple;
    nodes := CreateNodes(g, env, pattern, row, row);
    CreateNodesMean(g, env, pattern, row, row);
    at, states := CreateRelsMean(nodes.g, env, pattern, 0, nodes.row);
    forall p: nat | p in at ensures IsTriple(pattern, p) {
      var j :| 0 <= j < |at| && at[j] == p;
    }
  }
}
