/** What a MATCH plan finds (src/cypher/planner.rs:269-371 over src/cypher/physical.rs): the walks through the graph
    that fit its pattern, said of the graph alone. */
module MatchLaws {
  import opened Frames
  import opened Ast
  import opened Plan
  import opened Graphs
  import opened Streams
  import opened Bindings
  import opened Physical
  import opened PlanLaws
  import opened Starts

  /** A walk: the nodes it passes and the relationships between them. */
  datatype Walk = Walk(nodes: seq<nat>, edges: seq<Edge>)

  /** Nodes and single-hop relationships in turn, a node first and last. */
  ghost predicate IsPath(elems: seq<MatchElem>) {
    && |elems| % 2 == 1
    && forall i | 0 <= i < |elems| ::
         if i % 2 == 0 then elems[i].MatchNode?
         else elems[i].MatchRel? && (elems[i].length == Fixed(0) || elems[i].length == Fixed(1))
  }

  /** The first `n` relationships of the pattern. */
  ghost predicate Upto(elems: seq<MatchElem>, n: nat) {
    IsPath(elems) && 2 * n < |elems|
  }

  /** The walk goes along the first `n` relationships of the pattern: it starts at a live node with the first label of
      the first node pattern, and every step is over an edge of the direction and a type asked for, to a live node. */
  ghost predicate Fits(g: Graph, elems: seq<MatchElem>, n: nat, w: Walk)
    requires Upto(elems, n)
  {
    && |w.nodes| == n + 1 && |w.edges| == n && w.nodes[0] in g.ids && Live(g, w.nodes[0])
    && (elems[0].labels != [] ==> g.nodes[w.nodes[0]].nodeLabel == Some(elems[0].labels[0]))
    && forall i: nat | i < n :: StepFits(g, elems, w, i)
  }

  ghost predicate StepFits(g: Graph, elems: seq<MatchElem>, w: Walk, i: nat)
    requires Upto(elems, i + 1) && i + 1 < |w.nodes| && i < |w.edges|
  {
    var rel := elems[2 * i + 1];
    (w.edges[i], w.nodes[i + 1]) in StepsAt(g, w.nodes[i], rel.direction) && TypeFits(rel.types, w.edges[i]) && Live(g, w.nodes[i + 1])
  }

  /** What the `i`-th node of a walk is bound to in a row. */
  ghost function NodeName(anon: nat -> string, elems: seq<MatchElem>, i: nat): string
    requires Upto(elems, i)
  {
    if elems[2 * i].variable.Some? then elems[2 * i].variable.value else if i == 0 then anon(0) else "_end_node"
  }

  ghost function RelName(elems: seq<MatchElem>, i: nat): Option<string>
    requires Upto(elems, i + 1)
  {
    elems[2 * i + 1].variable
  }

  /** Up to the `n`-th node: no two nodes or relationships have the same name, and the nodes on the way have one. */
  ghost predicate Apart(anon: nat -> string, elems: seq<MatchElem>, n: nat)
    requires Upto(elems, n)
  {
    && (forall i: nat | 0 < i < n :: elems[2 * i].variable.Some?)
    && (forall i: nat, j: nat | i < j <= n :: NodeName(anon, elems, i) != NodeName(anon, elems, j))
    && (forall i: nat, j: nat | i < n && j <= n :: RelName(elems, i) != Some(NodeName(anon, elems, j)))
    && (forall i: nat, j: nat | i < j < n && RelName(elems, i).Some? :: RelName(elems, i) != RelName(elems, j))
  }

  /** The row binds the nodes and the named relationships of the walk, and nothing else. */
  ghost predicate Tells(anon: nat -> string, g: Graph, elems: seq<MatchElem>, n: nat, w: Walk, row: Row)
    requires Upto(elems, n)
  {
    && |w.nodes| == n + 1 && |w.edges| == n
    && (forall i: nat | i <= n :: TellsNode(anon, g, elems, i, w, row))
    && (forall i: nat | i < n :: TellsRel(g, elems, i, w, row))
    && (forall x | x in row :: IsNamed(anon, elems, n, x))
  }

  ghost predicate TellsNode(anon: nat -> string, g: Graph, elems: seq<MatchElem>, i: nat, w: Walk, row: Row)
    requires Upto(elems, i) && i < |w.nodes|
  {
    var x := NodeName(anon, elems, i);
    x in row && ShowsNode(g, w.nodes[i], row[x])
  }

  ghost predicate TellsRel(g: Graph, elems: seq<MatchElem>, i: nat, w: Walk, row: Row)
    requires Upto(elems, i + 1) && i < |w.edges|
  {
    var x := RelName(elems, i);
    x.Some? ==> x.value in row && ShowsEdge(w.edges[i], row[x.value])
  }

  ghost predicate IsNamed(anon: nat -> string, elems: seq<MatchElem>, n: nat, x: string)
    requires Upto(elems, n)
  {
    (exists i: nat :: NodeIs(anon, elems, n, x, i)) || (exists i: nat :: RelIs(elems, n, x, i))
  }

  ghost predicate NodeIs(anon: nat -> string, elems: seq<MatchElem>, n: nat, x: string, i: nat)
    requires Upto(elems, n)
  {
    i <= n && NodeName(anon, elems, i) == x
  }

  ghost predicate RelIs(elems: seq<MatchElem>, n: nat, x: string, i: nat)
    requires Upto(elems, n)
  {
    i < n && RelName(elems, i) == Some(x)
  }

  /** Every row tells of a walk that fits, and every walk that fits is told of. */
  ghost predicate Finds(anon: nat -> string, g: Graph, elems: seq<MatchElem>, n: nat, rows: seq<Row>)
    requires Upto(elems, n)
  {
    && (forall row | row in rows :: exists w :: Fits(g, elems, n, w) && Tells(anon, g, elems, n, w, row))
    && (forall w | Fits(g, elems, n, w) :: ToldOf(anon, g, elems, n, w, rows))
  }

  ghost predicate ToldOf(anon: nat -> string, g: Graph, elems: seq<MatchElem>, n: nat, w: Walk, rows: seq<Row>)
    requires Upto(elems, n)
  {
    exists row :: row in rows && Tells(anon, g, elems, n, w, row)
  }

  // ---------------------------------------------------------------- one step

  ghost function Longer(w: Walk, step: (Edge, nat)): Walk {
    Walk(w.nodes + [step.1], w.edges + [step.0])
  }

  lemma FitsOn(g: Graph, elems: seq<MatchElem>, n: nat, w: Walk, step: (Edge, nat))
    requires Upto(elems, n + 1) && Fits(g, elems, n, w)
    requires step in StepsAt(g, w.nodes[n], elems[2 * n + 1].direction) && TypeFits(elems[2 * n + 1].types, step.0) && Live(g, step.1)
    ensures Fits(g, elems, n + 1, Longer(w, step))
  {
    hide StepsAt, TypeFits;
    var w' := Longer(w, step);
    assert step == (step.0, step.1);
    forall i: nat | i < n + 1 ensures StepFits(g, elems, w', i) {
      if i < n {
        assert StepFits(g, elems, w, i);
      }
    }
  }

  lemma FitsBefore(g: Graph, elems: seq<MatchElem>, n: nat, w: Walk)
    requires Upto(elems, n + 1) && Fits(g, elems, n + 1, w)
    ensures var before := Walk(w.nodes[..n + 1], w.edges[..n]);
            Fits(g, elems, n, before) && w == Longer(before, (w.edges[n], w.nodes[n + 1])) && StepFits(g, elems, w, n)
  {
    hide StepsAt, TypeFits;
    var before := Walk(w.nodes[..n + 1], w.edges[..n]);
    forall i: nat | i < n ensures StepFits(g, elems, before, i) {
      assert StepFits(g, elems, w, i);
    }
    assert w.nodes == before.nodes + [w.nodes[n + 1]] && w.edges == before.edges + [w.edges[n]];
  }

  /** The expansion that `n + 1` relationships of the pattern end with. */
  ghost predicate Expands1(anon: nat -> string, elems: seq<MatchElem>, n: nat, op: Op)
    requires Upto(elems, n + 1)
  {
    var rel := elems[2 * n + 1];
    && op.Expand? && op.direction == rel.direction && op.relTypes == rel.types && op.relVariable == rel.variable
    && op.endVariable == elems[2 * n + 2].variable && op.fromVariable == NodeName(anon, elems, n)
  }

  /** A row of the longer walk is the old row with two names more. */
  lemma TellsOn(anon: nat -> string, g: Graph, elems: seq<MatchElem>, n: nat, w: Walk, row: Row, op: Op, step: (Edge, nat), row': Row)
    requires Upto(elems, n + 1) && Apart(anon, elems, n + 1)
    requires Tells(anon, g, elems, n, w, row) && Expands1(anon, elems, n, op) && BindsHop(op, g, row, step, row')
    ensures Tells(anon, g, elems, n + 1, Longer(w, step), row')
  {
    hide TellsNode, TellsRel, IsNamed, Apart, BindsHop, Expands1;
    var w' := Longer(w, step);
    forall i: nat | i <= n + 1 ensures TellsNode(anon, g, elems, i, w', row') {
      NodeOn(anon, g, elems, n, w, row, op, step, row', i);
    }
    forall i: nat | i < n + 1 ensures TellsRel(g, elems, i, w', row') {
      RelOn(anon, g, elems, n, w, row, op, step, row', i);
    }
    forall x | x in row' ensures IsNamed(anon, elems, n + 1, x) {
      NamedOn(anon, g, elems, n, w, row, op, step, row', x);
    }
  }

  lemma NodesApart(anon: nat -> string, elems: seq<MatchElem>, n: nat, i: nat, j: nat)
    requires Upto(elems, n) && Apart(anon, elems, n) && i < j <= n
    ensures NodeName(anon, elems, i) != NodeName(anon, elems, j)
  {
  }

  lemma RelApart(anon: nat -> string, elems: seq<MatchElem>, n: nat, i: nat, j: nat)
    requires Upto(elems, n) && Apart(anon, elems, n) && i < n && j <= n
    ensures RelName(elems, i) != Some(NodeName(anon, elems, j))
  {
  }

  lemma RelsApart(anon: nat -> string, elems: seq<MatchElem>, n: nat, i: nat, j: nat)
    requires Upto(elems, n) && Apart(anon, elems, n) && i < j < n
    ensures RelName(elems, i).Some? ==> RelName(elems, i) != RelName(elems, j)
  {
  }

  lemma ApartBefore(anon: nat -> string, elems: seq<MatchElem>, n: nat)
    requires Upto(elems, n + 1) && Apart(anon, elems, n + 1)
    ensures Apart(anon, elems, n)
  {
  }

  /** What an expansion to the next node binds, by the names of the pattern. */
  lemma HopBinds(anon: nat -> string, g: Graph, elems: seq<MatchElem>, n: nat, row: Row, op: Op, step: (Edge, nat), row': Row)
    requires Upto(elems, n + 1) && Expands1(anon, elems, n, op) && BindsHop(op, g, row, step, row')
    ensures var end, rel := NodeName(anon, elems, n + 1), RelName(elems, n);
            && end in row' && ShowsNode(g, step.1, row'[end])
            && (rel.Some? && rel.value != end ==> rel.value in row' && ShowsEdge(step.0, row'[rel.value]))
            && (forall x | x in row && x != end && rel != Some(x) :: x in row' && row'[x] == row[x])
            && (forall x | x in row' :: x in row || x == end || rel == Some(x))
  {
    hide ShowsNode, ShowsEdge;
    EndName(anon, elems, n, op);
  }

  lemma NodeOn(anon: nat -> string, g: Graph, elems: seq<MatchElem>, n: nat, w: Walk, row: Row, op: Op, step: (Edge, nat), row': Row, i: nat)
    requires Upto(elems, n + 1) && Apart(anon, elems, n + 1) && i <= n + 1
    requires Tells(anon, g, elems, n, w, row) && Expands1(anon, elems, n, op) && BindsHop(op, g, row, step, row')
    ensures TellsNode(anon, g, elems, i, Longer(w, step), row')
  {
    hide ShowsNode, ShowsEdge, Apart, BindsHop, Expands1, NodeName, RelName;
    HopBinds(anon, g, elems, n, row, op, step, row');
    if i <= n {
      assert TellsNode(anon, g, elems, i, w, row);
      NodesApart(anon, elems, n + 1, i, n + 1);
      RelApart(anon, elems, n + 1, n, i);
    }
  }

  lemma RelOn(anon: nat -> string, g: Graph, elems: seq<MatchElem>, n: nat, w: Walk, row: Row, op: Op, step: (Edge, nat), row': Row, i: nat)
    requires Upto(elems, n + 1) && Apart(anon, elems, n + 1) && i < n + 1
    requires Tells(anon, g, elems, n, w, row) && Expands1(anon, elems, n, op) && BindsHop(op, g, row, step, row')
    ensures TellsRel(g, elems, i, Longer(w, step), row')
  {
    hide ShowsNode, ShowsEdge, Apart, BindsHop, Expands1, NodeName, RelName;
    HopBinds(anon, g, elems, n, row, op, step, row');
    if i < n {
      assert TellsRel(g, elems, i, w, row);
      RelsApart(anon, elems, n + 1, i, n);
    }
    RelApart(anon, elems, n + 1, i, n + 1);
  }

  lemma NamedOn(anon: nat -> string, g: Graph, elems: seq<MatchElem>, n: nat, w: Walk, row: Row, op: Op, step: (Edge, nat), row': Row, x: string)
    requires Upto(elems, n + 1) && x in row'
    requires Tells(anon, g, elems, n, w, row) && Expands1(anon, elems, n, op) && BindsHop(op, g, row, step, row')
    ensures IsNamed(anon, elems, n + 1, x)
  {
    hide ShowsNode, ShowsEdge, TellsNode, TellsRel, BindsHop, Expands1, NodeName, RelName;
    HopBinds(anon, g, elems, n, row, op, step, row');
    if x in row {
      if i: nat :| NodeIs(anon, elems, n, x, i) {
        assert NodeIs(anon, elems, n + 1, x, i);
      } else {
        var i: nat :| RelIs(elems, n, x, i);
        assert RelIs(elems, n + 1, x, i);
      }
    } else if x == NodeName(anon, elems, n + 1) {
      assert NodeIs(anon, elems, n + 1, x, n + 1);
    } else {
      assert RelIs(elems, n + 1, x, n);
    }
  }

  lemma EndName(anon: nat -> string, elems: seq<MatchElem>, n: nat, op: Op)
    requires Upto(elems, n + 1) && Expands1(anon, elems, n, op)
    ensures (if op.endVariable.Some? then op.endVariable.value else "_end_node") == NodeName(anon, elems, n + 1)
  {
    assert elems[2 * (n + 1)] == elems[2 * n + 2];
  }

  /** What one row gives: walks one step longer that fit, */
  lemma RowGives(anon: nat -> string, g: Graph, elems: seq<MatchElem>, n: nat, w: Walk, row: Row, op: Op, out: seq<Row>, row': Row) returns (step: (Edge, nat))
    requires Upto(elems, n + 1) && Apart(anon, elems, n + 1) && Fits(g, elems, n, w) && Tells(anon, g, elems, n, w, row)
    requires Expands1(anon, elems, n, op) && Expands(op, g, row, out) && row' in out
    ensures Fits(g, elems, n + 1, Longer(w, step)) && Tells(anon, g, elems, n + 1, Longer(w, step), row')
  {
    hide Fits, Tells, BindsHop, StepsAt, TypeFits, Live, Apart, Followed;
    FromNames(anon, g, elems, n, w, row, op);
    var steps := StepsAt(g, w.nodes[n], op.direction);
    var ix :| Followed(op, g, row, steps, out, ix);
    step := StepGiven(op, g, row, steps, out, ix, row');
    FitsOn(g, elems, n, w, step);
    TellsOn(anon, g, elems, n, w, row, op, step, row');
  }

  lemma StepGiven(op: Op, g: Graph, row: Row, steps: seq<(Edge, nat)>, out: seq<Row>, ix: seq<nat>, row': Row) returns (step: (Edge, nat))
    requires op.Expand? && Followed(op, g, row, steps, out, ix) && row' in out
    ensures step in steps && TypeFits(op.relTypes, step.0) && Live(g, step.1) && BindsHop(op, g, row, step, row')
  {
    hide BindsHop, TypeFits, Live;
    var k :| 0 <= k < |out| && out[k] == row';
    assert ix[k] in ix && steps[ix[k]] in steps;
    step := steps[ix[k]];
  }

  /** ... and all of them. */
  lemma RowGivesAll(anon: nat -> string, g: Graph, elems: seq<MatchElem>, n: nat, w: Walk, row: Row, op: Op, out: seq<Row>, step: (Edge, nat)) returns (row': Row)
    requires Upto(elems, n + 1) && Apart(anon, elems, n + 1) && Fits(g, elems, n + 1, Longer(w, step)) && Tells(anon, g, elems, n, w, row)
    requires Expands1(anon, elems, n, op) && Expands(op, g, row, out)
    ensures row' in out && Tells(anon, g, elems, n + 1, Longer(w, step), row')
  {
    hide Fits, Tells, BindsHop, StepsAt, TypeFits, Live, Apart;
    FromNames(anon, g, elems, n, w, row, op);
    var steps := StepsAt(g, w.nodes[n], op.direction);
    var ix :| Followed(op, g, row, steps, out, ix);
    StepOf(g, elems, n, w, step);
    var i :| 0 <= i < |steps| && steps[i] == step;
    assert i in ix;
    var k :| 0 <= k < |ix| && ix[k] == i;
    row' := out[k];
    TellsOn(anon, g, elems, n, w, row, op, step, row');
  }

  lemma FromNames(anon: nat -> string, g: Graph, elems: seq<MatchElem>, n: nat, w: Walk, row: Row, op: Op)
    requires Upto(elems, n + 1) && Tells(anon, g, elems, n, w, row) && Expands1(anon, elems, n, op)
    ensures |w.nodes| == n + 1 && |w.edges| == n && op.fromVariable in row && PlanLaws.Names(row[op.fromVariable], w.nodes[n])
  {
    assert TellsNode(anon, g, elems, n, w, row);
  }

  lemma StepOf(g: Graph, elems: seq<MatchElem>, n: nat, w: Walk, step: (Edge, nat))
    requires Upto(elems, n + 1) && |w.nodes| == n + 1 && |w.edges| == n && Fits(g, elems, n + 1, Longer(w, step))
    ensures step in StepsAt(g, w.nodes[n], elems[2 * n + 1].direction) && TypeFits(elems[2 * n + 1].types, step.0) && Live(g, step.1)
  {
    hide StepsAt, TypeFits, Live;
    assert StepFits(g, elems, Longer(w, step), n);
    assert step == (step.0, step.1);
  }

  lemma {:induction false} InFlat<T>(parts: seq<seq<T>>, x: T)
    ensures x in Flat(parts) <==> exists p :: 0 <= p < |parts| && x in parts[p]
  {
    if parts != [] {
      InFlat(parts[1..], x);
      if p :| 0 <= p < |parts[1..]| && x in parts[1..][p] {
        assert x in parts[p + 1];
      }
      if p :| 0 <= p < |parts| && x in parts[p] {
        if p > 0 {
          assert x in parts[1..][p - 1];
        }
      }
    }
  }

  /** One relationship more. */
  lemma FindsOn(anon: nat -> string, g: Graph, elems: seq<MatchElem>, n: nat, op: Op, rows: seq<Row>, parts: seq<seq<Row>>)
    requires Upto(elems, n + 1) && Apart(anon, elems, n + 1) && Finds(anon, g, elems, n, rows) && Expands1(anon, elems, n, op)
    requires |parts| == |rows| && forall i | 0 <= i < |parts| :: Expands(op, g, rows[i], parts[i])
    ensures Finds(anon, g, elems, n + 1, Flat(parts))
  {
    hide Fits, Tells, Expands, Expands1, Apart;
    var m, all := n + 1, Flat(parts);
    forall row' | row' in all ensures exists w :: Fits(g, elems, m, w) && Tells(anon, g, elems, m, w, row') {
      var w := RowTold(anon, g, elems, n, op, rows, parts, row');
    }
    forall w | Fits(g, elems, m, w) ensures ToldOf(anon, g, elems, m, w, all) {
      WalkTold(anon, g, elems, n, op, rows, parts, w);
    }
  }

  lemma RowTold(anon: nat -> string, g: Graph, elems: seq<MatchElem>, n: nat, op: Op, rows: seq<Row>, parts: seq<seq<Row>>, row': Row) returns (w: Walk)
    requires Upto(elems, n + 1) && Apart(anon, elems, n + 1) && Finds(anon, g, elems, n, rows) && Expands1(anon, elems, n, op)
    requires |parts| == |rows| && (forall i | 0 <= i < |parts| :: Expands(op, g, rows[i], parts[i])) && row' in Flat(parts)
    ensures Fits(g, elems, n + 1, w) && Tells(anon, g, elems, n + 1, w, row')
  {
    hide Fits, Tells, Expands, Expands1, Apart, ToldOf;
    InFlat(parts, row');
    var p :| 0 <= p < |parts| && row' in parts[p];
    assert rows[p] in rows;
    var w0 :| Fits(g, elems, n, w0) && Tells(anon, g, elems, n, w0, rows[p]);
    var step := RowGives(anon, g, elems, n, w0, rows[p], op, parts[p], row');
    w := Longer(w0, step);
  }

  lemma WalkTold(anon: nat -> string, g: Graph, elems: seq<MatchElem>, n: nat, op: Op, rows: seq<Row>, parts: seq<seq<Row>>, w: Walk)
    requires Upto(elems, n + 1) && Apart(anon, elems, n + 1) && Finds(anon, g, elems, n, rows) && Expands1(anon, elems, n, op)
    requires |parts| == |rows| && (forall i | 0 <= i < |parts| :: Expands(op, g, rows[i], parts[i])) && Fits(g, elems, n + 1, w)
    ensures ToldOf(anon, g, elems, n + 1, w, Flat(parts))
  {
    hide Fits, Tells, Expands, Expands1, Apart;
    SizesOf(g, elems, n + 1, w);
    FitsBefore(g, elems, n, w);
    var before, step := Walk(w.nodes[..n + 1], w.edges[..n]), (w.edges[n], w.nodes[n + 1]);
    assert ToldOf(anon, g, elems, n, before, rows);
    var row :| row in rows && Tells(anon, g, elems, n, before, row);
    var p :| 0 <= p < |rows| && rows[p] == row;
    var row' := RowGivesAll(anon, g, elems, n, before, row, op, parts[p], step);
    InFlat(parts, row');
  }

  lemma SizesOf(g: Graph, elems: seq<MatchElem>, n: nat, w: Walk)
    requires Upto(elems, n) && Fits(g, elems, n, w)
    ensures |w.nodes| == n + 1 && |w.edges| == n
  {
  }

  // ---------------------------------------------------------------- the plan

  /** The scan for the first node, under its name. */
  ghost predicate ScansFirst(anon: nat -> string, elems: seq<MatchElem>, op: Op)
    requires Upto(elems, 0)
  {
    && op.Project? && |op.projections| == 1 && op.projections[0].expression == Var("_node")
    && op.projections[0].name == NodeName(anon, elems, 0)
    && op.input == (if elems[0].labels == [] then AllNodesScan else NodeByLabelScan(elems[0].labels[0]))
  }

  /** It finds the walks without a step. */
  lemma ScanFinds(anon: nat -> string, g: Graph, env: Env, elems: seq<MatchElem>, op: Op)
    requires Upto(elems, 0) && LooksUp(env) && ScansFirst(anon, elems, op)
    ensures ReadOnly(op) && Gather(Denote(op, g, env)).Some? && Finds(anon, g, elems, 0, Gather(Denote(op, g, env)).value)
  {
    hide Gather, Scanned, Projected, AllEvaluate, LooksUp, Finds;
    var l := if elems[0].labels == [] then None else Some(elems[0].labels[0]);
    var ix := ScanMeans(op.input, g, env);
    ProjectMeans(op.input, op.projections, g, env);
    assert op == Project(op.input, op.projections);
    var rows := Gather(Denote(op.input, g, env)).value;
    forall i | 0 <= i < |rows| ensures AllEvaluate(env, op.projections, rows[i]) {
      ScannedAt(g, l, rows, ix, i);
      NodeEvaluates(env, op.projections, rows[i]);
    }
    var out := Gather(Denote(op, g, env)).value;
    FindsFirst(anon, g, env, elems, op, rows, out, ix);
  }

  lemma ScannedAt(g: Graph, l: Option<string>, rows: seq<Row>, ix: seq<nat>, i: nat)
    requires Scanned(g, g.ids, l, rows, ix) && i < |rows|
    ensures |ix| == |rows| && ix[i] < |g.ids| && ShowsRow(g, g.ids[ix[i]], rows[i]) && Live(g, g.ids[ix[i]]) && Labelled(g, g.ids[ix[i]], l)
  {
    hide ShowsRow, Live, Labelled;
    assert ix[i] in ix;
  }

  lemma NodeEvaluates(env: Env, ps: seq<Projection>, row: Row)
    requires LooksUp(env) && |ps| == 1 && ps[0].expression == Var("_node") && "_node" in row
    ensures AllEvaluate(env, ps, row) && env.eval(ps[0].expression, row) == Some(row["_node"])
  {
  }

  /** A projected row tells of the scanned node. */
  lemma TellsFirst(anon: nat -> string, g: Graph, env: Env, elems: seq<MatchElem>, op: Op, id: nat, row: Row, out: Row)
    requires Upto(elems, 0) && LooksUp(env) && ScansFirst(anon, elems, op)
    requires ShowsRow(g, id, row) && Projected(env, op.projections, row, out)
    ensures Tells(anon, g, elems, 0, Walk([id], []), out)
  {
    hide ShowsNode, LooksUp;
    NodeEvaluates(env, op.projections, row);
    var values :| ProjectedTo(env, op.projections, row, values, out);
    var names, x := ProjectedNames(op.projections), NodeName(anon, elems, 0);
    assert names == [x] && values[0] == row["_node"];
    assert LastNamed(names, 0);
    assert TellsNode(anon, g, elems, 0, Walk([id], []), out);
    forall y | y in out ensures IsNamed(anon, elems, 0, y) {
      assert y in names;
      assert NodeIs(anon, elems, 0, y, 0);
    }
  }

  lemma FindsFirst(anon: nat -> string, g: Graph, env: Env, elems: seq<MatchElem>, op: Op, rows: seq<Row>, out: seq<Row>, ix: seq<nat>)
    requires Upto(elems, 0) && LooksUp(env) && ScansFirst(anon, elems, op)
    requires Scanned(g, g.ids, if elems[0].labels == [] then None else Some(elems[0].labels[0]), rows, ix)
    requires |out| == |rows| && forall i | 0 <= i < |rows| :: Projected(env, op.projections, rows[i], out[i])
    ensures Finds(anon, g, elems, 0, out)
  {
    hide Projected, LooksUp, Tells, ScansFirst, ShowsRow;
    var l := if elems[0].labels == [] then None else Some(elems[0].labels[0]);
    forall row | row in out ensures exists w :: Fits(g, elems, 0, w) && Tells(anon, g, elems, 0, w, row) {
      var i :| 0 <= i < |out| && out[i] == row;
      ScannedAt(g, l, rows, ix, i);
      TellsFirst(anon, g, env, elems, op, g.ids[ix[i]], rows[i], row);
      assert Fits(g, elems, 0, Walk([g.ids[ix[i]]], []));
    }
    forall w | Fits(g, elems, 0, w) ensures ToldOf(anon, g, elems, 0, w, out) {
      var j :| 0 <= j < |g.ids| && g.ids[j] == w.nodes[0];
      assert j in ix;
      var i :| 0 <= i < |ix| && ix[i] == j;
      TellsFirst(anon, g, env, elems, op, g.ids[j], rows[i], out[i]);
      assert w == Walk([g.ids[j]], []);
      assert out[i] in out;
    }
  }

  /** The plan after the `n`-th relationship and its node. */
  lemma PlanAt(anon: nat -> string, elems: seq<MatchElem>, plans: seq<Option<Op>>, n: nat)
    requires Upto(elems, n) && Apart(anon, elems, n) && PlanBuilt(anon, elems, 0, plans) && plans[0] == None
    ensures plans[2 * n + 1].Some?
    ensures n == 0 ==> ScansFirst(anon, elems, plans[1].value)
    ensures n > 0 ==> plans[2 * n - 1].Some? && Upto(elems, n - 1 + 1) && Expands1(anon, elems, n - 1, plans[2 * n + 1].value)
                      && plans[2 * n + 1].value.input == plans[2 * n - 1].value
  {
    hide PlanGrows;
    if n == 0 {
      assert GrowsAt(anon, elems, 0, plans, 0);
      FirstGrows(anon, elems, plans[1].value);
    } else {
      var k := 2 * n - 1;
      assert GrowsAt(anon, elems, 0, plans, k - 1);
      assert GrowsAt(anon, elems, 0, plans, k);
      assert GrowsAt(anon, elems, 0, plans, k + 1);
      NodeGrows(anon, elems, k + 1, plans[k + 1].value, plans[k + 2].value);
      RelGrows(anon, elems, n - 1, plans[k].value, plans[k + 1].value);
    }
  }

  lemma FirstGrows(anon: nat -> string, elems: seq<MatchElem>, op: Op)
    requires Upto(elems, 0) && PlanGrows(anon, elems, 0, None, op)
    ensures ScansFirst(anon, elems, op)
  {
  }

  lemma NodeGrows(anon: nat -> string, elems: seq<MatchElem>, i: nat, before: Op, op: Op)
    requires i < |elems| && elems[i].MatchNode? && PlanGrows(anon, elems, i, Some(before), op)
    ensures op == before
  {
  }

  lemma RelGrows(anon: nat -> string, elems: seq<MatchElem>, n: nat, before: Op, op: Op)
    requires Upto(elems, n + 1) && (n > 0 ==> elems[2 * n].variable.Some?) && PlanGrows(anon, elems, 2 * n + 1, Some(before), op)
    ensures Expands1(anon, elems, n, op) && op.input == before
  {
    var i := 2 * n + 1;
    assert i % 2 == 1 && elems[i].MatchRel? && elems[i + 1].MatchNode? && elems[i - 1].MatchNode?;
    var from :| LastName(anon, elems, i, from) && Follows(elems[i], before, elems[i + 1].variable, from, op);
    assert elems[2 * n].MatchNode?;
    var j: nat :| NameAt(anon, elems, i, from, j);
    assert j == 2 * n;
  }

  /** A MATCH plan for a path pattern whose nodes and relationships all have names of their own finds exactly the
      walks that fit it, in every graph. */
  lemma {:induction false} MatchFinds(anon: nat -> string, elems: seq<MatchElem>, plans: seq<Option<Op>>, n: nat, g: Graph, env: Env)
    requires Upto(elems, n) && Apart(anon, elems, n) && LooksUp(env) && PlanBuilt(anon, elems, 0, plans) && plans[0] == None
    ensures plans[2 * n + 1].Some? && ReadOnly(plans[2 * n + 1].value)
    ensures var rows := Gather(Denote(plans[2 * n + 1].value, g, env)); rows.Some? && Finds(anon, g, elems, n, rows.value)
  {
    hide Finds, Apart, LooksUp, PlanBuilt, Gather, Expands1, ScansFirst, Denote, ReadOnly;
    Built(anon, elems, plans);
    PlanAt(anon, elems, plans, n);
    var op := plans[2 * n + 1].value;
    if n == 0 {
      ScanFinds(anon, g, env, elems, op);
    } else {
      ApartBefore(anon, elems, n - 1);
      MatchFinds(anon, elems, plans, n - 1, g, env);
      StepFinds(anon, elems, n - 1, g, env, op);
    }
  }

  lemma StepFinds(anon: nat -> string, elems: seq<MatchElem>, n: nat, g: Graph, env: Env, op: Op)
    requires Upto(elems, n + 1) && Apart(anon, elems, n + 1) && Expands1(anon, elems, n, op) && ReadOnly(op.input)
    requires var rows := Gather(Denote(op.input, g, env)); rows.Some? && Finds(anon, g, elems, n, rows.value)
    ensures ReadOnly(op)
    ensures var rows := Gather(Denote(op, g, env)); rows.Some? && Finds(anon, g, elems, n + 1, rows.value)
  {
    ExpansionReads(anon, elems, n, op);
    hide Finds, Apart, Gather, Expands1, Denote, ReadOnly;
    var parts := PlanLaws.ExpandMeans(op, g, env);
    FindsOn(anon, g, elems, n, op, Gather(Denote(op.input, g, env)).value, parts);
  }

  lemma ExpansionReads(anon: nat -> string, elems: seq<MatchElem>, n: nat, op: Op)
    requires Upto(elems, n + 1) && Expands1(anon, elems, n, op) && ReadOnly(op.input)
    ensures op.Expand? && ReadOnly(op)
  {
  }

  /** So is the plan that `build_match_plan` makes. */
  lemma MatchMeans(anon: nat -> string, elems: seq<MatchElem>, g: Graph, env: Env)
    requires IsPath(elems) && Apart(anon, elems, |elems| / 2) && LooksUp(env)
    ensures var plan := MatchFrom(anon, elems, 0, None, None);
            && plan.Some? && ReadOnly(plan.value)
            && var rows := Gather(Denote(plan.value, g, env));
               rows.Some? && Finds(anon, g, elems, |elems| / 2, rows.value)
  {
    hide Finds, Apart, LooksUp, PlanBuilt, Gather, MatchFrom;
    var plans := MatchPlanIs(anon, elems, 0, None, None);
    assert 2 * (|elems| / 2) + 1 == |elems|;
    MatchFinds(anon, elems, plans, |elems| / 2, g, env);
    Built(anon, elems, plans);
  }

  lemma Built(anon: nat -> string, elems: seq<MatchElem>, plans: seq<Option<Op>>)
    requires PlanBuilt(anon, elems, 0, plans)
    ensures |plans| == |elems| + 1
  {
  }

  // ---------------------------------------------------------------- how far the pattern is honoured

  /** Names of its own: all variables differ, and none is one that the planner gives. */
  ghost predicate OwnNames(anon: nat -> string, elems: seq<MatchElem>) {
    && (forall i, j | 0 <= i < j < |elems| && elems[i].variable.Some? :: elems[i].variable != elems[j].variable)
    && (forall i | 0 <= i < |elems| :: elems[i].variable != Some("_end_node"))
    && (forall i, k: nat | 0 <= i < |elems| :: elems[i].variable != Some(anon(k)))
    && (forall k: nat :: anon(k) != "_end_node") && (forall j: nat, k: nat | j < k :: anon(j) != anon(k))
  }

  /** The nodes between the first and the `n`-th have variables. */
  ghost predicate WayNamed(elems: seq<MatchElem>, n: nat)
    requires Upto(elems, n)
  {
    forall i: nat | 0 < i < n :: elems[2 * i].variable.Some?
  }

  lemma OwnApart(anon: nat -> string, elems: seq<MatchElem>, n: nat)
    requires Upto(elems, n) && OwnNames(anon, elems) && WayNamed(elems, n)
    ensures Apart(anon, elems, n)
  {
    forall i: nat, j: nat | i < j <= n ensures NodeName(anon, elems, i) != NodeName(anon, elems, j) {
      assert elems[2 * i].variable.Some? ==> elems[2 * i].variable != elems[2 * j].variable;
    }
    forall i: nat, j: nat | i < n && j <= n ensures RelName(elems, i) != Some(NodeName(anon, elems, j)) {
      var a, b := 2 * i + 1, 2 * j;
      if a < b {
        assert elems[a].variable.Some? ==> elems[a].variable != elems[b].variable;
      } else {
        assert elems[b].variable.Some? ==> elems[b].variable != elems[a].variable;
      }
    }
    forall i: nat, j: nat | i < j < n && RelName(elems, i).Some? ensures RelName(elems, i) != RelName(elems, j) {
      assert elems[2 * i + 1].variable != elems[2 * j + 1].variable;
    }
  }

  /** The walk fits the pattern with all its labels. */
  ghost predicate FitsLabels(g: Graph, elems: seq<MatchElem>, n: nat, w: Walk)
    requires Upto(elems, n)
  {
    Fits(g, elems, n, w) && forall i: nat | i <= n :: HasLabels(g, elems[2 * i].labels, w.nodes[i])
  }

  ghost predicate HasLabels(g: Graph, labels: seq<string>, id: nat) {
    forall j | 0 <= j < |labels| :: id in g.nodes && g.nodes[id].nodeLabel == Some(labels[j])
  }

  /** The rows tell of exactly the walks that fit the whole pattern. */
  ghost predicate Honours(anon: nat -> string, g: Graph, elems: seq<MatchElem>, n: nat, rows: seq<Row>)
    requires Upto(elems, n)
  {
    && (forall row | row in rows :: exists w :: FitsLabels(g, elems, n, w) && Tells(anon, g, elems, n, w, row))
    && (forall w | FitsLabels(g, elems, n, w) :: ToldOf(anon, g, elems, n, w, rows))
  }

  /** Only the first node has a label, and only one. */
  ghost predicate LabelledFirst(elems: seq<MatchElem>)
    requires IsPath(elems)
  {
    && (forall j | 0 <= j < |elems[0].labels| :: elems[0].labels[j] == elems[0].labels[0])
    && (forall i: nat | 0 < i && 2 * i < |elems| :: elems[2 * i].labels == [])
  }

  /** A row tells of one walk's nodes alone. */
  lemma TellsOnce(anon: nat -> string, g: Graph, elems: seq<MatchElem>, n: nat, w: Walk, w': Walk, row: Row)
    requires Upto(elems, n) && Tells(anon, g, elems, n, w, row) && Tells(anon, g, elems, n, w', row)
    ensures w.nodes == w'.nodes
  {
    hide TellsRel, IsNamed;
    forall i: nat | i <= n ensures w.nodes[i] == w'.nodes[i] {
      assert TellsNode(anon, g, elems, i, w, row) && TellsNode(anon, g, elems, i, w', row);
    }
  }

  // ---- a node on the way without a variable

  /** The next expansion starts from a name that no row has. */
  lemma UnnamedGives(anon: nat -> string, elems: seq<MatchElem>, m: nat, g: Graph, op: Op, row: Row, out: seq<Row>)
    requires Upto(elems, m + 1) && 0 < m && elems[2 * m].variable.None? && OwnNames(anon, elems)
    requires op.Expand? && op.fromVariable == anon(2 * m) && Expands(op, g, row, out)
    requires forall x | x in row :: IsNamed(anon, elems, m, x)
    ensures out == []
  {
    assert op.fromVariable !in row by {
      if op.fromVariable in row {
        NotNamed(anon, elems, m);
      }
    }
  }

  lemma NotNamed(anon: nat -> string, elems: seq<MatchElem>, m: nat)
    requires Upto(elems, m + 1) && 0 < m && elems[2 * m].variable.None? && OwnNames(anon, elems)
    ensures !IsNamed(anon, elems, m, anon(2 * m))
  {
    var x := anon(2 * m);
    forall i: nat | i <= m ensures NodeName(anon, elems, i) != x {
      assert elems[2 * i].variable != Some(anon(2 * m));
      assert anon(0) != anon(2 * m) && anon(2 * m) != "_end_node";
    }
    forall i: nat | i < m ensures RelName(elems, i) != Some(x) {
      assert elems[2 * i + 1].variable != Some(anon(2 * m));
    }
  }

  lemma UnnamedFrom(anon: nat -> string, elems: seq<MatchElem>, m: nat, before: Op, op: Op)
    requires Upto(elems, m + 1) && elems[2 * m].variable.None? && PlanGrows(anon, elems, 2 * m + 1, Some(before), op)
    ensures op.Expand? && op.input == before && op.fromVariable == anon(2 * m)
  {
    var i := 2 * m + 1;
    assert i % 2 == 1 && elems[i].MatchRel? && elems[i + 1].MatchNode? && elems[2 * m].MatchNode?;
    var from :| LastName(anon, elems, i, from) && Follows(elems[i], before, elems[i + 1].variable, from, op);
    var j: nat :| NameAt(anon, elems, i, from, j);
    assert j == 2 * m;
  }

  /** The plan after the `n`-th relationship, as an expansion of the one before. */
  lemma AnyPlanAt(anon: nat -> string, elems: seq<MatchElem>, plans: seq<Option<Op>>, n: nat)
    requires Upto(elems, n + 1) && PlanBuilt(anon, elems, 0, plans)
    ensures |plans| == |elems| + 1 && plans[2 * n + 1].Some? && plans[2 * n + 3].Some?
    ensures PlanGrows(anon, elems, 2 * n + 1, plans[2 * n + 1], plans[2 * n + 3].value)
    ensures var op := plans[2 * n + 3].value; op.Expand? && op.input == plans[2 * n + 1].value
  {
    hide PlanGrows;
    var k := 2 * n + 1;
    assert GrowsAt(anon, elems, 0, plans, k - 1);
    assert GrowsAt(anon, elems, 0, plans, k);
    assert GrowsAt(anon, elems, 0, plans, k + 1);
    assert (k + 1) % 2 == 0 && elems[k + 1].MatchNode?;
    NodeGrows(anon, elems, k + 1, plans[k + 1].value, plans[k + 2].value);
    RelIsExpand(anon, elems, n, plans[k].value, plans[k + 1].value);
  }

  lemma RelIsExpand(anon: nat -> string, elems: seq<MatchElem>, n: nat, before: Op, op: Op)
    requires Upto(elems, n + 1) && PlanGrows(anon, elems, 2 * n + 1, Some(before), op)
    ensures op.Expand? && op.input == before
  {
    assert (2 * n + 1) % 2 == 1 && elems[2 * n + 1].MatchRel?;
  }

  /** From the first unnamed node on the way on, the plan gives no row. */
  lemma {:induction false} UnnamedLoses(anon: nat -> string, elems: seq<MatchElem>, plans: seq<Option<Op>>, m: nat, n: nat, g: Graph, env: Env)
    requires Upto(elems, n) && 0 < m < n && elems[2 * m].variable.None? && OwnNames(anon, elems) && WayNamed(elems, m) && LooksUp(env)
    requires PlanBuilt(anon, elems, 0, plans) && plans[0] == None
    ensures |plans| == |elems| + 1 && plans[2 * n + 1].Some? && ReadOnly(plans[2 * n + 1].value)
    ensures Gather(Denote(plans[2 * n + 1].value, g, env)) == Some([])
    decreases n
  {
    hide OwnNames, LooksUp, PlanBuilt, Gather, Denote, ReadOnly, PlanGrows, Finds, WayNamed, Apart;
    AnyPlanAt(anon, elems, plans, n - 1);
    var op := plans[2 * n + 1].value;
    var parts: seq<seq<Row>>;
    if n == m + 1 {
      OwnApart(anon, elems, m);
      MatchFinds(anon, elems, plans, m, g, env);
      ExpandReads(op);
      parts := PlanLaws.ExpandMeans(op, g, env);
      UnnamedFrom(anon, elems, m, op.input, op);
      var rows := Gather(Denote(op.input, g, env)).value;
      forall i | 0 <= i < |parts| ensures parts[i] == [] {
        FoundNamed(anon, g, elems, m, rows, rows[i]);
        UnnamedGives(anon, elems, m, g, op, rows[i], parts[i]);
      }
    } else {
      UnnamedLoses(anon, elems, plans, m, n - 1, g, env);
      ExpandReads(op);
      parts := PlanLaws.ExpandMeans(op, g, env);
    }
    NothingFlat(parts);
  }

  lemma FoundNamed(anon: nat -> string, g: Graph, elems: seq<MatchElem>, n: nat, rows: seq<Row>, row: Row)
    requires Upto(elems, n) && Finds(anon, g, elems, n, rows) && row in rows
    ensures forall x | x in row :: IsNamed(anon, elems, n, x)
  {
    var w :| Fits(g, elems, n, w) && Tells(anon, g, elems, n, w, row);
  }

  lemma {:induction false} NothingFlat<T>(parts: seq<seq<T>>)
    requires forall i | 0 <= i < |parts| :: parts[i] == []
    ensures Flat(parts) == []
  {
    if parts != [] {
      NothingFlat(parts[1..]);
    }
  }

  // ---- a graph with a walk that fits

  /** The edge for the `i`-th relationship, between nodes `i` and `i + 1`. */
  function PathEdge(elems: seq<MatchElem>, k: nat, i: nat): Edge
    requires 2 * i + 1 < |elems| && elems[2 * i + 1].MatchRel?
  {
    var rel := elems[2 * i + 1];
    var back := rel.direction == Incoming;
    Edge(k + 1 + i, if rel.types == [] then None else Some(rel.types[0]), if back then i + 1 else i, if back then i else i + 1, map[])
  }

  /** The edges that leave node `n`, or reach it. */
  ghost function PathList(elems: seq<MatchElem>, k: nat, n: nat, outward: bool): seq<Edge>
    requires Upto(elems, k) && n <= k
  {
    (if n < k && (elems[2 * n + 1].direction == Incoming) != outward then [PathEdge(elems, k, n)] else [])
    + (if n > 0 && (elems[2 * (n - 1) + 1].direction == Incoming) == outward then [PathEdge(elems, k, n - 1)] else [])
  }

  /** A path as long as the pattern, its nodes labelled so. */
  ghost function PathGraph(elems: seq<MatchElem>, k: nat, labels: seq<Option<string>>): Graph
    requires Upto(elems, k) && |labels| == k + 1
  {
    Graph(seq(k + 1, i => i),
          map n: nat | n <= k :: NodeRec(labels[n], map[], false),
          map n: nat | n <= k :: PathList(elems, k, n, true),
          map n: nat | n <= k :: PathList(elems, k, n, false),
          2 * k + 1)
  }

  lemma PathListIs(elems: seq<MatchElem>, k: nat, n: nat, outward: bool, e: Edge)
    requires Upto(elems, k) && n <= k
    ensures e in PathList(elems, k, n, outward) <==> IsPathEdge(elems, k, e) && (if outward then e.source else e.target) == n
  {
    hide PathEdge;
    if n < k {
      PathEdgeAt(elems, k, n);
    }
    if n > 0 {
      PathEdgeAt(elems, k, n - 1);
    }
    if i: nat :| i < k && e == PathEdge(elems, k, i) {
      PathEdgeAt(elems, k, i);
    }
  }

  lemma PathEdgeAt(elems: seq<MatchElem>, k: nat, i: nat)
    requires Upto(elems, k) && i < k
    ensures var e, back := PathEdge(elems, k, i), elems[2 * i + 1].direction == Incoming;
            e.source == (if back then i + 1 else i) && e.target == (if back then i else i + 1)
  {
  }

  lemma PathWellFormed(elems: seq<MatchElem>, k: nat, labels: seq<Option<string>>)
    requires Upto(elems, k) && |labels| == k + 1
    ensures WellFormed(PathGraph(elems, k, labels))
  {
    var g := PathGraph(elems, k, labels);
    hide PathEdge;
    forall e ensures (HasOut(g, e) <==> IsPathEdge(elems, k, e)) && (HasIn(g, e) <==> IsPathEdge(elems, k, e)) {
      PathHas(elems, k, labels, e);
    }
    forall e, f | IsPathEdge(elems, k, e) && IsPathEdge(elems, k, f) && e.id == f.id ensures e == f {
      PathIds(elems, k, e, f);
    }
    assert Mirrored(g);
    forall n, i | n in g.outgoing && 0 <= i < |g.outgoing[n]|
      ensures g.outgoing[n][i].target < g.nextId && g.outgoing[n][i].source == n && g.outgoing[n][i].id < g.nextId
    {
      PathListIs(elems, k, n, true, g.outgoing[n][i]);
      PathEnds(elems, k, g.outgoing[n][i]);
    }
    forall n, i | n in g.incoming && 0 <= i < |g.incoming[n]|
      ensures g.incoming[n][i].source < g.nextId && g.incoming[n][i].target == n && g.incoming[n][i].id < g.nextId
    {
      PathListIs(elems, k, n, false, g.incoming[n][i]);
      PathEnds(elems, k, g.incoming[n][i]);
    }
    forall n: nat | n <= k ensures DistinctIds(g.outgoing[n]) && DistinctIds(g.incoming[n]) {
      PathDistinct(elems, k, n, true);
      PathDistinct(elems, k, n, false);
    }
  }

  ghost predicate IsPathEdge(elems: seq<MatchElem>, k: nat, e: Edge)
    requires Upto(elems, k)
  {
    exists i: nat :: i < k && e == PathEdge(elems, k, i)
  }

  lemma PathEnds(elems: seq<MatchElem>, k: nat, e: Edge)
    requires Upto(elems, k) && IsPathEdge(elems, k, e)
    ensures e.source <= k && e.target <= k && e.id < 2 * k + 1
  {
  }

  lemma PathIds(elems: seq<MatchElem>, k: nat, e: Edge, f: Edge)
    requires Upto(elems, k) && IsPathEdge(elems, k, e) && IsPathEdge(elems, k, f) && e.id == f.id
    ensures e == f
  {
  }

  lemma PathHas(elems: seq<MatchElem>, k: nat, labels: seq<Option<string>>, e: Edge)
    requires Upto(elems, k) && |labels| == k + 1
    ensures var g := PathGraph(elems, k, labels);
            (HasOut(g, e) <==> IsPathEdge(elems, k, e)) && (HasIn(g, e) <==> IsPathEdge(elems, k, e))
  {
    hide PathList;
    if e.source <= k {
      PathListIs(elems, k, e.source, true, e);
    }
    if e.target <= k {
      PathListIs(elems, k, e.target, false, e);
    }
    if IsPathEdge(elems, k, e) {
      PathEnds(elems, k, e);
    }
  }

  lemma PathDistinct(elems: seq<MatchElem>, k: nat, n: nat, outward: bool)
    requires Upto(elems, k) && n <= k
    ensures DistinctIds(PathList(elems, k, n, outward))
  {
  }

  ghost function PathWalk(elems: seq<MatchElem>, k: nat): Walk
    requires Upto(elems, k)
  {
    Walk(seq(k + 1, i => i), seq(k, i requires 0 <= i < k => PathEdge(elems, k, i)))
  }

  /** The path itself fits, if its first node has the pattern's label. */
  lemma PathFits(elems: seq<MatchElem>, k: nat, labels: seq<Option<string>>)
    requires Upto(elems, k) && |labels| == k + 1 && (elems[0].labels != [] ==> labels[0] == Some(elems[0].labels[0]))
    ensures Fits(PathGraph(elems, k, labels), elems, k, PathWalk(elems, k))
  {
    var g, w := PathGraph(elems, k, labels), PathWalk(elems, k);
    assert w.nodes[0] == 0 && g.ids[0] == 0;
    forall i: nat | i < k ensures StepFits(g, elems, w, i) {
      PathStep(elems, k, labels, i);
    }
  }

  lemma PathStep(elems: seq<MatchElem>, k: nat, labels: seq<Option<string>>, i: nat)
    requires Upto(elems, k) && |labels| == k + 1 && i < k
    ensures StepFits(PathGraph(elems, k, labels), elems, PathWalk(elems, k), i)
  {
    hide StepsAt, PathGraph, PathEdge, TypeFits, Live;
    PathStepAt(elems, k, labels, i);
    PathStepIs(elems, k, labels, i);
    var w := PathWalk(elems, k);
    assert w.edges[i] == PathEdge(elems, k, i) && w.nodes[i] == i && w.nodes[i + 1] == i + 1;
  }

  lemma PathStepIs(elems: seq<MatchElem>, k: nat, labels: seq<Option<string>>, i: nat)
    requires Upto(elems, k) && |labels| == k + 1 && i < k
    ensures TypeFits(elems[2 * i + 1].types, PathEdge(elems, k, i)) && Live(PathGraph(elems, k, labels), i + 1)
  {
    hide PathList;
    var types, e := elems[2 * i + 1].types, PathEdge(elems, k, i);
    assert types != [] ==> e.relType == Some(types[0]);
  }

  lemma PathStepAt(elems: seq<MatchElem>, k: nat, labels: seq<Option<string>>, i: nat)
    requires Upto(elems, k) && |labels| == k + 1 && i < k
    ensures (PathEdge(elems, k, i), i + 1) in StepsAt(PathGraph(elems, k, labels), i, elems[2 * i + 1].direction)
  {
    hide TypeFits, Live;
    var g, direction, e := PathGraph(elems, k, labels), elems[2 * i + 1].direction, PathEdge(elems, k, i);
    assert PathList(elems, k, i, direction != Incoming)[0] == e;
    var out := if direction != Incoming then g.outgoing[i] else [];
    var inc := if direction != Outgoing then g.incoming[i] else [];
    assert StepsAt(g, i, direction) == Ends(out, true) + Ends(inc, false);
    if direction == Incoming {
      assert Ends(inc, false)[0] == (e, i + 1);
    } else {
      assert Ends(out, true)[0] == (e, i + 1);
    }
  }

  // ---- exactly when

  /** In graph `g` the plan for the pattern gives exactly the walks that fit the whole pattern. */
  ghost predicate Honoured(anon: nat -> string, elems: seq<MatchElem>, g: Graph, env: Env)
    requires IsPath(elems)
  {
    var plan := MatchFrom(anon, elems, 0, None, None);
    && plan.Some? && ReadOnly(plan.value)
    && var rows := Gather(Denote(plan.value, g, env));
       rows.Some? && Honours(anon, g, elems, |elems| / 2, rows.value)
  }

  /** No node pattern asks for two labels. */
  ghost predicate CanFit(elems: seq<MatchElem>)
    requires IsPath(elems)
  {
    forall i: nat, j | 2 * i < |elems| && 0 <= j < |elems[2 * i].labels| :: elems[2 * i].labels[j] == elems[2 * i].labels[0]
  }

  /** MATCH honours its pattern in every graph exactly if every node on the way has a variable and no node but the first
      has a label, and that one only one; or if a node on the way has no variable and the pattern cannot fit anything.
      For path patterns of single-hop relationships whose variables are their own. */
  lemma HonouredIff(anon: nat -> string, elems: seq<MatchElem>, env: Env)
    requires IsPath(elems) && OwnNames(anon, elems) && LooksUp(env)
    ensures var named := WayNamed(elems, |elems| / 2);
            (forall g | WellFormed(g) :: Honoured(anon, elems, g, env)) <==> if named then LabelledFirst(elems) else !CanFit(elems)
  {
    hide OwnNames, LooksUp, Honoured, LabelledFirst, CanFit, WellFormed;
    var k := |elems| / 2;
    if WayNamed(elems, k) {
      if LabelledFirst(elems) {
        forall g | WellFormed(g) ensures Honoured(anon, elems, g, env) {
          HonouredWhere(anon, elems, g, env);
        }
      } else {
        var g := LabelsLost(anon, elems, env);
      }
    } else if CanFit(elems) {
      var g := WalkLost(anon, elems, env);
    } else {
      forall g | WellFormed(g) ensures Honoured(anon, elems, g, env) {
        NothingFits(anon, elems, g, env);
      }
    }
  }

  lemma HonouredWhere(anon: nat -> string, elems: seq<MatchElem>, g: Graph, env: Env)
    requires IsPath(elems) && OwnNames(anon, elems) && LooksUp(env) && WayNamed(elems, |elems| / 2) && LabelledFirst(elems)
    ensures Honoured(anon, elems, g, env)
  {
    var k := |elems| / 2;
    OwnApart(anon, elems, k);
    hide OwnNames, LooksUp, Gather, Denote, ReadOnly, MatchFrom, Apart, Tells, WayNamed;
    MatchMeans(anon, elems, g, env);
    forall w ensures FitsLabels(g, elems, k, w) <==> Fits(g, elems, k, w) {
      SameFit(g, elems, w);
    }
  }

  lemma SameFit(g: Graph, elems: seq<MatchElem>, w: Walk)
    requires IsPath(elems) && LabelledFirst(elems)
    ensures FitsLabels(g, elems, |elems| / 2, w) <==> Fits(g, elems, |elems| / 2, w)
  {
    var k := |elems| / 2;
    hide StepFits;
    if Fits(g, elems, k, w) {
      forall i: nat | i <= k ensures HasLabels(g, elems[2 * i].labels, w.nodes[i]) {
        assert i > 0 ==> elems[2 * i].labels == [];
      }
    }
  }

  /** The plan finds a walk without the labels asked for. */
  lemma LabelsLost(anon: nat -> string, elems: seq<MatchElem>, env: Env) returns (g: Graph)
    requires IsPath(elems) && OwnNames(anon, elems) && LooksUp(env) && WayNamed(elems, |elems| / 2) && !LabelledFirst(elems)
    ensures WellFormed(g) && !Honoured(anon, elems, g, env)
  {
    var k, w := |elems| / 2, Walk([], []);
    g, w := GraphWithout(elems);
    OwnApart(anon, elems, k);
    hide OwnNames, LooksUp, Gather, Denote, ReadOnly, MatchFrom, Apart, Tells, WayNamed, Fits, WellFormed, LabelledFirst, HasAll, FitsLabels;
    MatchMeans(anon, elems, g, env);
    var rows := Gather(Denote(MatchFrom(anon, elems, 0, None, None).value, g, env)).value;
    assert ToldOf(anon, g, elems, k, w, rows);
    var row :| row in rows && Tells(anon, g, elems, k, w, row);
    forall w' | Tells(anon, g, elems, k, w', row) ensures !FitsLabels(g, elems, k, w') {
      TellsOnce(anon, g, elems, k, w', w, row);
      Unfit(g, elems, k, w, w');
    }
  }

  /** Each node of the walk has the labels asked for. */
  ghost predicate HasAll(g: Graph, elems: seq<MatchElem>, k: nat, nodes: seq<nat>)
    requires Upto(elems, k)
  {
    |nodes| == k + 1 && forall i: nat | i <= k :: HasLabels(g, elems[2 * i].labels, nodes[i])
  }

  lemma Unfit(g: Graph, elems: seq<MatchElem>, k: nat, w: Walk, w': Walk)
    requires Upto(elems, k) && !HasAll(g, elems, k, w.nodes) && w'.nodes == w.nodes
    ensures !FitsLabels(g, elems, k, w')
  {
  }

  lemma GraphWithout(elems: seq<MatchElem>) returns (g: Graph, w: Walk)
    requires IsPath(elems) && !LabelledFirst(elems)
    ensures WellFormed(g) && Fits(g, elems, |elems| / 2, w) && !HasAll(g, elems, |elems| / 2, w.nodes)
  {
    hide WellFormed, Fits, LabelledFirst;
    var k := |elems| / 2;
    var labels := [if elems[0].labels == [] then None else Some(elems[0].labels[0])] + seq(k, i => None);
    g, w := PathGraph(elems, k, labels), PathWalk(elems, k);
    PathWellFormed(elems, k, labels);
    PathFits(elems, k, labels);
    BadLabels(elems, k, labels);
  }

  lemma BadLabels(elems: seq<MatchElem>, k: nat, labels: seq<Option<string>>)
    requires Upto(elems, k) && k == |elems| / 2 && |labels| == k + 1 && !LabelledFirst(elems)
    requires labels == [if elems[0].labels == [] then None else Some(elems[0].labels[0])] + seq(k, i => None)
    ensures !HasAll(PathGraph(elems, k, labels), elems, k, PathWalk(elems, k).nodes)
  {
    hide PathGraph, PathWalk, HasLabels;
    if j :| 0 <= j < |elems[0].labels| && elems[0].labels[j] != elems[0].labels[0] {
      BadLabel(elems, k, labels, 0, j);
    } else {
      var i: nat :| 0 < i && 2 * i < |elems| && elems[2 * i].labels != [];
      BadLabel(elems, k, labels, i, 0);
    }
  }

  lemma BadLabel(elems: seq<MatchElem>, k: nat, labels: seq<Option<string>>, i: nat, j: nat)
    requires Upto(elems, k) && i <= k && |labels| == k + 1 && j < |elems[2 * i].labels| && labels[i] != Some(elems[2 * i].labels[j])
    ensures !HasAll(PathGraph(elems, k, labels), elems, k, PathWalk(elems, k).nodes)
  {
    hide PathList, PathEdge;
    var g, w := PathGraph(elems, k, labels), PathWalk(elems, k);
    assert w.nodes[i] == i && g.nodes[i].nodeLabel == labels[i];
    var ls := elems[2 * i].labels;
    assert ls[j] == elems[2 * i].labels[j];
    assert !HasLabels(g, ls, w.nodes[i]);
  }

  /** A walk fits, and the plan does not find it. */
  lemma WalkLost(anon: nat -> string, elems: seq<MatchElem>, env: Env) returns (g: Graph)
    requires IsPath(elems) && OwnNames(anon, elems) && LooksUp(env) && !WayNamed(elems, |elems| / 2) && CanFit(elems)
    ensures WellFormed(g) && !Honoured(anon, elems, g, env)
  {
    hide OwnNames, LooksUp, Gather, Denote, ReadOnly, MatchFrom, WayNamed, FitsLabels, WellFormed, CanFit, Honoured;
    var w;
    g, w := GraphWith(elems);
    NoRows(anon, elems, g, env);
    NotTold(anon, elems, g, env, w);
  }

  lemma GraphWith(elems: seq<MatchElem>) returns (g: Graph, w: Walk)
    requires IsPath(elems) && CanFit(elems)
    ensures WellFormed(g) && FitsLabels(g, elems, |elems| / 2, w)
  {
    hide WellFormed, Fits, CanFit;
    var k := |elems| / 2;
    var labels := seq(k + 1, i requires 0 <= i < k + 1 => FirstLabel(elems, i));
    g, w := PathGraph(elems, k, labels), PathWalk(elems, k);
    PathWellFormed(elems, k, labels);
    PathFits(elems, k, labels);
    GoodLabels(elems, k, labels);
  }

  ghost function FirstLabel(elems: seq<MatchElem>, i: nat): Option<string>
    requires Upto(elems, i)
  {
    if elems[2 * i].labels == [] then None else Some(elems[2 * i].labels[0])
  }

  lemma GoodLabels(elems: seq<MatchElem>, k: nat, labels: seq<Option<string>>)
    requires Upto(elems, k) && k == |elems| / 2 && CanFit(elems) && |labels| == k + 1 && forall i | 0 <= i <= k :: labels[i] == FirstLabel(elems, i)
    requires Fits(PathGraph(elems, k, labels), elems, k, PathWalk(elems, k))
    ensures FitsLabels(PathGraph(elems, k, labels), elems, k, PathWalk(elems, k))
  {
    hide Fits;
    var g, w := PathGraph(elems, k, labels), PathWalk(elems, k);
    forall i: nat | i <= k ensures HasLabels(g, elems[2 * i].labels, w.nodes[i]) {
      assert w.nodes[i] == i && g.nodes[i].nodeLabel == FirstLabel(elems, i);
    }
  }

  lemma NotTold(anon: nat -> string, elems: seq<MatchElem>, g: Graph, env: Env, w: Walk)
    requires IsPath(elems) && FitsLabels(g, elems, |elems| / 2, w)
    requires var plan := MatchFrom(anon, elems, 0, None, None); plan.Some? && ReadOnly(plan.value) && Gather(Denote(plan.value, g, env)) == Some([])
    ensures !Honoured(anon, elems, g, env)
  {
    hide Tells, FitsLabels, MatchFrom, ReadOnly, Denote, Gather;
    assert !ToldOf(anon, g, elems, |elems| / 2, w, []);
  }

  /** With an unnamed node on the way there are no rows. */
  lemma NoRows(anon: nat -> string, elems: seq<MatchElem>, g: Graph, env: Env)
    requires IsPath(elems) && OwnNames(anon, elems) && LooksUp(env) && !WayNamed(elems, |elems| / 2)
    ensures var plan := MatchFrom(anon, elems, 0, None, None); plan.Some? && ReadOnly(plan.value) && Gather(Denote(plan.value, g, env)) == Some([])
  {
    hide OwnNames, LooksUp, Gather, Denote, ReadOnly, MatchFrom, PlanBuilt;
    var k := |elems| / 2;
    var m := FirstUnnamed(elems, k);
    var plans := MatchPlanIs(anon, elems, 0, None, None);
    assert 2 * k + 1 == |elems|;
    UnnamedLoses(anon, elems, plans, m, k, g, env);
  }

  lemma {:induction false} FirstUnnamed(elems: seq<MatchElem>, n: nat) returns (m: nat)
    requires Upto(elems, n) && !WayNamed(elems, n)
    ensures 0 < m < n && elems[2 * m].variable.None? && WayNamed(elems, m)
    decreases n
  {
    var i: nat :| 0 < i < n && elems[2 * i].variable.None?;
    m := n - 1;
    if !WayNamed(elems, n - 1) {
      m := FirstUnnamed(elems, n - 1);
    }
  }

  lemma NothingFits(anon: nat -> string, elems: seq<MatchElem>, g: Graph, env: Env)
    requires IsPath(elems) && OwnNames(anon, elems) && LooksUp(env) && !WayNamed(elems, |elems| / 2) && !CanFit(elems)
    ensures Honoured(anon, elems, g, env)
  {
    hide OwnNames, LooksUp, Gather, Denote, ReadOnly, MatchFrom, WayNamed, FitsLabels, Tells, CanFit;
    NoRows(anon, elems, g, env);
    NoFit(elems, g);
  }

  lemma NoFit(elems: seq<MatchElem>, g: Graph)
    requires IsPath(elems) && !CanFit(elems)
    ensures forall w :: !FitsLabels(g, elems, |elems| / 2, w)
  {
    hide Fits;
    var i: nat, j :| 2 * i < |elems| && 0 <= j < |elems[2 * i].labels| && elems[2 * i].labels[j] != elems[2 * i].labels[0];
    forall id ensures !HasLabels(g, elems[2 * i].labels, id) {
      var ls := elems[2 * i].labels;
      assert ls[0] != ls[j];
    }
    assert i <= |elems| / 2;
  }
}
