/** What each plan operator gives (src/cypher/physical.rs), said of the rows that its inputs give: which of them
    pass, in which order, and what is bound in them.  With `Operators.Drain` this is what draining the operators
    gives. */
module PlanLaws {
  import opened Frames
  import opened Ast
  import opened Plan
  import opened Graphs
  import opened Trails
  import opened Streams
  import opened Bindings
  import opened Sorting
  import opened Physical

  // ---------------------------------------------------------------- picking from a list

  /** Places of a list of length `n`, in order. */
  ghost predicate Places(ix: seq<nat>, n: nat) {
    (forall k | 0 <= k < |ix| :: ix[k] < n) && (forall j, k | 0 <= j < k < |ix| :: ix[j] < ix[k])
  }

  /** `ys` are the elements of `xs` at the places `ix`. */
  ghost predicate Picks<T>(xs: seq<T>, ys: seq<T>, ix: seq<nat>) {
    Places(ix, |xs|) && |ys| == |ix| && forall k | 0 <= k < |ix| :: ys[k] == xs[ix[k]]
  }

  /** The same places one further on. */
  lemma PlacesMoved(ix: seq<nat>, n: nat) returns (more: seq<nat>)
    requires Places(ix, n)
    ensures Places(more, n + 1) && |more| == |ix| && forall k | 0 <= k < |ix| :: more[k] == ix[k] + 1
    ensures 0 !in more && forall i: nat | 0 < i <= n :: i in more <==> i - 1 in ix
  {
    more := seq(|ix|, k requires 0 <= k < |ix| => ix[k] + 1);
    forall i: nat | 0 < i <= n && i - 1 in ix ensures i in more {
      var k :| 0 <= k < |ix| && ix[k] == i - 1;
      assert more[k] == i;
    }
  }

  /** ... and one place more in front. */
  lemma PlacesOn(keep: bool, ix: seq<nat>, n: nat) returns (more: seq<nat>)
    requires Places(ix, n)
    ensures Places(more, n + 1) && |more| == |ix| + (if keep then 1 else 0)
    ensures keep ==> more[0] == 0 && forall k | 1 <= k < |more| :: more[k] == ix[k - 1] + 1
    ensures !keep ==> forall k | 0 <= k < |more| :: more[k] == ix[k] + 1
    ensures forall i: nat | i <= n :: i in more <==> if i == 0 then keep else i - 1 in ix
  {
    more := PlacesMoved(ix, n);
    if keep {
      more := [0] + more;
    }
  }

  /** `ys` goes with the elements of `xs` at the places `ix`, which are those to be kept. */
  ghost predicate PickedBy<A(!new), B(!new)>(keep: A -> bool, goes: (A, B) -> bool, xs: seq<A>, ys: seq<B>, ix: seq<nat>) {
    && Places(ix, |xs|) && |ys| == |ix| && (forall k | 0 <= k < |ix| :: goes(xs[ix[k]], ys[k]))
    && forall i: nat | i < |xs| :: i in ix <==> keep(xs[i])
  }

  lemma PickedOn<A(!new), B(!new)>(keep: A -> bool, goes: (A, B) -> bool, xs: seq<A>, ys: seq<B>, ix: seq<nat>) returns (more: seq<nat>)
    requires xs != []
    requires if keep(xs[0]) then ys != [] && goes(xs[0], ys[0]) && PickedBy(keep, goes, xs[1..], ys[1..], ix)
             else PickedBy(keep, goes, xs[1..], ys, ix)
    ensures PickedBy(keep, goes, xs, ys, more)
  {
    var kept := keep(xs[0]);
    more := PlacesOn(kept, ix, |xs| - 1);
    var rest := if kept then ys[1..] else ys;
    forall k | 0 <= k < |more| ensures goes(xs[more[k]], ys[k]) {
      if !kept || k > 0 {
        var k' := if kept then k - 1 else k;
        assert more[k] == ix[k'] + 1 && rest[k'] == ys[k];
        assert goes(xs[1..][ix[k']], rest[k']) && xs[1..][ix[k']] == xs[ix[k'] + 1];
      }
    }
    forall i: nat | i < |xs| ensures i in more <==> keep(xs[i]) {
      if i > 0 {
        assert xs[1..][i - 1] == xs[i];
      }
    }
  }

  lemma PicksOn<T(!new)>(keep: bool, xs: seq<T>, ys: seq<T>, ix: seq<nat>) returns (more: seq<nat>)
    requires xs != [] && Picks(xs[1..], ys, ix)
    ensures Picks(xs, (if keep then [xs[0]] else []) + ys, more)
    ensures forall i: nat | i < |xs| :: i in more <==> if i == 0 then keep else i - 1 in ix
  {
    more := PlacesOn(keep, ix, |xs| - 1);
    var out := (if keep then [xs[0]] else []) + ys;
    forall k | 0 <= k < |more| ensures out[k] == xs[more[k]] {
      if !keep || k > 0 {
        var k' := if keep then k - 1 else k;
        assert more[k] == ix[k'] + 1 && out[k] == ys[k'];
        assert ys[k'] == xs[1..][ix[k']] && xs[1..][ix[k']] == xs[ix[k'] + 1];
      }
    }
  }

  // ---------------------------------------------------------------- Filter

  /** A predicate gives a row a truth value, or null. */
  ghost predicate Decides(env: Env, p: Expr, row: Row) {
    var v := env.eval(p, row);
    v.Some? && (v.value.Boolean? || v.value.Null?)
  }

  /** `out` are the rows on which the predicate is true, in their order. */
  ghost predicate Kept(env: Env, p: Expr, rows: seq<Row>, out: seq<Row>, ix: seq<nat>) {
    Picks(rows, out, ix) && forall i: nat | i < |rows| :: i in ix <==> env.eval(p, rows[i]) == Some(Boolean(true))
  }

  /** Filter gives the rows of its input on which the predicate is true, in their order, and fails exactly if
      the input does or the predicate is undecided on some row. */
  lemma FilterMeans(input: Op, p: Expr, g: Graph, env: Env) returns (ix: seq<nat>)
    requires ReadOnly(input)
    ensures var rows, out := Gather(Denote(input, g, env)), Gather(Denote(Filter(input, p), g, env));
            && (out.Some? <==> rows.Some? && forall i | 0 <= i < |rows.value| :: Decides(env, p, rows.value[i]))
            && (out.Some? ==> Kept(env, p, rows.value, out.value, ix))
  {
    ix := FilterStream(Filter(input, p), g, env, Denote(input, g, env));
  }

  lemma {:induction false} FilterStream(op: Op, g: Graph, env: Env, s: Stream) returns (ix: seq<nat>)
    requires op.Filter?
    ensures var rows, out := Gather(s), Gather(RowWise(op, g, env, s));
            && (out.Some? <==> rows.Some? && forall i | 0 <= i < |rows.value| :: Decides(env, op.predicate_, rows.value[i]))
            && (out.Some? ==> Kept(env, op.predicate_, rows.value, out.value, ix))
    decreases s
  {
    ix := [];
    if s.Next? {
      var ix' := FilterStream(op, g, env, s.tail);
      var some := RowsFor(op, g, env, s.head);
      if some.Some? {
        GatherPrepend(some.value, RowWise(op, g, env, s.tail));
      }
      var rows, out := Gather(s), Gather(RowWise(op, g, env, s));
      if Gather(s.tail).Some? {
        assert rows.value[0] == s.head && rows.value[1..] == Gather(s.tail).value;
        assert forall i | 1 <= i < |rows.value| :: rows.value[i] == rows.value[1..][i - 1];
        if out.Some? {
          var keep := env.eval(op.predicate_, s.head) == Some(Boolean(true));
          ix := PicksOn(keep, rows.value, Gather(RowWise(op, g, env, s.tail)).value, ix');
        }
      }
    }
  }

  // ---------------------------------------------------------------- scans

  ghost predicate Live(g: Graph, id: nat) {
    id in g.nodes && !g.nodes[id].deleted
  }

  /** `v` is node `id` with its label and properties. */
  ghost predicate ShowsNode(g: Graph, id: nat, v: Value) {
    && id in g.nodes && v.NodeV? && v.id == id && v.properties == g.nodes[id].properties
    && match g.nodes[id].nodeLabel case Some(l) => v.labels == [l] case None => v.labels == []
  }

  /** A row that binds nothing but the scanned node. */
  ghost predicate ShowsRow(g: Graph, id: nat, row: Row) {
    row.Keys == {"_node"} && ShowsNode(g, id, row["_node"])
  }

  lemma LoadNodeMeans(g: Graph, id: nat)
    ensures LoadNode(g, id).Some? <==> Live(g, id)
    ensures Live(g, id) ==> ShowsNode(g, id, LoadNode(g, id).value)
  {
  }

  ghost predicate Labelled(g: Graph, id: nat, l: Option<string>) {
    l.Some? ==> id in g.nodes && g.nodes[id].nodeLabel == l
  }

  /** The rows of the live nodes among `ids` with the label asked for, in order. */
  ghost predicate Scanned(g: Graph, ids: seq<nat>, l: Option<string>, rows: seq<Row>, ix: seq<nat>) {
    && Places(ix, |ids|) && |rows| == |ix| && (forall k | 0 <= k < |ix| :: ShowsRow(g, ids[ix[k]], rows[k]))
    && forall i: nat | i < |ids| :: i in ix <==> Live(g, ids[i]) && Labelled(g, ids[i], l)
  }

  /** A scan gives the live nodes, with its label if it has one, in the order of their ids. */
  lemma ScanMeans(op: Op, g: Graph, env: Env) returns (ix: seq<nat>)
    requires op.AllNodesScan? || op.NodeByLabelScan?
    ensures var rows := Gather(Denote(op, g, env));
            rows.Some? && Scanned(g, g.ids, if op.NodeByLabelScan? then Some(op.nodeLabel) else None, rows.value, ix)
  {
    var l := if op.NodeByLabelScan? then Some(op.nodeLabel) else None;
    GatherSeq(NodeRows(g, if l.Some? then IdsWithLabel(g, g.ids, l.value) else g.ids));
    ix := ScanRows(g, g.ids, l);
  }

  lemma {:induction false} ScanRows(g: Graph, ids: seq<nat>, l: Option<string>) returns (ix: seq<nat>)
    ensures Scanned(g, ids, l, NodeRows(g, if l.Some? then IdsWithLabel(g, ids, l.value) else ids), ix)
    decreases |ids|
  {
    hide Scanned, NodeRows, IdsWithLabel;
    if ids == [] {
      ix := NoneScanned(g, l);
    } else {
      var ix' := ScanRows(g, ids[1..], l);
      OneScanned(g, ids, l);
      ix := ScannedOn(g, ids, l, NodeRows(g, if l.Some? then IdsWithLabel(g, ids, l.value) else ids), ix');
    }
  }

  lemma NoneScanned(g: Graph, l: Option<string>) returns (ix: seq<nat>)
    ensures Scanned(g, [], l, NodeRows(g, if l.Some? then IdsWithLabel(g, [], l.value) else []), ix)
  {
    ix := [];
  }

  lemma ScannedOn(g: Graph, ids: seq<nat>, l: Option<string>, rows: seq<Row>, ix': seq<nat>) returns (ix: seq<nat>)
    requires ids != []
    requires if Live(g, ids[0]) && Labelled(g, ids[0], l)
             then rows != [] && ShowsRow(g, ids[0], rows[0]) && Scanned(g, ids[1..], l, rows[1..], ix')
             else Scanned(g, ids[1..], l, rows, ix')
    ensures Scanned(g, ids, l, rows, ix)
  {
    hide ShowsRow, Live, Labelled;
    var keep := (id: nat) => Live(g, id) && Labelled(g, id, l);
    var goes := (id: nat, row: Row) => ShowsRow(g, id, row);
    ix := PickedOn(keep, goes, ids, rows, ix');
  }

  lemma OneScanned(g: Graph, ids: seq<nat>, l: Option<string>)
    requires ids != []
    ensures var rows := NodeRows(g, if l.Some? then IdsWithLabel(g, ids, l.value) else ids);
            var rest := NodeRows(g, if l.Some? then IdsWithLabel(g, ids[1..], l.value) else ids[1..]);
            if Live(g, ids[0]) && Labelled(g, ids[0], l)
            then rows != [] && ShowsRow(g, ids[0], rows[0]) && rows[1..] == rest
            else rows == rest
  {
    if l.Some? {
      var more := IdsWithLabel(g, ids[1..], l.value);
      assert ([ids[0]] + more)[1..] == more;
    }
  }

  /** A scan by id gives that node, if it is there. */
  lemma NodeByIdMeans(id: nat, g: Graph, env: Env)
    ensures var rows := Gather(Denote(NodeByIdScan(id), g, env));
            && rows.Some? && |rows.value| == (if Live(g, id) then 1 else 0)
            && (Live(g, id) ==> ShowsRow(g, id, rows.value[0]))
  {
    GatherSeq(NodeRows(g, [id]));
    assert [id][1..] == [] && NodeRows(g, []) == [];
    OneScanned(g, [id], None);
  }

  // ---------------------------------------------------------------- Project

  ghost function ProjectedNames(ps: seq<Projection>): (r: seq<string>)
    ensures |r| == |ps| && forall i | 0 <= i < |ps| :: r[i] == ps[i].name
  {
    seq(|ps|, i requires 0 <= i < |ps| => ps[i].name)
  }

  /** `out` binds each name to the value of its last expression on the row, and nothing else. */
  ghost predicate Projected(env: Env, ps: seq<Projection>, row: Row, out: Row) {
    exists values: seq<Value> :: ProjectedTo(env, ps, row, values, out)
  }

  ghost predicate ProjectedTo(env: Env, ps: seq<Projection>, row: Row, values: seq<Value>, out: Row) {
    && |values| == |ps| && (forall i | 0 <= i < |ps| :: env.eval(ps[i].expression, row) == Some(values[i]))
    && Binds(ProjectedNames(ps), values, out)
  }

  ghost predicate AllEvaluate(env: Env, ps: seq<Projection>, row: Row) {
    forall i | 0 <= i < |ps| :: env.eval(ps[i].expression, row).Some?
  }

  /** Project gives one row for each, of the projected names alone. */
  lemma ProjectMeans(input: Op, ps: seq<Projection>, g: Graph, env: Env)
    requires ReadOnly(input)
    ensures var rows, out := Gather(Denote(input, g, env)), Gather(Denote(Project(input, ps), g, env));
            && (out.Some? <==> rows.Some? && forall i | 0 <= i < |rows.value| :: AllEvaluate(env, ps, rows.value[i]))
            && (out.Some? ==> |out.value| == |rows.value|
                              && forall i | 0 <= i < |rows.value| :: Projected(env, ps, rows.value[i], out.value[i]))
  {
    hide Projected, AllEvaluate;
    ProjectStream(Project(input, ps), g, env, Denote(input, g, env));
  }

  lemma {:induction false} ProjectStream(op: Op, g: Graph, env: Env, s: Stream)
    requires op.Project?
    ensures var rows, out := Gather(s), Gather(RowWise(op, g, env, s));
            && (out.Some? <==> rows.Some? && forall i | 0 <= i < |rows.value| :: AllEvaluate(env, op.projections, rows.value[i]))
            && (out.Some? ==> |out.value| == |rows.value|
                              && forall i | 0 <= i < |rows.value| :: Projected(env, op.projections, rows.value[i], out.value[i]))
    decreases s
  {
    hide Projected, AllEvaluate, ProjectRow;
    if s.Next? {
      ProjectStream(op, g, env, s.tail);
      ProjectRowMeans(env, op.projections, s.head);
      var some := RowsFor(op, g, env, s.head);
      if some.Some? {
        GatherPrepend(some.value, RowWise(op, g, env, s.tail));
      }
      if Gather(s.tail).Some? {
        var rows := Gather(s).value;
        assert rows[0] == s.head && forall i | 1 <= i < |rows| :: rows[i] == Gather(s.tail).value[i - 1];
        if some.Some? && Gather(RowWise(op, g, env, s.tail)).Some? {
          var out, rest := Gather(RowWise(op, g, env, s)).value, Gather(RowWise(op, g, env, s.tail)).value;
          assert out == some.value + rest && forall i | 1 <= i < |out| :: out[i] == rest[i - 1];
        } else if some.None? {
          assert !AllEvaluate(env, op.projections, rows[0]);
        } else {
          var i :| 0 <= i < |Gather(s.tail).value| && !AllEvaluate(env, op.projections, Gather(s.tail).value[i]);
          assert rows[i + 1] == Gather(s.tail).value[i];
        }
      }
    }
  }

  lemma ProjectRowMeans(env: Env, ps: seq<Projection>, row: Row)
    ensures var out := ProjectRow(env, ps, row, map[]);
            (out.Some? <==> AllEvaluate(env, ps, row)) && (out.Some? ==> Projected(env, ps, row, out.value))
  {
    hide Binds, BindAll;
    var values := ProjectFrom(env, ps, row, map[]);
    if AllEvaluate(env, ps, row) {
      BindAllMeans(ProjectedNames(ps), values);
      assert ProjectedTo(env, ps, row, values, ProjectRow(env, ps, row, map[]).value);
    }
  }

  lemma {:induction false} ProjectFrom(env: Env, ps: seq<Projection>, row: Row, from: Row) returns (values: seq<Value>)
    ensures var out := ProjectRow(env, ps, row, from);
            && (out.Some? <==> AllEvaluate(env, ps, row))
            && (out.Some? ==> && |values| == |ps| && (forall i | 0 <= i < |ps| :: env.eval(ps[i].expression, row) == Some(values[i]))
                              && out.value == BindAll(ProjectedNames(ps), values, from))
    decreases |ps|
  {
    values := [];
    if ps != [] && env.eval(ps[0].expression, row).Some? {
      var v := env.eval(ps[0].expression, row).value;
      var rest := ProjectFrom(env, ps[1..], row, from[ps[0].name := v]);
      values := [v] + rest;
      assert ProjectedNames(ps)[1..] == ProjectedNames(ps[1..]) && values[1..] == rest;
      assert forall i | 1 <= i < |ps| :: ps[i] == ps[1..][i - 1];
    }
  }

  // ---------------------------------------------------------------- expansions

  /** The lists one after the other. */
  ghost function Flat<T>(parts: seq<seq<T>>): seq<T> {
    if parts == [] then [] else parts[0] + Flat(parts[1..])
  }

  lemma {:induction false} ExpandStream(op: Op, g: Graph, env: Env, s: Stream) returns (parts: seq<seq<Row>>)
    requires op.Expand? || op.VarLenExpand?
    ensures var rows, out := Gather(s), Gather(RowWise(op, g, env, s));
            && (out.Some? <==> rows.Some?)
            && (out.Some? ==> out.value == Flat(parts) && HopParts(op, g, rows.value, parts))
    decreases s
  {
    hide HopRows, Hops, RowWise, Flat, HopParts;
    parts := [];
    ExpandStep(op, g, env, s);
    HopPartsNone(op, g);
    FlatStep<Row>([]);
    if s.Next? {
      var parts' := ExpandStream(op, g, env, s.tail);
      var first := HopRows(op, g, Hops(op, g, s.head));
      GatherPrepend(first, RowWise(op, g, env, s.tail));
      if Gather(s.tail).Some? {
        parts := [first] + parts';
        FlatStep(parts);
        assert parts[1..] == parts';
        HopPartsStep(op, g, s.head, Gather(s.tail).value, parts');
      }
    }
  }

  /** For each row, the rows of its hops. */
  ghost predicate HopParts(op: Op, g: Graph, rows: seq<Row>, parts: seq<seq<Row>>)
    requires op.Expand? || op.VarLenExpand?
  {
    |parts| == |rows| && forall i | 0 <= i < |parts| :: parts[i] == HopRows(op, g, Hops(op, g, rows[i]))
  }

  lemma HopPartsNone(op: Op, g: Graph)
    requires op.Expand? || op.VarLenExpand?
    ensures HopParts(op, g, [], [])
  {
  }

  lemma HopPartsStep(op: Op, g: Graph, row: Row, rows: seq<Row>, parts: seq<seq<Row>>)
    requires (op.Expand? || op.VarLenExpand?) && HopParts(op, g, rows, parts)
    ensures HopParts(op, g, [row] + rows, [HopRows(op, g, Hops(op, g, row))] + parts)
  {
    hide HopRows, Hops;
  }

  lemma ExpandStep(op: Op, g: Graph, env: Env, s: Stream)
    requires op.Expand? || op.VarLenExpand?
    ensures RowWise(op, g, env, s) ==
            if s.Next? then Prepend(HopRows(op, g, Hops(op, g, s.head)), RowWise(op, g, env, s.tail)) else s
  {
    hide HopRows, Hops, Prepend;
  }

  lemma FlatStep<T>(parts: seq<seq<T>>)
    ensures Flat(parts) == if parts == [] then [] else parts[0] + Flat(parts[1..])
  {
  }

  /** Each edge with its target, or with its source. */
  ghost function Ends(edges: seq<Edge>, outward: bool): (r: seq<(Edge, nat)>)
    ensures |r| == |edges|
    ensures forall i | 0 <= i < |edges| :: r[i] == (edges[i], if outward then edges[i].target else edges[i].source)
  {
    seq(|edges|, i requires 0 <= i < |edges| => (edges[i], if outward then edges[i].target else edges[i].source))
  }

  /** The edges at node `n` that an expansion looks at, with the node at their other end: the outgoing ones, the
      incoming ones, or both. */
  ghost function StepsAt(g: Graph, n: nat, direction: Direction): seq<(Edge, nat)> {
    var out := if n in g.nodes && n in g.outgoing && direction != Incoming then g.outgoing[n] else [];
    var inc := if n in g.nodes && n in g.incoming && direction != Outgoing then g.incoming[n] else [];
    Ends(out, true) + Ends(inc, false)
  }

  /** One of the types asked for, or any if none is. */
  ghost predicate TypeFits(types: seq<string>, e: Edge) {
    types == [] || exists i :: 0 <= i < |types| && e.relType == Some(types[i])
  }

  lemma NeighboursAre(g: Graph, n: nat, direction: Direction, types: seq<string>, out: seq<Edge>, inc: seq<Edge>)
    requires out == (if direction != Incoming then OutEdges(g, n) else []) && inc == (if direction != Outgoing then InEdges(g, n) else [])
    ensures StepsAt(g, n, direction) == Ends(out, true) + Ends(inc, false)
    ensures Neighbours(g, n, direction, types) == Scan(out, types, true) + Scan(inc, types, false)
  {
    NoScan(types);
    hide Scan, Ends;
  }

  /** The neighbours of a node are the ends of its fitting edges, in order. */
  lemma NeighboursMean(g: Graph, n: nat, direction: Direction, types: seq<string>) returns (ix: seq<nat>)
    ensures Picks(StepsAt(g, n, direction), Neighbours(g, n, direction, types), ix)
    ensures forall i: nat | i < |StepsAt(g, n, direction)| :: i in ix <==> TypeFits(types, StepsAt(g, n, direction)[i].0)
  {
    hide Scan, TypeFits, Picks, Ends;
    var out := if direction != Incoming then OutEdges(g, n) else [];
    var inc := if direction != Outgoing then InEdges(g, n) else [];
    var ix1 := ScanPicks(out, types, true);
    var ix2 := ScanPicks(inc, types, false);
    NeighboursAre(g, n, direction, types, out, inc);
    hide StepsAt, Neighbours;
    ix := PicksBoth(Ends(out, true), Scan(out, types, true), ix1, Ends(inc, false), Scan(inc, types, false), ix2);
  }

  lemma NoScan(types: seq<string>)
    ensures Scan([], types, true) == [] && Scan([], types, false) == []
  {
  }

  lemma PicksBoth<T>(a: seq<T>, x: seq<T>, ix1: seq<nat>, b: seq<T>, y: seq<T>, ix2: seq<nat>) returns (ix: seq<nat>)
    requires Picks(a, x, ix1) && Picks(b, y, ix2)
    ensures Picks(a + b, x + y, ix)
    ensures forall i: nat | i < |a + b| :: i in ix <==> if i < |a| then i in ix1 else i - |a| in ix2
  {
    var moved := MovedBy(ix2, |a|);
    ix := ix1 + moved;
    forall k | 0 <= k < |ix| ensures ix[k] < |a + b| && (x + y)[k] == (a + b)[ix[k]] {
      if k >= |ix1| {
        assert ix[k] == moved[k - |ix1|] && y[k - |ix1|] == b[ix2[k - |ix1|]];
      }
    }
  }

  lemma MovedBy(ix: seq<nat>, d: nat) returns (moved: seq<nat>)
    ensures |moved| == |ix| && forall k | 0 <= k < |ix| :: moved[k] == ix[k] + d
    ensures forall i: nat :: i in moved <==> i >= d && i - d in ix
  {
    moved := seq(|ix|, k requires 0 <= k < |ix| => ix[k] + d);
    forall i: nat | i >= d && i - d in ix ensures i in moved {
      var k :| 0 <= k < |ix| && ix[k] == i - d;
      assert moved[k] == i;
    }
  }

  lemma {:induction false} ScanPicks(edges: seq<Edge>, types: seq<string>, outward: bool) returns (ix: seq<nat>)
    ensures Picks(Ends(edges, outward), Scan(edges, types, outward), ix)
    ensures forall i: nat | i < |edges| :: i in ix <==> TypeFits(types, edges[i])
    decreases |edges|
  {
    hide Ends, TypeFits;
    ix := [];
    if edges != [] {
      var rest := edges[1..];
      var ix' := ScanPicks(rest, types, outward);
      assert Ends(edges, outward)[1..] == Ends(rest, outward);
      ix := PicksOn(TypeMatches(types, edges[0]), Ends(edges, outward), Scan(rest, types, outward), ix');
      FitsMatches(types, edges[0]);
      assert forall i | 1 <= i < |edges| :: edges[i] == rest[i - 1];
    }
  }

  lemma FitsMatches(types: seq<string>, e: Edge)
    ensures TypeMatches(types, e) <==> TypeFits(types, e)
  {
  }

  const TWO_64: int := 0x1_0000_0000_0000_0000

  /** A row's value names node `n`: a node, or a number taken modulo 2^64. */
  ghost predicate Names(v: Value, n: nat) {
    (v.NodeV? && v.id == n) || (v.Integer? && n < TWO_64 && (v.i - n) % TWO_64 == 0)
  }

  lemma StartIdMeans(row: Row, x: string, n: nat)
    ensures StartId(row, x) == Some(n) <==> x in row && Names(row[x], n)
  {
    if x in row && row[x].Integer? {
      Remainder(row[x].i, n);
    }
  }

  lemma Remainder(i: int, n: nat)
    ensures n == i % TWO_64 <==> n < TWO_64 && (i - n) % TWO_64 == 0
  {
    var q, r := i / TWO_64, i % TWO_64;
    assert i - n == TWO_64 * q + (r - n);
    if n < TWO_64 && (i - n) % TWO_64 == 0 {
      var d := (i - n) / TWO_64;
      assert r - n == TWO_64 * (d - q);
      assert -TWO_64 < r - n < TWO_64;
    }
  }

  /** `v` is the relationship `e`. */
  ghost predicate ShowsEdge(e: Edge, v: Value) {
    && v.RelV? && v.id == e.id && v.source == e.source && v.target == e.target && v.properties == e.properties
    && match e.relType case Some(t) => v.relType == t case None => v.relType == "TYPE_0"
  }

  /** `out` is `row` with the edge and its far end bound; the end goes under `_end_node` if it has no name.
      Where both have the same name, it is the end's. */
  ghost predicate BindsHop(op: Op, g: Graph, row: Row, step: (Edge, nat), out: Row)
    requires op.Expand?
  {
    var end := if op.endVariable.Some? then op.endVariable.value else "_end_node";
    && end in out && ShowsNode(g, step.1, out[end])
    && (op.relVariable.Some? && op.relVariable.value != end ==> op.relVariable.value in out && ShowsEdge(step.0, out[op.relVariable.value]))
    && (forall x | x in out :: x in row || x == end || op.relVariable == Some(x))
    && (forall x | x in row && x != end && op.relVariable != Some(x) :: x in out && out[x] == row[x])
  }

  /** What one row gives: a row for every fitting edge at the node it names whose far end is there, in order. */
  ghost predicate Expands(op: Op, g: Graph, row: Row, out: seq<Row>)
    requires op.Expand?
  {
    && ((forall n: nat :: !(op.fromVariable in row && Names(row[op.fromVariable], n))) ==> out == [])
    && (forall n: nat | op.fromVariable in row && Names(row[op.fromVariable], n) ::
          exists ix :: Followed(op, g, row, StepsAt(g, n, op.direction), out, ix))
  }

  ghost predicate Followed(op: Op, g: Graph, row: Row, steps: seq<(Edge, nat)>, out: seq<Row>, ix: seq<nat>)
    requires op.Expand?
  {
    && Places(ix, |steps|) && |out| == |ix| && (forall k | 0 <= k < |ix| :: BindsHop(op, g, row, steps[ix[k]], out[k]))
    && forall i: nat | i < |steps| :: i in ix <==> TypeFits(op.relTypes, steps[i].0) && Live(g, steps[i].1)
  }

  lemma HopRowMeans(op: Op, g: Graph, e: Edge, n: nat, row: Row)
    requires op.Expand?
    ensures var out := HopRow(op, g, Hop([e], n, row));
            (out.Some? <==> Live(g, n)) && (out.Some? ==> BindsHop(op, g, row, (e, n), out.value))
  {
    LoadNodeMeans(g, n);
  }

  /** The rows of those entries whose end is there. */
  ghost predicate Reached(op: Op, g: Graph, row: Row, adj: seq<(Edge, nat)>, out: seq<Row>, ix: seq<nat>)
    requires op.Expand?
  {
    && Places(ix, |adj|) && |out| == |ix| && (forall k | 0 <= k < |ix| :: BindsHop(op, g, row, adj[ix[k]], out[k]))
    && forall i: nat | i < |adj| :: i in ix <==> Live(g, adj[i].1)
  }

  lemma ReachedOn(op: Op, g: Graph, row: Row, adj: seq<(Edge, nat)>, out: seq<Row>, ix': seq<nat>) returns (ix: seq<nat>)
    requires op.Expand? && adj != []
    requires if Live(g, adj[0].1) then out != [] && BindsHop(op, g, row, adj[0], out[0]) && Reached(op, g, row, adj[1..], out[1..], ix')
             else Reached(op, g, row, adj[1..], out, ix')
    ensures Reached(op, g, row, adj, out, ix)
  {
    hide BindsHop, Live;
    var keep := (step: (Edge, nat)) => Live(g, step.1);
    var goes := (step: (Edge, nat), to: Row) => BindsHop(op, g, row, step, to);
    ix := PickedOn(keep, goes, adj, out, ix');
  }

  ghost function OneHops(adj: seq<(Edge, nat)>, row: Row): (r: seq<Hop>)
    ensures |r| == |adj| && forall i | 0 <= i < |adj| :: r[i] == Hop([adj[i].0], adj[i].1, row)
  {
    seq(|adj|, i requires 0 <= i < |adj| => Hop([adj[i].0], adj[i].1, row))
  }

  lemma {:induction false} HopsReach(op: Op, g: Graph, row: Row, adj: seq<(Edge, nat)>) returns (ix: seq<nat>)
    requires op.Expand?
    ensures Reached(op, g, row, adj, HopRows(op, g, OneHops(adj, row)), ix)
    decreases |adj|
  {
    hide Reached, HopRow, BindsHop, Live, OneHops;
    var hops := OneHops(adj, row);
    if adj == [] {
      ix := NoneReached(op, g, row);
      assert hops == [];
    } else {
      var rest := adj[1..];
      var ix' := HopsReach(op, g, row, rest);
      assert hops[1..] == OneHops(rest, row);
      HopRowMeans(op, g, adj[0].0, adj[0].1, row);
      var out := HopRows(op, g, hops);
      assert adj[0] == (adj[0].0, adj[0].1);
      assert (if Live(g, adj[0].1) then out[1..] else out) == HopRows(op, g, OneHops(rest, row));
      ix := ReachedOn(op, g, row, adj, out, ix');
    }
  }

  lemma NoneReached(op: Op, g: Graph, row: Row) returns (ix: seq<nat>)
    requires op.Expand?
    ensures Reached(op, g, row, [], [], ix)
  {
    ix := [];
  }

  /** Picking twice is picking once. */
  lemma PlacesThrough<T>(xs: seq<T>, ys: seq<T>, ix: seq<nat>, jx: seq<nat>) returns (kx: seq<nat>)
    requires Picks(xs, ys, ix) && Places(jx, |ys|)
    ensures Places(kx, |xs|) && |kx| == |jx| && forall k | 0 <= k < |jx| :: kx[k] == ix[jx[k]]
    ensures forall i: nat :: i in kx <==> exists j :: 0 <= j < |ix| && ix[j] == i && j in jx
  {
    kx := seq(|jx|, k requires 0 <= k < |jx| => ix[jx[k]]);
    forall i: nat | i in kx ensures exists j :: 0 <= j < |ix| && ix[j] == i && j in jx {
      var k :| 0 <= k < |kx| && kx[k] == i;
      assert ix[jx[k]] == i && jx[k] in jx;
    }
    forall i: nat | exists j :: 0 <= j < |ix| && ix[j] == i && j in jx ensures i in kx {
      var j :| 0 <= j < |ix| && ix[j] == i && j in jx;
      var k :| 0 <= k < |jx| && jx[k] == j;
      assert kx[k] == i;
    }
  }

  lemma HopsExpand(op: Op, g: Graph, row: Row)
    requires op.Expand?
    ensures Expands(op, g, row, HopRows(op, g, Hops(op, g, row)))
  {
    hide HopRows, Names, Followed, StepsAt, Reached;
    var out := HopRows(op, g, Hops(op, g, row));
    forall n: nat | op.fromVariable in row && Names(row[op.fromVariable], n)
      ensures exists ix :: Followed(op, g, row, StepsAt(g, n, op.direction), out, ix)
    {
      StartIdMeans(row, op.fromVariable, n);
      var adj := Adj(LookOf(op, g), n);
      var jx := HopsReach(op, g, row, adj);
      assert Hops(op, g, row) == OneHops(adj, row);
      var ix := ReachedFollows(op, g, row, n, out, jx);
    }
    if forall n: nat :: !(op.fromVariable in row && Names(row[op.fromVariable], n)) {
      if StartId(row, op.fromVariable).Some? {
        StartIdMeans(row, op.fromVariable, StartId(row, op.fromVariable).value);
      }
      NoHops(op, g);
    }
  }

  lemma NoHops(op: Op, g: Graph)
    requires op.Expand? || op.VarLenExpand?
    ensures HopRows(op, g, []) == []
  {
  }

  lemma ReachedFollows(op: Op, g: Graph, row: Row, n: nat, out: seq<Row>, jx: seq<nat>) returns (kx: seq<nat>)
    requires op.Expand? && Reached(op, g, row, Neighbours(g, n, op.direction, op.relTypes), out, jx)
    ensures Followed(op, g, row, StepsAt(g, n, op.direction), out, kx)
  {
    hide BindsHop, Live, TypeFits, StepsAt;
    var steps, adj := StepsAt(g, n, op.direction), Neighbours(g, n, op.direction, op.relTypes);
    var ix := NeighboursMean(g, n, op.direction, op.relTypes);
    kx := PlacesThrough(steps, adj, ix, jx);
    forall i: nat | i < |steps| ensures i in kx <==> TypeFits(op.relTypes, steps[i].0) && Live(g, steps[i].1) {
      if i in ix {
        var j :| 0 <= j < |ix| && ix[j] == i;
        assert adj[j] == steps[i];
      }
    }
  }

  /** Expand gives, row after row, what each row gives, and fails exactly if its input does. */
  lemma ExpandMeans(op: Op, g: Graph, env: Env) returns (parts: seq<seq<Row>>)
    requires op.Expand? && ReadOnly(op)
    ensures var rows, out := Gather(Denote(op.input, g, env)), Gather(Denote(op, g, env));
            && (out.Some? <==> rows.Some?)
            && (out.Some? ==> out.value == Flat(parts) && |parts| == |rows.value|
                              && forall i | 0 <= i < |parts| :: Expands(op, g, rows.value[i], parts[i]))
  {
    hide Expands, Hops, HopRows;
    parts := ExpandStream(op, g, env, Denote(op.input, g, env));
    var rows := Gather(Denote(op.input, g, env));
    if rows.Some? {
      forall i | 0 <= i < |parts| ensures Expands(op, g, rows.value[i], parts[i]) {
        HopsExpand(op, g, rows.value[i]);
      }
    }
  }

  // ---------------------------------------------------------------- variable-length expansions

  /** `out` is `row` with the end of the walk, if it is there, and then the list of its edges bound. */
  ghost predicate BindsWalk(op: Op, g: Graph, row: Row, t: Trail, out: Row)
    requires op.VarLenExpand?
  {
    && (op.relVariable.Some? ==>
          && op.relVariable.value in out
          && var v := out[op.relVariable.value];
             v.ListV? && |v.items| == |t.path| && forall i | 0 <= i < |t.path| :: ShowsEdge(t.path[i], v.items[i]))
    && (op.endVariable.Some? && op.relVariable != op.endVariable && Live(g, t.node) ==>
          op.endVariable.value in out && ShowsNode(g, t.node, out[op.endVariable.value]))
    && (forall x | x in out :: x in row || op.relVariable == Some(x) || (op.endVariable == Some(x) && Live(g, t.node)))
    && (forall x | x in row && op.relVariable != Some(x) && (op.endVariable != Some(x) || !Live(g, t.node)) :: x in out && out[x] == row[x])
  }

  /** What one row gives: a row for every walk from the node it names along fitting edges, none of them twice, with
      as many as the bounds allow, shorter ones first. */
  ghost predicate Walks(op: Op, g: Graph, row: Row, out: seq<Row>)
    requires op.VarLenExpand?
  {
    && ((forall n: nat :: !(op.fromVariable in row && Names(row[op.fromVariable], n))) ==> out == [])
    && (forall n: nat | op.fromVariable in row && Names(row[op.fromVariable], n) ::
          var trails := TrailsFrom(Look(g, op.direction, op.relTypes), n, op.minHops, op.maxHops);
          |out| == |trails| && forall k | 0 <= k < |out| :: BindsWalk(op, g, row, trails[k], out[k]))
  }

  lemma WalkRowMeans(op: Op, g: Graph, t: Trail, row: Row)
    requires op.VarLenExpand?
    ensures var out := HopRow(op, g, Hop(t.path, t.node, row)); out.Some? && BindsWalk(op, g, row, t, out.value)
  {
    LoadNodeMeans(g, t.node);
  }

  lemma {:induction false} WalkRows(op: Op, g: Graph, row: Row, ts: seq<Trail>)
    requires op.VarLenExpand?
    ensures var out := HopRows(op, g, seq(|ts|, i requires 0 <= i < |ts| => Hop(ts[i].path, ts[i].node, row)));
            |out| == |ts| && forall k | 0 <= k < |ts| :: BindsWalk(op, g, row, ts[k], out[k])
    decreases |ts|
  {
    hide BindsWalk, HopRow;
    var hops := seq(|ts|, i requires 0 <= i < |ts| => Hop(ts[i].path, ts[i].node, row));
    if ts != [] {
      var rest := ts[1..];
      WalkRows(op, g, row, rest);
      var hops' := seq(|rest|, i requires 0 <= i < |rest| => Hop(rest[i].path, rest[i].node, row));
      assert hops[1..] == hops' && hops[0] == Hop(ts[0].path, ts[0].node, row);
      WalkRowMeans(op, g, ts[0], row);
      var out, out' := HopRows(op, g, hops), HopRows(op, g, hops');
      forall k | 0 <= k < |ts| ensures BindsWalk(op, g, row, ts[k], out[k]) {
        if k > 0 {
          assert out[k] == out'[k - 1] && ts[k] == rest[k - 1];
        }
      }
    }
  }

  lemma HopsWalk(op: Op, g: Graph, row: Row)
    requires op.VarLenExpand?
    ensures Walks(op, g, row, HopRows(op, g, Hops(op, g, row)))
  {
    hide HopRows, Names, BindsWalk, TrailsFrom;
    forall n: nat | op.fromVariable in row && Names(row[op.fromVariable], n)
      ensures var trails, out := TrailsFrom(Look(g, op.direction, op.relTypes), n, op.minHops, op.maxHops), HopRows(op, g, Hops(op, g, row));
              |out| == |trails| && forall k | 0 <= k < |out| :: BindsWalk(op, g, row, trails[k], out[k])
    {
      StartIdMeans(row, op.fromVariable, n);
      WalkRows(op, g, row, TrailsFrom(LookOf(op, g), n, op.minHops, op.maxHops));
    }
    if forall n: nat :: !(op.fromVariable in row && Names(row[op.fromVariable], n)) {
      if StartId(row, op.fromVariable).Some? {
        StartIdMeans(row, op.fromVariable, StartId(row, op.fromVariable).value);
      }
      NoHops(op, g);
    }
  }

  /** A variable-length expansion gives, row after row, the walks from each row; which walks these are is
      `Trails.TrailsExact`, over the edges of `NeighboursMean`. */
  lemma VarLenMeans(op: Op, g: Graph, env: Env) returns (parts: seq<seq<Row>>)
    requires op.VarLenExpand? && ReadOnly(op)
    ensures var rows, out := Gather(Denote(op.input, g, env)), Gather(Denote(op, g, env));
            && (out.Some? <==> rows.Some?)
            && (out.Some? ==> out.value == Flat(parts) && |parts| == |rows.value|
                              && forall i | 0 <= i < |parts| :: Walks(op, g, rows.value[i], parts[i]))
  {
    hide Walks, Hops, HopRows;
    parts := ExpandStream(op, g, env, Denote(op.input, g, env));
    var rows := Gather(Denote(op.input, g, env));
    if rows.Some? {
      forall i | 0 <= i < |parts| ensures Walks(op, g, rows.value[i], parts[i]) {
        HopsWalk(op, g, rows.value[i]);
      }
    }
  }

  // ---------------------------------------------------------------- Skip and Limit

  /** `t` is `r` cut off toward zero. */
  ghost predicate CutOff(r: real, t: int) {
    if r >= 0.0 then t as real <= r < t as real + 1.0 else t as real - 1.0 < r <= t as real
  }

  /** A number held within 64 bits, with its sign. */
  ghost function Held(t: int): int {
    if t >= 0x8000_0000_0000_0000 then 0x7fff_ffff_ffff_ffff else if t < -0x8000_0000_0000_0000 then -0x8000_0000_0000_0000 else t
  }

  /** How many rows a count stands for: a number that is not negative is itself, a negative one wraps round to 64
      bits, a fraction is cut off toward zero and held within 64 bits first, and anything else is none. */
  ghost predicate CountsAs(v: Value, n: nat) {
    match v
    case Integer(i) => n < TWO_64 && (i - n) % TWO_64 == 0
    case Real(r) => n < TWO_64 && exists t :: CutOff(r, t) && (Held(t) - n) % TWO_64 == 0
    case _ => n == 0
  }

  lemma RowCountMeans(env: Env, count: Expr)
    ensures var k := RowCount(env, count);
            (k.Some? <==> env.eval(count, map[]).Some?) && (k.Some? ==> CountsAs(env.eval(count, map[]).value, k.value))
  {
    var v := env.eval(count, map[]);
    if v.Some? && v.value.Integer? {
      Remainder(v.value.i, RowCount(env, count).value);
    } else if v.Some? && v.value.Real? {
      var r := v.value.r;
      var t := if r >= 0.0 then r.Floor else -((-r).Floor);
      assert CutOff(r, t);
      Remainder(Held(t), RowCount(env, count).value);
    }
  }

  /** Skip leaves out that many rows and gives the others. */
  lemma SkipMeans(input: Op, count: Expr, g: Graph, env: Env) returns (n: nat)
    requires ReadOnly(input)
    ensures var rows, out, k := Gather(Denote(input, g, env)), Gather(Denote(Skip(input, count), g, env)), env.eval(count, map[]);
            && (out.Some? <==> rows.Some? && k.Some?)
            && (out.Some? ==> CountsAs(k.value, n) && out.value == if n <= |rows.value| then rows.value[n..] else [])
  {
    RowCountMeans(env, count);
    var k := RowCount(env, count);
    n := 0;
    if k.Some? {
      n := k.value;
      SkipStream(n, Denote(input, g, env));
    }
  }

  lemma {:induction false} SkipStream(n: nat, s: Stream)
    ensures var rows, out := Gather(s), Gather(SkipRows(n, s));
            (out.Some? <==> rows.Some?) && (out.Some? ==> out.value == if n <= |rows.value| then rows.value[n..] else [])
    decreases s
  {
    if n > 0 && s.Next? {
      SkipStream(n - 1, s.tail);
      if Gather(s.tail).Some? {
        assert Gather(s).value[1..] == Gather(s.tail).value;
      }
    }
  }

  /** Limit gives the first rows, that many at most; it fails only if the input fails before them. */
  lemma LimitMeans(input: Op, count: Expr, g: Graph, env: Env, first: seq<Row>, rest: Stream) returns (n: nat)
    requires ReadOnly(input) && Denote(input, g, env) == Prepend(first, rest)
    ensures var out, k := Gather(Denote(Limit(input, count), g, env)), env.eval(count, map[]);
            && (k.None? ==> out.None?)
            && (k.Some? ==> && CountsAs(k.value, n)
                            && (n <= |first| ==> out == Some(first[..n]))
                            && (n > |first| ==> (rest.Done? ==> out == Some(first)) && (rest.Fail? ==> out.None?)))
  {
    RowCountMeans(env, count);
    var k := RowCount(env, count);
    n := 0;
    if k.Some? {
      n := k.value;
      LimitStream(n, first, rest);
    }
  }

  lemma {:induction false} LimitStream(n: nat, first: seq<Row>, rest: Stream)
    ensures var out := Gather(TakeRows(n, Prepend(first, rest)));
            && (n <= |first| ==> out == Some(first[..n]))
            && (n > |first| ==> (rest.Done? ==> out == Some(first)) && (rest.Fail? ==> out.None?))
    decreases |first|
  {
    if n > 0 && first != [] {
      LimitStream(n - 1, first[1..], rest);
      assert n <= |first| ==> first[..n] == [first[0]] + first[1..][..n - 1];
      assert first == [first[0]] + first[1..];
    }
  }

  // ---------------------------------------------------------------- Apply and joins

  /** Apply pairs every outer row with every inner row, the outer ones in turn; where both bind a name, the inner
      row's value stands. */
  lemma ApplyMeans(outer: Op, inner: Op, g: Graph, env: Env)
    requires ReadOnly(outer) && ReadOnly(inner)
    ensures var a, b, out := Gather(Denote(outer, g, env)), Gather(Denote(inner, g, env)), Gather(Denote(Apply(outer, inner), g, env));
            && (out.Some? <==> a.Some? && (a.value == [] || b.Some?))
            && (out.Some? && b.Some? ==> Paired(a.value, b.value, out.value))
  {
    ApplyStream(Denote(outer, g, env), Denote(inner, g, env));
  }

  ghost predicate Paired(a: seq<Row>, b: seq<Row>, out: seq<Row>) {
    && |out| == |a| * |b|
    && forall i, j | 0 <= i < |a| && 0 <= j < |b| :: 0 <= At(i, j, |b|) < |out| && Laid(a[i], b[j], out[At(i, j, |b|)])
  }

  ghost function At(i: nat, j: nat, width: nat): nat {
    i * width + j
  }

  /** `out` binds what either row binds, as the second does where it binds it. */
  ghost predicate Laid(under: Row, over: Row, out: Row) {
    && out.Keys == under.Keys + over.Keys
    && forall x | x in out :: out[x] == if x in over then over[x] else under[x]
  }

  lemma {:induction false} OverMeans(row: Row, s: Stream, after: Stream)
    ensures var b, more, out := Gather(s), Gather(after), Gather(OverRow(row, s, after));
            && (out.Some? <==> b.Some? && more.Some?)
            && (out.Some? ==> |out.value| == |b.value| + |more.value| && out.value[|b.value|..] == more.value
                              && forall j | 0 <= j < |b.value| :: Laid(row, b.value[j], out.value[j]))
    decreases s
  {
    if s.Next? {
      OverMeans(row, s.tail, after);
      if Gather(s.tail).Some? && Gather(after).Some? {
        var b, out := Gather(s).value, Gather(OverRow(row, s, after)).value;
        var b', out' := Gather(s.tail).value, Gather(OverRow(row, s.tail, after)).value;
        assert out == [row + s.head] + out' && b == [s.head] + b';
        assert out[|b|..] == out'[|b'|..];
      }
    }
  }

  lemma {:induction false} ApplyStream(s: Stream, inner: Stream)
    ensures var a, b, out := Gather(s), Gather(inner), Gather(NestedLoop(s, inner));
            && (out.Some? <==> a.Some? && (a.value == [] || b.Some?))
            && (out.Some? && b.Some? ==> Paired(a.value, b.value, out.value))
    decreases s
  {
    hide Laid;
    if s.Next? {
      ApplyStream(s.tail, inner);
      OverMeans(s.head, inner, NestedLoop(s.tail, inner));
      if Gather(s.tail).Some? && Gather(inner).Some? {
        PairedOn(Gather(s).value, Gather(inner).value, Gather(NestedLoop(s, inner)).value, Gather(NestedLoop(s.tail, inner)).value);
      }
    }
  }

  lemma PairedOn(a: seq<Row>, b: seq<Row>, out: seq<Row>, rest: seq<Row>)
    requires a != [] && Paired(a[1..], b, rest) && |out| == |b| + |rest| && out[|b|..] == rest
    requires forall j | 0 <= j < |b| :: Laid(a[0], b[j], out[j])
    ensures Paired(a, b, out)
  {
    hide Laid;
    assert |a| * |b| == |b| + (|a| - 1) * |b|;
    forall i, j | 0 <= i < |a| && 0 <= j < |b| ensures 0 <= At(i, j, |b|) < |out| && Laid(a[i], b[j], out[At(i, j, |b|)]) {
      if i > 0 {
        Wider(i, j, |b|);
        assert Laid(a[1..][i - 1], b[j], rest[At(i - 1, j, |b|)]);
        assert out[At(i, j, |b|)] == out[|b|..][At(i - 1, j, |b|)];
      }
    }
  }

  lemma Wider(i: nat, j: nat, width: nat)
    requires i > 0
    ensures At(i, j, width) == width + At(i - 1, j, width)
  {
  }

  /** What a row has under a join key, as text; nothing is the empty text. */
  ghost function KeyText(env: Env, row: Row, key: string): string {
    if key in row then env.valueText(row[key]) else ""
  }

  ghost predicate SameKeys(env: Env, keys: seq<string>, l: Row, r: Row) {
    forall i | 0 <= i < |keys| :: KeyText(env, l, keys[i]) == KeyText(env, r, keys[i])
  }

  lemma JoinKeyMeans(env: Env, keys: seq<string>, l: Row, r: Row)
    ensures JoinKey(env, keys, l) == JoinKey(env, keys, r) <==> SameKeys(env, keys, l, r)
  {
    if JoinKey(env, keys, l) == JoinKey(env, keys, r) {
      forall i | 0 <= i < |keys| ensures KeyText(env, l, keys[i]) == KeyText(env, r, keys[i]) {
        assert JoinKey(env, keys, l)[i] == JoinKey(env, keys, r)[i];
      }
    }
  }

  /** The left rows that match a right row, in order, each under it. */
  ghost predicate Matched(env: Env, keys: seq<string>, ls: seq<Row>, r: Row, out: seq<Row>, ix: seq<nat>) {
    && Places(ix, |ls|) && |out| == |ix| && (forall k | 0 <= k < |ix| :: Laid(ls[ix[k]], r, out[k]))
    && forall i: nat | i < |ls| :: i in ix <==> SameKeys(env, keys, ls[i], r)
  }

  lemma MatchedOn(env: Env, keys: seq<string>, ls: seq<Row>, r: Row, out: seq<Row>, ix': seq<nat>) returns (ix: seq<nat>)
    requires ls != []
    requires if SameKeys(env, keys, ls[0], r) then out != [] && Laid(ls[0], r, out[0]) && Matched(env, keys, ls[1..], r, out[1..], ix')
             else Matched(env, keys, ls[1..], r, out, ix')
    ensures Matched(env, keys, ls, r, out, ix)
  {
    hide Laid, SameKeys;
    var keep := (l: Row) => SameKeys(env, keys, l, r);
    var goes := (l: Row, to: Row) => Laid(l, r, to);
    ix := PickedOn(keep, goes, ls, out, ix');
  }

  lemma {:induction false} MatchesMean(env: Env, keys: seq<string>, ls: seq<Row>, r: Row) returns (ix: seq<nat>)
    ensures Matched(env, keys, ls, r, Matches(env, keys, ls, r), ix)
    decreases |ls|
  {
    hide Matched, SameKeys, JoinKey;
    if ls == [] {
      ix := NoneMatched(env, keys, r);
    } else {
      var ix' := MatchesMean(env, keys, ls[1..], r);
      JoinKeyMeans(env, keys, ls[0], r);
      var out := Matches(env, keys, ls, r);
      assert (if SameKeys(env, keys, ls[0], r) then out[1..] else out) == Matches(env, keys, ls[1..], r);
      ix := MatchedOn(env, keys, ls, r, out, ix');
    }
  }

  lemma NoneMatched(env: Env, keys: seq<string>, r: Row) returns (ix: seq<nat>)
    ensures Matched(env, keys, [], r, [], ix)
  {
    ix := [];
  }

  ghost predicate Joins(env: Env, keys: seq<string>, ls: seq<Row>, r: Row, out: seq<Row>) {
    exists ix :: Matched(env, keys, ls, r, out, ix)
  }

  /** `out` has, for every row of `b` in turn, the rows of `a` that match it. */
  ghost predicate JoinOf(env: Env, keys: seq<string>, a: Option<seq<Row>>, b: Option<seq<Row>>, out: Option<seq<Row>>, parts: seq<seq<Row>>) {
    && (out.Some? <==> a.Some? && b.Some?)
    && (out.Some? ==> out.value == Flat(parts) && |parts| == |b.value|
                      && forall j | 0 <= j < |parts| :: Joins(env, keys, a.value, b.value[j], parts[j]))
  }

  /** A hash join gives, right row after right row, the left rows with the same text under every key; it fails
      exactly if an input does. */
  lemma JoinMeans(left: Op, right: Op, keys: seq<string>, g: Graph, env: Env) returns (parts: seq<seq<Row>>)
    requires ReadOnly(left) && ReadOnly(right)
    ensures JoinOf(env, keys, Gather(Denote(left, g, env)), Gather(Denote(right, g, env)),
                   Gather(Denote(HashJoin(left, right, keys), g, env)), parts)
  {
    hide JoinOf, Gather, Joining;
    parts := JoinStream(env, keys, Denote(left, g, env), Denote(right, g, env));
  }

  lemma JoinStream(env: Env, keys: seq<string>, left: Stream, right: Stream) returns (parts: seq<seq<Row>>)
    ensures JoinOf(env, keys, Gather(left), Gather(right), Gather(Joining(env, keys, left, [], right)), parts)
  {
    hide Joins, JoinRows;
    var a, b := Gather(left), Gather(right);
    parts := [];
    if a.Some? && b.Some? {
      parts := JoinParts(env, keys, a.value, b.value);
      assert [] + b.value == b.value;
      GatherSeq(JoinRows(env, keys, a.value, b.value));
    }
  }

  lemma {:induction false} JoinParts(env: Env, keys: seq<string>, ls: seq<Row>, rs: seq<Row>) returns (parts: seq<seq<Row>>)
    ensures JoinRows(env, keys, ls, rs) == Flat(parts) && |parts| == |rs|
    ensures forall j | 0 <= j < |parts| :: Joins(env, keys, ls, rs[j], parts[j])
    decreases |rs|
  {
    hide Joins, Matches;
    parts := [];
    if rs != [] {
      var parts' := JoinParts(env, keys, ls, rs[1..]);
      MatchesJoin(env, keys, ls, rs[0]);
      parts := [Matches(env, keys, ls, rs[0])] + parts';
      assert parts[1..] == parts';
      assert forall j | 1 <= j < |parts| :: rs[j] == rs[1..][j - 1] && parts[j] == parts'[j - 1];
    }
  }

  lemma MatchesJoin(env: Env, keys: seq<string>, ls: seq<Row>, r: Row)
    ensures Joins(env, keys, ls, r, Matches(env, keys, ls, r))
  {
    hide Matched;
    var ix := MatchesMean(env, keys, ls, r);
  }

  /** A barrier gives the rows of its input. */
  lemma EagerMeans(input: Op, g: Graph, env: Env)
    requires ReadOnly(input)
    ensures Gather(Denote(Eager(input), g, env)) == Gather(Denote(input, g, env))
  {
    hide Gather, Breaking;
    EagerStream(Eager(input), env, Denote(input, g, env));
  }

  lemma EagerStream(op: Op, env: Env, s: Stream)
    requires op.Eager?
    ensures Gather(Breaking(op, env, s, 0)) == Gather(s)
  {
    hide SortPasses, GroupRows, Groups;
    var rows := Gather(s);
    if rows.Some? {
      assert Drop(rows.value, 0) == rows.value && Breaks(op, env, rows.value) == rows;
      GatherSeq(rows.value);
    }
  }

  /** Without an input there is one row, which binds nothing. */
  lemma SingleRowMeans(g: Graph, env: Env)
    ensures Gather(Denote(SingleRow, g, env)) == Some([map[]])
  {
    GatherSeq([map[]]);
  }
}
