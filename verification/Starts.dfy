/** Which plans start their expansions from nodes that are there (src/cypher/planner.rs:269-371,
    src/cypher/physical.rs): a condition on the plan alone, under which `MATCH ... CREATE` is safe. */
module Starts {
  import opened Frames
  import opened Ast
  import opened Plan
  import opened Graphs
  import opened Streams
  import opened Sorting
  import opened Physical
  import opened Operators
  import opened Creating
  import opened Halloween

  /** Evaluating a variable looks it up in the row. */
  ghost predicate LooksUp(env: Env) {
    forall name, row: Row :: env.eval(Var(name), row) == if name in row then Some(row[name]) else None
  }

  /** As a start of an expansion, the value is no id, or the id of an allocated node. */
  predicate KnownValue(v: Value, g: Graph) {
    match v
    case NodeV(id, _, _) => id < g.nextId
    case Integer(i) => ToU64(i) < g.nextId
    case _ => true
  }

  predicate KnownIn(row: Row, v: string, g: Graph) {
    v in row ==> KnownValue(row[v], g)
  }

  // ---------------------------------------------------------------- the condition on the plan

  /** In every row of the plan, variable `v` is a node of a scan or an expansion, a relationship or a
      list of them, or not there. */
  predicate Safe(op: Op, env: Env, v: string) {
    match op
    case SingleRow => true
    case AllNodesScan => true
    case NodeByLabelScan(_) => true
    case NodeByIdScan(_) => true
    case Expand(input, _, _, rel, end, _) => v == EndName(end) || rel == Some(v) || Safe(input, env, v)
    case VarLenExpand(input, _, _, rel, _, _, _, _) => rel == Some(v) || Safe(input, env, v)
    case Filter(input, _) => Safe(input, env, v)
    case Project(input, ps) =>
      forall i | 0 <= i < |ps| && ps[i].name == v :: ps[i].expression.Var? && Safe(input, env, ps[i].expression.name)
    case Sort(input, _) => Safe(input, env, v)
    case Skip(input, _) => Safe(input, env, v)
    case Limit(input, _) => Safe(input, env, v)
    case Eager(input) => Safe(input, env, v)
    case Aggregate(input, keys, aggs) =>
      && (forall i | 0 <= i < |keys| && env.exprText(keys[i]) == v :: keys[i].Var? && Safe(input, env, keys[i].name))
      && (forall i | 0 <= i < |aggs| :: aggs[i].alias != v)
    case Apply(outer, inner) => Safe(outer, env, v) && Safe(inner, env, v)
    case HashJoin(left, right, _) => Safe(left, env, v) && Safe(right, env, v)
    case _ => false
  }

  function EndName(end: Option<string>): string {
    if end.Some? then end.value else "_end_node"
  }

  /** Every expansion starts from such a variable, and by-id scans name allocated ids. */
  predicate SafePlan(op: Op, env: Env, next: nat) {
    && (op.NodeByIdScan? ==> op.id < next)
    && (op.Expand? || op.VarLenExpand? ==> Safe(op.input, env, op.fromVariable))
    && (First(op).Some? ==> SafePlan(First(op).value, env, next))
    && (Second(op).Some? ==> SafePlan(Second(op).value, env, next))
  }

  // ---------------------------------------------------------------- streams of known rows

  ghost predicate AllKnown(rows: seq<Row>, v: string, g: Graph) {
    forall i | 0 <= i < |rows| :: KnownIn(rows[i], v, g)
  }

  lemma KnownStart(row: Row, v: string, g: Graph)
    ensures KnownIn(row, v, g) <==> (StartId(row, v).Some? ==> StartId(row, v).value < g.nextId)
  {
  }

  lemma {:induction false} KnownPrepend(rows: seq<Row>, s: Stream, v: string, g: Graph)
    requires AllKnown(rows, v, g) && StartsKnown(s, v, g)
    ensures StartsKnown(Prepend(rows, s), v, g)
  {
    hide KnownIn, StartId;
    if rows != [] {
      KnownPrepend(rows[1..], s, v, g);
      KnownStart(rows[0], v, g);
    }
  }

  lemma {:induction false} KnownGathered(s: Stream, v: string, g: Graph)
    requires StartsKnown(s, v, g) && Gather(s).Some?
    ensures AllKnown(Gather(s).value, v, g)
  {
    hide KnownIn, StartId;
    if s.Next? {
      KnownGathered(s.tail, v, g);
      KnownStart(s.head, v, g);
    }
  }

  lemma {:induction false} KnownSkipped(n: nat, s: Stream, v: string, g: Graph)
    requires StartsKnown(s, v, g)
    ensures StartsKnown(SkipRows(n, s), v, g) && StartsKnown(TakeRows(n, s), v, g)
    decreases n
  {
    if n > 0 && s.Next? {
      KnownSkipped(n - 1, s.tail, v, g);
    }
  }

  lemma {:induction false} KnownOver(outer: Row, s: Stream, after: Stream, v: string, g: Graph)
    requires KnownIn(outer, v, g) && StartsKnown(s, v, g) && StartsKnown(after, v, g)
    ensures StartsKnown(OverRow(outer, s, after), v, g)
  {
    if s.Next? {
      KnownOver(outer, s.tail, after, v, g);
      KnownStart(s.head, v, g);
      KnownStart(outer + s.head, v, g);
    }
  }

  lemma {:induction false} KnownNested(s: Stream, inner: Stream, v: string, g: Graph)
    requires StartsKnown(s, v, g) && StartsKnown(inner, v, g)
    ensures StartsKnown(NestedLoop(s, inner), v, g)
  {
    if s.Next? {
      KnownNested(s.tail, inner, v, g);
      KnownStart(s.head, v, g);
      KnownOver(s.head, inner, NestedLoop(s.tail, inner), v, g);
    }
  }

  // ---------------------------------------------------------------- row by row

  lemma {:induction false} NodeRowsKnown(g: Graph, ids: seq<nat>, v: string)
    requires WellFormed(g)
    ensures AllKnown(NodeRows(g, ids), v, g)
  {
    if ids != [] {
      NodeRowsKnown(g, ids[1..], v);
    }
  }

  lemma HopRowKnown(op: Op, g: Graph, hop: Hop, v: string)
    requires (op.Expand? || op.VarLenExpand?) && WellFormed(g)
    requires op.Expand? ==> v == EndName(op.endVariable) || op.relVariable == Some(v) || KnownIn(hop.row, v, g)
    requires op.VarLenExpand? ==> op.relVariable == Some(v) || KnownIn(hop.row, v, g)
    requires op.Expand? ==> hop.path != []
    ensures HopRow(op, g, hop).Some? ==> KnownIn(HopRow(op, g, hop).value, v, g)
  {
    assert LoadNode(g, hop.node).Some? ==> hop.node < g.nextId;
  }

  lemma {:induction false} HopRowsKnown(op: Op, g: Graph, hops: seq<Hop>, v: string)
    requires (op.Expand? || op.VarLenExpand?) && WellFormed(g)
    requires forall i | 0 <= i < |hops| ::
               && (op.Expand? ==> v == EndName(op.endVariable) || op.relVariable == Some(v) || KnownIn(hops[i].row, v, g))
               && (op.VarLenExpand? ==> op.relVariable == Some(v) || KnownIn(hops[i].row, v, g))
               && (op.Expand? ==> hops[i].path != [])
    ensures AllKnown(HopRows(op, g, hops), v, g)
  {
    hide HopRow, KnownIn, WellFormed;
    if hops != [] {
      HopRowsKnown(op, g, hops[1..], v);
      HopRowKnown(op, g, hops[0], v);
    }
  }

  lemma {:induction false} ProjectedKnown(env: Env, ps: seq<Projection>, row: Row, out: Row, v: string, g: Graph)
    requires LooksUp(env) && KnownIn(out, v, g)
    requires forall i | 0 <= i < |ps| && ps[i].name == v :: ps[i].expression.Var? && KnownIn(row, ps[i].expression.name, g)
    ensures var r := ProjectRow(env, ps, row, out); r.Some? ==> KnownIn(r.value, v, g)
    decreases |ps|
  {
    if ps != [] && env.eval(ps[0].expression, row).Some? {
      var val := env.eval(ps[0].expression, row).value;
      ProjectedKnown(env, ps[1..], row, out[ps[0].name := val], v, g);
    }
  }

  /** What a row must keep to for the rows it gives to be known at `v`. */
  ghost predicate Enough(op: Op, row: Row, v: string, g: Graph)
    requires IsRowWise(op)
  {
    match op
    case Expand(_, _, _, rel, end, _) => v == EndName(end) || rel == Some(v) || KnownIn(row, v, g)
    case VarLenExpand(_, _, _, rel, _, _, _, _) => rel == Some(v) || KnownIn(row, v, g)
    case Project(_, ps) => forall i | 0 <= i < |ps| && ps[i].name == v :: ps[i].expression.Var? && KnownIn(row, ps[i].expression.name, g)
    case _ => KnownIn(row, v, g)
  }

  lemma RowsForKnown(op: Op, g: Graph, env: Env, row: Row, v: string)
    requires IsRowWise(op) && WellFormed(g) && LooksUp(env) && Enough(op, row, v, g)
    ensures var rows := RowsFor(op, g, env, row); rows.Some? ==> AllKnown(rows.value, v, g)
  {
    hide WellFormed, ProjectRow, LooksUp, HopRows, KnownIn;
    if op.Project? {
      assert KnownIn(map[], v, g) by {
        NothingKnown(v, g);
      }
      ProjectedKnown(env, op.projections, row, map[], v, g);
    } else if op.Expand? || op.VarLenExpand? {
      HopsOfRow(op, g, row);
      HopRowsKnown(op, g, Hops(op, g, row), v);
    }
  }

  lemma NothingKnown(v: string, g: Graph)
    ensures KnownIn(map[], v, g)
  {
  }

  lemma HopsOfRow(op: Op, g: Graph, row: Row)
    requires op.Expand? || op.VarLenExpand?
    ensures forall i | 0 <= i < |Hops(op, g, row)| :: Hops(op, g, row)[i].row == row && (op.Expand? ==> Hops(op, g, row)[i].path != [])
  {
  }

  ghost predicate AllEnough(op: Op, s: Stream, v: string, g: Graph)
    requires IsRowWise(op)
  {
    s.Next? ==> Enough(op, s.head, v, g) && AllEnough(op, s.tail, v, g)
  }

  lemma {:induction false} RowWiseKnown(op: Op, g: Graph, env: Env, s: Stream, v: string)
    requires IsRowWise(op) && WellFormed(g) && LooksUp(env) && AllEnough(op, s, v, g)
    ensures StartsKnown(RowWise(op, g, env, s), v, g)
  {
    hide WellFormed, LooksUp, RowsFor, Enough;
    if s.Next? {
      RowWiseKnown(op, g, env, s.tail, v);
      RowsForKnown(op, g, env, s.head, v);
      if RowsFor(op, g, env, s.head).Some? {
        KnownPrepend(RowsFor(op, g, env, s.head).value, RowWise(op, g, env, s.tail), v, g);
      }
    }
  }

  /** Known where the plan says so is enough. */
  lemma {:induction false} SafeEnough(op: Op, env: Env, s: Stream, v: string, g: Graph)
    requires IsRowWise(op) && Safe(op, env, v)
    requires forall u | Safe(op.input, env, u) :: StartsKnown(s, u, g)
    ensures AllEnough(op, s, v, g)
    decreases s
  {
    if s.Next? {
      forall u | Safe(op.input, env, u) ensures StartsKnown(s.tail, u, g) && KnownIn(s.head, u, g) {
        assert StartsKnown(s, u, g);
        KnownStart(s.head, u, g);
      }
      SafeEnough(op, env, s.tail, v, g);
    }
  }

  // ---------------------------------------------------------------- all rows at once

  lemma {:induction false} SortPermutes(keys: seq<Cmp<Row>>, rows: seq<Row>)
    ensures multiset(SortPasses(keys, rows)) == multiset(rows)
  {
    if keys != [] {
      SortPermutes(keys[1..], rows);
      StableSortPermutes(keys[0], SortPasses(keys[1..], rows));
    }
  }

  lemma PermutedKnown(xs: seq<Row>, ys: seq<Row>, v: string, g: Graph)
    requires AllKnown(xs, v, g) && multiset(ys) == multiset(xs)
    ensures AllKnown(ys, v, g)
  {
    hide KnownIn;
    forall i | 0 <= i < |ys| ensures KnownIn(ys[i], v, g) {
      assert ys[i] in multiset(xs);
      assert ys[i] in xs;
    }
  }

  lemma {:induction false} KeyFromRow(env: Env, keys: seq<Expr>, rows: seq<Row>, key: seq<Value>)
    requires key in FirstKeys(env, keys, rows)
    ensures exists i | 0 <= i < |rows| :: GroupKey(env, keys, rows[i]) == key
    decreases |rows|
  {
    hide GroupKey;
    var n := |rows| - 1;
    if key in FirstKeys(env, keys, rows[..n]) {
      KeyFromRow(env, keys, rows[..n], key);
      var i :| 0 <= i < n && GroupKey(env, keys, rows[..n][i]) == key;
      assert rows[i] == rows[..n][i];
    } else {
      assert GroupKey(env, keys, rows[n]) == key;
    }
  }

  lemma {:induction false} KeyRowKnown(env: Env, keys: seq<Expr>, key: seq<Value>, out: Row, v: string, g: Graph)
    requires |keys| == |key| && KnownIn(out, v, g)
    requires forall i | 0 <= i < |keys| && env.exprText(keys[i]) == v :: KnownValue(key[i], g)
    ensures KnownIn(KeyRow(env, keys, key, out), v, g)
    decreases |keys|
  {
    if keys != [] {
      KeyRowKnown(env, keys[1..], key[1..], out[env.exprText(keys[0]) := key[0]], v, g);
    }
  }

  lemma {:induction false} AggregateKnown(env: Env, aggs: seq<Aggregation>, rows: seq<Row>, out: Row, v: string, g: Graph)
    requires KnownIn(out, v, g) && forall i | 0 <= i < |aggs| :: aggs[i].alias != v
    ensures var r := AggregateInto(env, aggs, rows, out); r.Some? ==> KnownIn(r.value, v, g)
    decreases |aggs|
  {
    hide ComputeAggregate;
    if aggs != [] && ComputeAggregate(env, aggs[0], rows).Some? {
      AggregateKnown(env, aggs[1..], rows, out[aggs[0].alias := ComputeAggregate(env, aggs[0], rows).value], v, g);
    }
  }

  /** The keys that `v` stands for are values of known variables. */
  ghost predicate KeysKnown(env: Env, keys: seq<Expr>, key: seq<Value>, v: string, g: Graph) {
    |key| == |keys| && forall i | 0 <= i < |keys| && env.exprText(keys[i]) == v :: KnownValue(key[i], g)
  }

  lemma {:induction false} GroupRowsKnown(env: Env, keys: seq<Expr>, aggs: seq<Aggregation>, groups: seq<Group>, v: string, g: Graph)
    requires forall i | 0 <= i < |groups| :: |groups[i].key| == |keys| && KeysKnown(env, keys, groups[i].key, v, g)
    requires forall i | 0 <= i < |aggs| :: aggs[i].alias != v
    ensures var r := GroupRows(env, keys, aggs, groups); r.Some? ==> AllKnown(r.value, v, g)
    decreases |groups|
  {
    hide AggregateInto, KeyRow, KnownIn;
    if groups != [] {
      GroupRowsKnown(env, keys, aggs, groups[1..], v, g);
      NothingKnown(v, g);
      KeyRowKnown(env, keys, groups[0].key, map[], v, g);
      AggregateKnown(env, aggs, groups[0].rows, KeyRow(env, keys, groups[0].key, map[]), v, g);
    }
  }

  lemma KeyKnown(env: Env, keys: seq<Expr>, rows: seq<Row>, key: seq<Value>, v: string, g: Graph)
    requires LooksUp(env) && key in FirstKeys(env, keys, rows)
    requires forall i | 0 <= i < |keys| && env.exprText(keys[i]) == v :: keys[i].Var? && AllKnown(rows, keys[i].name, g)
    ensures KeysKnown(env, keys, key, v, g)
  {
    hide FirstKeys;
    KeyFromRow(env, keys, rows, key);
    var k :| 0 <= k < |rows| && GroupKey(env, keys, rows[k]) == key;
    forall i | 0 <= i < |keys| && env.exprText(keys[i]) == v ensures KnownValue(key[i], g) {
      assert KnownIn(rows[k], keys[i].name, g);
    }
  }

  /** What a pipeline breaker makes of known rows. */
  lemma BreaksKnown(op: Op, env: Env, rows: seq<Row>, v: string, g: Graph)
    requires IsPipelineBreaker(op) && LooksUp(env) && Safe(op, env, v)
    requires forall u | Safe(First(op).value, env, u) :: AllKnown(rows, u, g)
    ensures var r := Breaks(op, env, rows); r.Some? ==> AllKnown(r.value, v, g)
  {
    hide LooksUp, AllKnown, GroupRows, FirstKeys, SortPasses;
    match op
    case Sort(_, orderBy) =>
      SortPermutes(SortKeys(env, orderBy), rows);
      PermutedKnown(rows, SortPasses(SortKeys(env, orderBy), rows), v, g);
    case Eager(_) =>
    case Aggregate(_, keys, aggs) =>
      var ks, groups := FirstKeys(env, keys, rows), Groups(env, keys, rows);
      forall i | 0 <= i < |groups| ensures KeysKnown(env, keys, groups[i].key, v, g) {
        assert groups[i].key == ks[i];
        KeyKnown(env, keys, rows, ks[i], v, g);
      }
      FirstKeysWidth(env, keys, rows);
      GroupRowsKnown(env, keys, aggs, groups, v, g);
  }

  lemma {:induction false} MatchesKnown(env: Env, keys: seq<string>, ls: seq<Row>, r: Row, v: string, g: Graph)
    requires AllKnown(ls, v, g) && KnownIn(r, v, g)
    ensures AllKnown(Physical.Matches(env, keys, ls, r), v, g)
  {
    hide JoinKey;
    if ls != [] {
      MatchesKnown(env, keys, ls[1..], r, v, g);
      assert KnownIn(ls[0] + r, v, g);
    }
  }

  lemma {:induction false} JoinKnown(env: Env, keys: seq<string>, ls: seq<Row>, rs: seq<Row>, v: string, g: Graph)
    requires AllKnown(ls, v, g) && AllKnown(rs, v, g)
    ensures AllKnown(JoinRows(env, keys, ls, rs), v, g)
    decreases |rs|
  {
    hide Physical.Matches, KnownIn;
    if rs != [] {
      JoinKnown(env, keys, ls, rs[1..], v, g);
      MatchesKnown(env, keys, ls, rs[0], v, g);
    }
  }

  lemma SeqKnown(rows: seq<Row>, v: string, g: Graph)
    requires AllKnown(rows, v, g)
    ensures StartsKnown(FromSeq(rows), v, g)
  {
    KnownPrepend(rows, Done, v, g);
  }

  // ---------------------------------------------------------------- what the condition gives

  /** Over any well-formed graph, a safe variable names no node, or one that is there. */
  lemma {:induction false} SafeMeans(op: Op, g: Graph, env: Env, v: string)
    requires ReadOnly(op) && WellFormed(g) && LooksUp(env) && Safe(op, env, v)
    ensures StartsKnown(Denote(op, g, env), v, g)
    decreases op, 1
  {
    hide ReadOnly, WellFormed, LooksUp, Safe, Denote;
    ReadOnlyInputs(op);
    if IsRowWise(op) {
      SafeRowWise(op, g, env, v);
    } else if IsPipelineBreaker(op) {
      SafeBreaker(op, g, env, v);
    } else if op.Apply? || op.HashJoin? {
      SafeJoin(op, g, env, v);
    } else {
      SafeRest(op, g, env, v);
    }
  }

  lemma {:induction false} SafeRowWise(op: Op, g: Graph, env: Env, v: string)
    requires ReadOnly(op) && WellFormed(g) && LooksUp(env) && Safe(op, env, v) && IsRowWise(op)
    ensures StartsKnown(Denote(op, g, env), v, g)
    decreases op, 0
  {
    hide WellFormed, LooksUp, Safe, RowWise, AllEnough;
    var s := Denote(op.input, g, env);
    forall u | Safe(op.input, env, u) ensures StartsKnown(s, u, g) {
      SafeMeans(op.input, g, env, u);
    }
    SafeEnough(op, env, s, v, g);
    RowWiseKnown(op, g, env, s, v);
  }

  lemma {:induction false} SafeBreaker(op: Op, g: Graph, env: Env, v: string)
    requires ReadOnly(op) && WellFormed(g) && LooksUp(env) && Safe(op, env, v) && IsPipelineBreaker(op)
    ensures StartsKnown(Denote(op, g, env), v, g)
    decreases op, 0
  {
    hide WellFormed, LooksUp, Safe, Breaks, AllKnown;
    var s := Denote(First(op).value, g, env);
    assert Denote(op, g, env) == Breaking(op, env, s, 0);
    if Gather(s).Some? {
      var rows := Gather(s).value;
      forall u | Safe(First(op).value, env, u) ensures AllKnown(rows, u, g) {
        SafeMeans(First(op).value, g, env, u);
        KnownGathered(s, u, g);
      }
      BreaksKnown(op, env, rows, v, g);
      var out := Breaks(op, env, rows);
      if out.Some? {
        assert Drop(out.value, 0) == out.value;
        SeqKnown(out.value, v, g);
      }
    }
  }

  lemma {:induction false} SafeJoin(op: Op, g: Graph, env: Env, v: string)
    requires ReadOnly(op) && WellFormed(g) && LooksUp(env) && Safe(op, env, v) && (op.Apply? || op.HashJoin?)
    ensures StartsKnown(Denote(op, g, env), v, g)
    decreases op, 0
  {
    hide WellFormed, LooksUp, AllKnown, JoinRows;
    var a, b := Denote(First(op).value, g, env), Denote(Second(op).value, g, env);
    SafeMeans(First(op).value, g, env, v);
    SafeMeans(Second(op).value, g, env, v);
    if op.Apply? {
      KnownNested(a, b, v, g);
    } else if Gather(a).Some? && Gather(b).Some? {
      KnownGathered(a, v, g);
      KnownGathered(b, v, g);
      JoinKnown(env, op.joinKeys, Gather(a).value, Gather(b).value, v, g);
      SeqKnown(JoinRows(env, op.joinKeys, Gather(a).value, Gather(b).value), v, g);
      assert [] + Gather(b).value == Gather(b).value;
    }
  }

  lemma {:induction false} SafeRest(op: Op, g: Graph, env: Env, v: string)
    requires ReadOnly(op) && WellFormed(g) && LooksUp(env) && Safe(op, env, v)
    requires !IsRowWise(op) && !IsPipelineBreaker(op) && !op.Apply? && !op.HashJoin?
    ensures StartsKnown(Denote(op, g, env), v, g)
    decreases op, 0
  {
    hide WellFormed, LooksUp, NodeRows, AllKnown, SkipRows, TakeRows;
    match op
    case SingleRow =>
      NothingKnown(v, g);
      OneKnown(map[], v, g);
      SeqKnown([map[]], v, g);
    case AllNodesScan =>
      NodeRowsKnown(g, g.ids, v);
      SeqKnown(NodeRows(g, g.ids), v, g);
    case NodeByLabelScan(l) =>
      NodeRowsKnown(g, IdsWithLabel(g, g.ids, l), v);
      SeqKnown(NodeRows(g, IdsWithLabel(g, g.ids, l)), v, g);
    case NodeByIdScan(id) =>
      NodeRowsKnown(g, [id], v);
      SeqKnown(NodeRows(g, [id]), v, g);
    case Skip(input, n) =>
      SafeMeans(input, g, env, v);
      if RowCount(env, n).Some? {
        KnownSkipped(RowCount(env, n).value, Denote(input, g, env), v, g);
      }
    case Limit(input, n) =>
      SafeMeans(input, g, env, v);
      if RowCount(env, n).Some? {
        KnownSkipped(RowCount(env, n).value, Denote(input, g, env), v, g);
      }
  }

  lemma OneKnown(row: Row, v: string, g: Graph)
    requires KnownIn(row, v, g)
    ensures AllKnown([row], v, g)
  {
  }

  /** Over any well-formed graph, a safe plan names allocated ids alone. */
  lemma {:induction false} SafePlanKnown(op: Op, g: Graph, env: Env)
    requires ReadOnly(op) && WellFormed(g) && LooksUp(env) && SafePlan(op, env, g.nextId)
    ensures PlanIdsKnown(op, g, env)
    decreases op
  {
    hide ReadOnly, WellFormed, LooksUp, Safe, Denote;
    ReadOnlyInputs(op);
    if op.Expand? || op.VarLenExpand? {
      SafeMeans(op.input, g, env, op.fromVariable);
    }
    if First(op).Some? {
      SafePlanKnown(First(op).value, g, env);
    }
    if Second(op).Some? {
      SafePlanKnown(Second(op).value, g, env);
    }
  }

  // ---------------------------------------------------------------- MATCH ... CREATE

  datatype PathLength = Fixed(n: nat) | Range(min: nat, max: Option<nat>)

  datatype MatchElem =
    | MatchNode(variable: Option<string>, labels: seq<string>)
    | MatchRel(types: seq<string>, variable: Option<string>, direction: Direction, length: PathLength)

  /** The scan for the first node of a pattern, renamed to its variable. */
  function ScanAs(labels: seq<string>, name: string): Op {
    Project(if labels == [] then AllNodesScan else NodeByLabelScan(labels[0]), [Projection(name, Var(NODE))])
  }

  /** The expansion for a relationship, to the variable of the next node. */
  function ExpandAs(rel: MatchElem, input: Op, end: Option<string>, from: string): Op
    requires rel.MatchRel?
  {
    match rel.length
    case Fixed(n) =>
      if n <= 1 then Expand(input, rel.direction, rel.types, rel.variable, end, from)
      else VarLenExpand(input, rel.direction, rel.types, rel.variable, end, from, n, Some(n))
    case Range(min, max) => VarLenExpand(input, rel.direction, rel.types, rel.variable, end, from, min, max)
  }

  function EndOf(elems: seq<MatchElem>, i: nat): Option<string> {
    if i + 1 < |elems| && elems[i + 1].MatchNode? then elems[i + 1].variable else None
  }

  /** `build_match_plan` of a query's first MATCH, from element `i` on; `anon` names the nodes without
      a variable. */
  function MatchFrom(anon: nat -> string, elems: seq<MatchElem>, i: nat, current: Option<Op>, last: Option<string>): Option<Op>
    decreases |elems| - i
  {
    if i >= |elems| then current
    else
      match elems[i]
      case MatchNode(variable, labels) =>
        var name := if variable.Some? then variable.value else anon(i);
        MatchFrom(anon, elems, i + 1, Some(if current.Some? then current.value else ScanAs(labels, name)), Some(name))
      case MatchRel(_, _, _, _) =>
        var input := if current.Some? then current.value else AllNodesScan;
        MatchFrom(anon, elems, i + 1, Some(ExpandAs(elems[i], input, EndOf(elems, i), if last.Some? then last.value else "_")), last)
  }

  method PlanMatch(anon: nat -> string, elems: seq<MatchElem>) returns (plan: Option<Op>)
    ensures plan == MatchFrom(anon, elems, 0, None, None)
    ensures plan.None? <==> elems == []
  {
    var current: Option<Op>, last: Option<string> := None, None;
    for i := 0 to |elems|
      invariant MatchFrom(anon, elems, i, current, last) == MatchFrom(anon, elems, 0, None, None)
      invariant current.None? <==> i == 0
    {
      match elems[i]
      case MatchNode(variable, labels) =>
        var name := if variable.Some? then variable.value else anon(i);
        if current.None? {
          current := Some(ScanAs(labels, name));
        }
        last := Some(name);
      case MatchRel(_, _, _, _) =>
        var input := if current.Some? then current.value else AllNodesScan;
        current := Some(ExpandAs(elems[i], input, EndOf(elems, i), if last.Some? then last.value else "_"));
    }
    plan := current;
  }

  /** Every variable of such a plan is safe, and no row of it is an error. */
  ghost predicate MatchShaped(op: Op, env: Env, next: nat) {
    && ReadOnly(op) && (forall v :: Safe(op, env, v)) && SafePlan(op, env, next)
    && forall g :: Gather(Denote(op, g, env)).Some?
  }

  lemma ScanShaped(labels: seq<string>, name: string, env: Env, next: nat)
    requires LooksUp(env)
    ensures MatchShaped(AllNodesScan, env, next) && MatchShaped(ScanAs(labels, name), env, next)
  {
    var op := ScanAs(labels, name);
    forall v ensures Safe(op, env, v) {
    }
    forall g ensures Gather(Denote(op, g, env)).Some? && Gather(Denote(AllNodesScan, g, env)).Some? {
      ScanGathers(op, g, env);
    }
  }

  lemma ScanGathers(op: Op, g: Graph, env: Env)
    requires LooksUp(env) && op.Project? && (op.input.AllNodesScan? || op.input.NodeByLabelScan?)
    requires |op.projections| == 1 && op.projections[0].expression == Var(NODE)
    ensures Gather(Denote(op, g, env)).Some? && Gather(Denote(AllNodesScan, g, env)).Some?
  {
    hide RowWise, NodeRows;
    var ids := if op.input.AllNodesScan? then g.ids else IdsWithLabel(g, g.ids, op.input.nodeLabel);
    assert Denote(op.input, g, env) == FromSeq(NodeRows(g, ids));
    NodesBound(g, ids);
    ProjectGathers(op, g, env, NodeRows(g, ids));
    GatherPrepend(NodeRows(g, g.ids), Done);
  }

  lemma {:induction false} NodesBound(g: Graph, ids: seq<nat>)
    ensures forall i | 0 <= i < |NodeRows(g, ids)| :: NODE in NodeRows(g, ids)[i]
  {
    if ids != [] {
      NodesBound(g, ids[1..]);
    }
  }

  lemma {:induction false} ProjectGathers(op: Op, g: Graph, env: Env, rows: seq<Row>)
    requires LooksUp(env) && op.Project? && |op.projections| == 1 && op.projections[0].expression == Var(NODE)
    requires forall i | 0 <= i < |rows| :: NODE in rows[i]
    ensures Gather(RowWise(op, g, env, FromSeq(rows))).Some?
    decreases |rows|
  {
    if rows != [] {
      ProjectGathers(op, g, env, rows[1..]);
      var out: Row := map[op.projections[0].name := rows[0][NODE]];
      assert op.projections[1..] == [];
      assert ProjectRow(env, op.projections, rows[0], map[]) == Some(out);
      GatherPrepend([out], RowWise(op, g, env, FromSeq(rows[1..])));
    }
  }

  lemma {:induction false} ExpandGathers(op: Op, g: Graph, env: Env, s: Stream)
    requires (op.Expand? || op.VarLenExpand?) && Gather(s).Some?
    ensures Gather(RowWise(op, g, env, s)).Some?
    decreases s
  {
    hide HopRows, Hops;
    if s.Next? {
      ExpandGathers(op, g, env, s.tail);
      GatherPrepend(HopRows(op, g, Hops(op, g, s.head)), RowWise(op, g, env, s.tail));
    }
  }

  lemma ExpandShaped(op: Op, env: Env, next: nat)
    requires (op.Expand? || op.VarLenExpand?) && MatchShaped(op.input, env, next)
    ensures MatchShaped(op, env, next)
  {
    hide Denote, ReadOnly, Safe;
    ExpandReads(op);
    forall v ensures Safe(op, env, v) {
      ExpandSafe(op, env, v);
    }
    forall g ensures Gather(Denote(op, g, env)).Some? {
      ExpandMeans(op, g, env);
    }
  }

  lemma ExpandReads(op: Op)
    requires (op.Expand? || op.VarLenExpand?) && ReadOnly(op.input)
    ensures ReadOnly(op)
  {
  }

  lemma ExpandSafe(op: Op, env: Env, v: string)
    requires (op.Expand? || op.VarLenExpand?) && Safe(op.input, env, v)
    ensures Safe(op, env, v)
  {
  }

  lemma ExpandMeans(op: Op, g: Graph, env: Env)
    requires (op.Expand? || op.VarLenExpand?) && ReadOnly(op) && ReadOnly(op.input) && Gather(Denote(op.input, g, env)).Some?
    ensures Gather(Denote(op, g, env)).Some?
  {
    hide RowWise, Gather;
    assert Denote(op, g, env) == RowWise(op, g, env, Denote(op.input, g, env));
    ExpandGathers(op, g, env, Denote(op.input, g, env));
  }

  /** `op` expands `input` as the relationship says: its direction, types and variable, one hop or as many as its
      length allows, between those two variables. */
  ghost predicate Follows(rel: MatchElem, input: Op, end: Option<string>, from: string, op: Op)
    requires rel.MatchRel?
  {
    && (op.Expand? || op.VarLenExpand?) && op.input == input && op.fromVariable == from && op.endVariable == end
    && op.direction == rel.direction && op.relTypes == rel.types && op.relVariable == rel.variable
    && (op.Expand? <==> rel.length == Fixed(0) || rel.length == Fixed(1))
    && (op.VarLenExpand? && rel.length.Fixed? ==> op.minHops == rel.length.n && op.maxHops == Some(rel.length.n))
    && (op.VarLenExpand? && rel.length.Range? ==> op.minHops == rel.length.min && op.maxHops == rel.length.max)
  }

  lemma ExpandIs(rel: MatchElem, input: Op, end: Option<string>, from: string)
    requires rel.MatchRel?
    ensures Follows(rel, input, end, from, ExpandAs(rel, input, end, from))
  {
  }

  /** The name of the last node before place `i`, `_` if there is none. */
  ghost predicate LastName(anon: nat -> string, elems: seq<MatchElem>, i: nat, name: string)
    requires i <= |elems|
  {
    || (name == "_" && forall j | 0 <= j < i :: !elems[j].MatchNode?)
    || exists j: nat :: NameAt(anon, elems, i, name, j)
  }

  ghost predicate NameAt(anon: nat -> string, elems: seq<MatchElem>, i: nat, name: string, j: nat)
    requires i <= |elems|
  {
    && j < i && elems[j].MatchNode? && (forall k | j < k < i :: !elems[k].MatchNode?)
    && name == if elems[j].variable.Some? then elems[j].variable.value else anon(j)
  }

  /** The plan after element `i`, over the one before: a leading node is a scan under its name, for its first label if
      it has one; any other node changes nothing; a relationship is an expansion from the last node's name to the next
      node's variable. */
  ghost predicate PlanGrows(anon: nat -> string, elems: seq<MatchElem>, i: nat, before: Option<Op>, after: Op)
    requires i < |elems|
  {
    match elems[i]
    case MatchNode(variable, labels) =>
      if before.Some? then after == before.value
      else
        && after.Project? && |after.projections| == 1 && after.projections[0].expression == Var("_node")
        && after.projections[0].name == (if variable.Some? then variable.value else anon(i))
        && after.input == (if labels == [] then AllNodesScan else NodeByLabelScan(labels[0]))
    case MatchRel(_, _, _, _) =>
      exists from :: LastName(anon, elems, i, from)
                     && Follows(elems[i], if before.Some? then before.value else AllNodesScan,
                                if i + 1 < |elems| && elems[i + 1].MatchNode? then elems[i + 1].variable else None, from, after)
  }

  /** `plans[j]` is the plan before the `j`-th element from place `i` on. */
  ghost predicate GrowsAt(anon: nat -> string, elems: seq<MatchElem>, i: nat, plans: seq<Option<Op>>, j: nat)
    requires j + 1 < |plans| && i + j < |elems|
  {
    plans[j + 1].Some? && PlanGrows(anon, elems, i + j, plans[j], plans[j + 1].value)
  }

  ghost predicate PlanBuilt(anon: nat -> string, elems: seq<MatchElem>, i: nat, plans: seq<Option<Op>>) {
    i <= |elems| && |plans| == |elems| - i + 1 && forall j: nat | j < |elems| - i :: GrowsAt(anon, elems, i, plans, j)
  }

  /** A MATCH plan is built element by element. */
  lemma {:induction false} MatchPlanIs(anon: nat -> string, elems: seq<MatchElem>, i: nat, current: Option<Op>, last: Option<string>)
    returns (plans: seq<Option<Op>>)
    requires i <= |elems| && LastName(anon, elems, i, if last.Some? then last.value else "_")
    ensures PlanBuilt(anon, elems, i, plans) && plans[0] == current
    ensures MatchFrom(anon, elems, i, current, last) == plans[|elems| - i]
    decreases |elems| - i
  {
    hide PlanGrows, LastName, ScanAs, ExpandAs;
    plans := [current];
    if i < |elems| {
      var op, last' := OneElement(anon, elems, i, current, last);
      var rest := MatchPlanIs(anon, elems, i + 1, Some(op), last');
      plans := [current] + rest;
      forall j: nat | j < |elems| - i ensures GrowsAt(anon, elems, i, plans, j) {
        if j > 0 {
          assert GrowsAt(anon, elems, i + 1, rest, j - 1);
        }
      }
    }
  }

  lemma OneElement(anon: nat -> string, elems: seq<MatchElem>, i: nat, current: Option<Op>, last: Option<string>)
    returns (op: Op, last': Option<string>)
    requires i < |elems| && LastName(anon, elems, i, if last.Some? then last.value else "_")
    ensures MatchFrom(anon, elems, i, current, last) == MatchFrom(anon, elems, i + 1, Some(op), last')
    ensures PlanGrows(anon, elems, i, current, op) && LastName(anon, elems, i + 1, if last'.Some? then last'.value else "_")
  {
    match elems[i]
    case MatchNode(variable, labels) =>
      var name := if variable.Some? then variable.value else anon(i);
      op, last' := if current.Some? then current.value else ScanAs(labels, name), Some(name);
      assert NameAt(anon, elems, i + 1, name, i);
    case MatchRel(_, _, _, _) =>
      var input, from := if current.Some? then current.value else AllNodesScan, if last.Some? then last.value else "_";
      op, last' := ExpandAs(elems[i], input, EndOf(elems, i), from), last;
      ExpandIs(elems[i], input, EndOf(elems, i), from);
      if j: nat :| NameAt(anon, elems, i, from, j) {
        assert NameAt(anon, elems, i + 1, from, j);
      }
  }

  /** Every MATCH plan is such a plan, whatever its pattern. */
  lemma {:induction false} MatchPlanShaped(anon: nat -> string, elems: seq<MatchElem>, i: nat, current: Option<Op>, last: Option<string>,
                                           env: Env, next: nat)
    requires LooksUp(env) && (current.Some? ==> MatchShaped(current.value, env, next))
    ensures var plan := MatchFrom(anon, elems, i, current, last); plan.Some? ==> MatchShaped(plan.value, env, next)
    decreases |elems| - i
  {
    hide LooksUp, MatchShaped, ScanAs, ExpandAs;
    if i < |elems| {
      match elems[i]
      case MatchNode(variable, labels) =>
        var name := if variable.Some? then variable.value else anon(i);
        ScanShaped(labels, name, env, next);
        MatchPlanShaped(anon, elems, i + 1, Some(if current.Some? then current.value else ScanAs(labels, name)), Some(name), env, next);
      case MatchRel(_, _, _, _) =>
        var input := if current.Some? then current.value else AllNodesScan;
        var from := if last.Some? then last.value else "_";
        ScanShaped([], "", env, next);
        ExpandIs(elems[i], input, EndOf(elems, i), from);
        ExpandShaped(ExpandAs(elems[i], input, EndOf(elems, i), from), env, next);
        MatchPlanShaped(anon, elems, i + 1, Some(ExpandAs(elems[i], input, EndOf(elems, i), from)), last, env, next);
    }
  }

  /** `MATCH <elems> CREATE <pattern>`, for every pattern of both and every well-formed graph: row by row
      from the growing graph, it ends as if all rows had been read first. */
  method DrainMatch(anon: nat -> string, elems: seq<MatchElem>, pattern: Pattern, g0: Graph, env: Env)
    returns (read: Op, out: Outcome)
    requires elems != [] && WellFormed(g0) && LooksUp(env)
    ensures MatchFrom(anon, elems, 0, None, None) == Some(read) && ReadOnly(read)
    ensures exists plans :: PlanBuilt(anon, elems, 0, plans) && plans[0] == None && plans[|elems|] == Some(read)
    ensures out == ReadFirst(g0, env, pattern, Denote(read, g0, env))
  {
    hide WellFormed, LooksUp, MatchFrom, Denote, PlanIdsKnown, Safe, SafePlan, BarrierIfConflict, Creates, PlanBuilt;
    var plan := PlanMatch(anon, elems);
    MatchPlanShaped(anon, elems, 0, None, None, env, g0.nextId);
    read := plan.value;
    ghost var plans := MatchPlanIs(anon, elems, 0, None, None);
    SafePlanKnown(read, g0, env);
    out := DrainCreate(read, pattern, g0, env);
  }
}
