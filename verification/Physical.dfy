/** Physical operators (src/cypher/physical.rs): what a read-only plan means, row by row, and the state
    a built operator tree is in between two pulls. */
module Physical {
  import opened Frames
  import opened Ast
  import opened Plan
  import opened Graphs
  import opened Trails
  import opened Streams
  import opened Sorting

  /** What the operators take from elsewhere: expression evaluation under the query's parameters, value
      arithmetic and the printing of values and expressions. */
  datatype Env = Env(
    eval: (Expr, Row) -> Option<Value>,
    valueText: Value -> string,
    exprText: Expr -> string,
    typeText: Option<string> -> string,
    add: (Value, Value) -> Option<Value>,
    div: (Value, Value) -> Option<Value>)

  const NODE: string := "_node"

  /** Plans built from the operators below. */
  predicate ReadOnly(op: Op) {
    match op
    case SingleRow => true
    case AllNodesScan => true
    case NodeByLabelScan(_) => true
    case NodeByIdScan(_) => true
    case Expand(input, _, _, _, _, _) => ReadOnly(input)
    case VarLenExpand(input, _, _, _, _, _, _, _) => ReadOnly(input)
    case Filter(input, _) => ReadOnly(input)
    case Project(input, _) => ReadOnly(input)
    case Sort(input, _) => ReadOnly(input)
    case Skip(input, _) => ReadOnly(input)
    case Limit(input, _) => ReadOnly(input)
    case Eager(input) => ReadOnly(input)
    case Aggregate(input, _, _) => ReadOnly(input)
    case Apply(l, r) => ReadOnly(l) && ReadOnly(r)
    case HashJoin(l, r, _) => ReadOnly(l) && ReadOnly(r)
    case Create(_, _) => false
    case Delete(_, _, _) => false
    case Set(_, _) => false
    case Remove(_, _) => false
    case Merge(_, _, _, _) => false
  }

  // ---------------------------------------------------------------- rows from one row

  const U64: int := 0x1_0000_0000_0000_0000
  const I64_MAX: int := 0x7fff_ffff_ffff_ffff

  function ToU64(i: int): nat {
    i % U64
  }

  /** `as_integer`: floats are cut off toward zero and held within 64 bits. */
  function AsInteger(v: Value): Option<int> {
    match v
    case Integer(i) => Some(i)
    case Real(r) =>
      var t := if r >= 0.0 then r.Floor else -((-r).Floor);
      Some(if t > I64_MAX then I64_MAX else if t < -I64_MAX - 1 then -I64_MAX - 1 else t)
    case _ => None
  }

  /** A SKIP or LIMIT count; anything but a number is 0. */
  function RowCount(env: Env, count: Expr): Option<nat> {
    match env.eval(count, map[])
    case None => None
    case Some(v) => match AsInteger(v) case Some(i) => Some(ToU64(i)) case None => Some(0)
  }

  function StartId(row: Row, variable: string): Option<nat> {
    if variable !in row then None
    else
      match row[variable]
      case NodeV(id, _, _) => Some(id)
      case Integer(i) => Some(ToU64(i))
      case _ => None
  }

  /** An entry of an expansion's pending buffer. */
  datatype Hop = Hop(path: seq<Edge>, node: nat, row: Row)

  function LookOf(op: Op, g: Graph): Look
    requires op.Expand? || op.VarLenExpand?
  {
    Look(g, op.direction, op.relTypes)
  }

  /** The entries an input row gives. */
  function Hops(op: Op, g: Graph, row: Row): seq<Hop>
    requires op.Expand? || op.VarLenExpand?
  {
    match StartId(row, op.fromVariable)
    case None => []
    case Some(start) =>
      if op.Expand? then
        var adj := Adj(LookOf(op, g), start);
        seq(|adj|, i requires 0 <= i < |adj| => Hop([adj[i].0], adj[i].1, row))
      else
        var trails := TrailsFrom(LookOf(op, g), start, op.minHops, op.maxHops);
        seq(|trails|, i requires 0 <= i < |trails| => Hop(trails[i].path, trails[i].node, row))
  }

  function Bind(row: Row, variable: Option<string>, value: Value): Row {
    if variable.Some? then row[variable.value := value] else row
  }

  function EdgeValues(path: seq<Edge>): seq<Value> {
    seq(|path|, i requires 0 <= i < |path| => EdgeValue(path[i]))
  }

  /** The row of an entry; a one-hop expansion leaves out entries without an end node. */
  function HopRow(op: Op, g: Graph, hop: Hop): Option<Row>
    requires op.Expand? || op.VarLenExpand?
  {
    var end := LoadNode(g, hop.node);
    if op.Expand? then
      var row := if hop.path == [] then hop.row else Bind(hop.row, op.relVariable, EdgeValue(hop.path[0]));
      match end
      case None => None
      case Some(nv) => Some(row[(if op.endVariable.Some? then op.endVariable.value else "_end_node") := nv])
    else
      var row := match end case None => hop.row case Some(nv) => Bind(hop.row, op.endVariable, nv);
      Some(Bind(row, op.relVariable, ListV(EdgeValues(hop.path))))
  }

  function HopRows(op: Op, g: Graph, hops: seq<Hop>): seq<Row>
    requires op.Expand? || op.VarLenExpand?
  {
    if hops == [] then []
    else
      (match HopRow(op, g, hops[0]) case Some(row) => [row] case None => []) + HopRows(op, g, hops[1..])
  }

  function ProjectRow(env: Env, projections: seq<Projection>, row: Row, out: Row): Option<Row>
    decreases |projections|
  {
    if projections == [] then Some(out)
    else
      match env.eval(projections[0].expression, row)
      case None => None
      case Some(v) => ProjectRow(env, projections[1..], row, out[projections[0].name := v])
  }

  predicate IsRowWise(op: Op) {
    op.Expand? || op.VarLenExpand? || op.Filter? || op.Project?
  }

  /** The rows that one input row gives, or none at all if it is an error. */
  function RowsFor(op: Op, g: Graph, env: Env, row: Row): Option<seq<Row>>
    requires IsRowWise(op)
  {
    match op
    case Filter(_, p) =>
      (match env.eval(p, row)
       case Some(Boolean(b)) => Some(if b then [row] else [])
       case Some(Null) => Some([])
       case _ => None)
    case Project(_, ps) => (match ProjectRow(env, ps, row, map[]) case Some(out) => Some([out]) case None => None)
    case _ => Some(HopRows(op, g, Hops(op, g, row)))
  }

  function RowWise(op: Op, g: Graph, env: Env, s: Stream): Stream
    requires IsRowWise(op)
  {
    match s
    case Done => Done
    case Fail => Fail
    case Next(row, rest) =>
      match RowsFor(op, g, env, row)
      case None => Fail
      case Some(rows) => Prepend(rows, RowWise(op, g, env, rest))
  }

  // ---------------------------------------------------------------- rows from all rows

  /** What an ORDER BY item sorts a row by. */
  function ItemValue(env: Env, item: OrderItem): Row -> Value {
    (row: Row) => match env.eval(item.expression, row) case Some(v) => v case None => Null
  }

  function SortKey(env: Env, item: OrderItem): Cmp<Row> {
    ByKey(ItemValue(env, item), item.ascending)
  }

  function SortKeys(env: Env, orderBy: seq<OrderItem>): seq<Cmp<Row>> {
    seq(|orderBy|, i requires 0 <= i < |orderBy| => SortKey(env, orderBy[i]))
  }

  function GroupKey(env: Env, keys: seq<Expr>, row: Row): seq<Value> {
    seq(|keys|, i requires 0 <= i < |keys| => match env.eval(keys[i], row) case Some(v) => v case None => Null)
  }

  datatype Group = Group(key: seq<Value>, rows: seq<Row>)

  function RowsWithKey(env: Env, keys: seq<Expr>, rows: seq<Row>, key: seq<Value>): seq<Row> {
    if rows == [] then []
    else (if GroupKey(env, keys, rows[0]) == key then [rows[0]] else []) + RowsWithKey(env, keys, rows[1..], key)
  }

  /** The keys in order of first appearance. */
  function FirstKeys(env: Env, keys: seq<Expr>, rows: seq<Row>): seq<seq<Value>> {
    if rows == [] then []
    else
      var n := |rows| - 1;
      var before, key := FirstKeys(env, keys, rows[..n]), GroupKey(env, keys, rows[n]);
      if key in before then before else before + [key]
  }

  /** The partition of the rows by key. */
  function Groups(env: Env, keys: seq<Expr>, rows: seq<Row>): seq<Group> {
    var ks := FirstKeys(env, keys, rows);
    seq(|ks|, i requires 0 <= i < |ks| => Group(ks[i], RowsWithKey(env, keys, rows, ks[i])))
  }

  /** The values an aggregate is taken over; rows where the argument is an error are left out. */
  function Arguments(env: Env, argument: Expr, rows: seq<Row>): seq<Value> {
    if rows == [] then []
    else
      var rest := Arguments(env, argument, rows[1..]);
      if argument.Wildcard? then [Integer(1)] + rest
      else match env.eval(argument, rows[0]) case Some(v) => [v] + rest case None => rest
  }

  function Dedup(vs: seq<Value>): seq<Value> {
    if |vs| < 2 then vs
    else if vs[0] == vs[1] then Dedup(vs[1..]) else [vs[0]] + Dedup(vs[1..])
  }

  function SumOf(env: Env, sum: Value, vs: seq<Value>): Option<Value>
    decreases |vs|
  {
    if vs == [] then Some(sum)
    else match env.add(sum, vs[0]) case None => None case Some(s) => SumOf(env, s, vs[1..])
  }

  /** The value kept when the later ones replace it where they compare as `o`. */
  function Extreme(best: Value, vs: seq<Value>, o: Ordering): Value
    decreases |vs|
  {
    if vs == [] then best
    else Extreme(if CompareValues(vs[0], best, true) == o then vs[0] else best, vs[1..], o)
  }

  /** The values as DISTINCT leaves them: sorted, then without those equal to the one before. */
  function DistinctOf(vs: seq<Value>): seq<Value> {
    Dedup(StableSort(ByKey((v: Value) => v, true), vs))
  }

  /** `compute_aggregate` */
  function ComputeAggregate(env: Env, agg: Aggregation, rows: seq<Row>): Option<Value> {
    var all := Arguments(env, agg.argument, rows);
    Folded(env, agg.function_, if agg.distinct then DistinctOf(all) else all)
  }

  function Folded(env: Env, f: AggregateFunction, vs: seq<Value>): Option<Value> {
    match f
    case Count => Some(Integer(|vs|))
    case Collect => Some(ListV(vs))
    case Sum => SumOf(env, Integer(0), vs)
    case Avg =>
      if vs == [] then Some(Null)
      else (match SumOf(env, Real(0.0), vs) case None => None case Some(s) => env.div(s, Integer(|vs|)))
    case Min => Some(if vs == [] then Null else Extreme(vs[0], vs[1..], Less))
    case Max => Some(if vs == [] then Null else Extreme(vs[0], vs[1..], Greater))
  }

  function AggregateInto(env: Env, aggs: seq<Aggregation>, rows: seq<Row>, out: Row): Option<Row>
    decreases |aggs|
  {
    if aggs == [] then Some(out)
    else
      match ComputeAggregate(env, aggs[0], rows)
      case None => None
      case Some(v) => AggregateInto(env, aggs[1..], rows, out[aggs[0].alias := v])
  }

  function KeyRow(env: Env, keys: seq<Expr>, key: seq<Value>, out: Row): Row
    requires |keys| == |key|
    decreases |keys|
  {
    if keys == [] then out else KeyRow(env, keys[1..], key[1..], out[env.exprText(keys[0]) := key[0]])
  }

  function GroupRows(env: Env, keys: seq<Expr>, aggs: seq<Aggregation>, groups: seq<Group>): Option<seq<Row>>
    requires forall i | 0 <= i < |groups| :: |groups[i].key| == |keys|
  {
    if groups == [] then Some([])
    else
      match AggregateInto(env, aggs, groups[0].rows, KeyRow(env, keys, groups[0].key, map[]))
      case None => None
      case Some(row) =>
        match GroupRows(env, keys, aggs, groups[1..])
        case None => None
        case Some(rows) => Some([row] + rows)
  }

  lemma {:induction false} FirstKeysWidth(env: Env, keys: seq<Expr>, rows: seq<Row>)
    ensures forall i | 0 <= i < |FirstKeys(env, keys, rows)| :: |FirstKeys(env, keys, rows)[i]| == |keys|
  {
    if rows != [] {
      FirstKeysWidth(env, keys, rows[..|rows| - 1]);
    }
  }

  /** What a pipeline breaker makes of its whole input. */
  function Breaks(op: Op, env: Env, rows: seq<Row>): Option<seq<Row>>
    requires IsPipelineBreaker(op)
  {
    match op
    case Sort(_, orderBy) => Some(SortPasses(SortKeys(env, orderBy), rows))
    case Aggregate(_, keys, aggs) =>
      FirstKeysWidth(env, keys, rows);
      GroupRows(env, keys, aggs, Groups(env, keys, rows))
    case Eager(_) => Some(rows)
  }

  /** From row `idx` on, what a pipeline breaker gives over `s`. */
  function Breaking(op: Op, env: Env, s: Stream, idx: nat): Stream
    requires IsPipelineBreaker(op)
  {
    match Gather(s)
    case None => Fail
    case Some(rows) => match Breaks(op, env, rows) case None => Fail case Some(out) => FromSeq(Drop(out, idx))
  }

  // ---------------------------------------------------------------- joins

  function JoinKey(env: Env, keys: seq<string>, row: Row): seq<string> {
    seq(|keys|, i requires 0 <= i < |keys| => if keys[i] in row then env.valueText(row[keys[i]]) else "")
  }

  /** The left rows with the right row's key, each under the right row. */
  function Matches(env: Env, keys: seq<string>, ls: seq<Row>, r: Row): seq<Row> {
    if ls == [] then []
    else (if JoinKey(env, keys, ls[0]) == JoinKey(env, keys, r) then [ls[0] + r] else []) + Matches(env, keys, ls[1..], r)
  }

  function JoinRows(env: Env, keys: seq<string>, ls: seq<Row>, rs: seq<Row>): seq<Row> {
    if rs == [] then [] else Matches(env, keys, ls, rs[0]) + JoinRows(env, keys, ls, rs[1..])
  }

  function Joining(env: Env, keys: seq<string>, left: Stream, seen: seq<Row>, right: Stream): Stream {
    match Gather(left)
    case None => Fail
    case Some(ls) =>
      match Gather(right)
      case None => Fail
      case Some(rs) => FromSeq(JoinRows(env, keys, ls, seen + rs))
  }

  // ---------------------------------------------------------------- what a plan means

  /** The nodes with these ids, as far as they are there. */
  function NodeRows(g: Graph, ids: seq<nat>): seq<Row> {
    if ids == [] then []
    else (match LoadNode(g, ids[0]) case Some(nv) => [map[NODE := nv]] case None => []) + NodeRows(g, ids[1..])
  }

  function Denote(op: Op, g: Graph, env: Env): Stream
    requires ReadOnly(op)
  {
    match op
    case SingleRow => FromSeq([map[]])
    case AllNodesScan => FromSeq(NodeRows(g, g.ids))
    case NodeByLabelScan(l) => FromSeq(NodeRows(g, IdsWithLabel(g, g.ids, l)))
    case NodeByIdScan(id) => FromSeq(NodeRows(g, [id]))
    case Expand(input, _, _, _, _, _) => RowWise(op, g, env, Denote(input, g, env))
    case VarLenExpand(input, _, _, _, _, _, _, _) => RowWise(op, g, env, Denote(input, g, env))
    case Filter(input, _) => RowWise(op, g, env, Denote(input, g, env))
    case Project(input, _) => RowWise(op, g, env, Denote(input, g, env))
    case Sort(input, _) => Breaking(op, env, Denote(input, g, env), 0)
    case Aggregate(input, _, _) => Breaking(op, env, Denote(input, g, env), 0)
    case Eager(input) => Breaking(op, env, Denote(input, g, env), 0)
    case Skip(input, n) => (match RowCount(env, n) case None => Fail case Some(k) => SkipRows(k, Denote(input, g, env)))
    case Limit(input, n) => (match RowCount(env, n) case None => Fail case Some(k) => TakeRows(k, Denote(input, g, env)))
    case Apply(outer, inner) => NestedLoop(Denote(outer, g, env), Denote(inner, g, env))
    case HashJoin(left, right, keys) => Joining(env, keys, Denote(left, g, env), [], Denote(right, g, env))
  }

  // ---------------------------------------------------------------- operator states

  type Table = map<seq<string>, seq<Row>>

  /** The fields of an operator that its pulls change; the others are those of its plan operator. */
  datatype State =
    | Emitted(emitted: bool)
    | Scanning(cursor: seq<nat>, at: nat)
    | Hopping(pending: seq<Hop>, at: nat)
    | Stateless
    | Buffered(buffer: Option<seq<Row>>, at: nat)
    | Counting(target: Option<nat>, passed: nat)
    | Looping(current: Option<Row>)
    | Probing(table: Option<Table>, rightRows: seq<Row>, rightIdx: nat, matches: seq<Row>, matchIdx: nat)

  /** A physical operator over its inputs. */
  datatype Phys = Phys(op: Op, first: Option<Phys>, second: Option<Phys>, state: State)

  /** As the constructors set the fields. */
  function Start(op: Op): State
    requires ReadOnly(op)
  {
    match op
    case SingleRow => Emitted(false)
    case AllNodesScan => Scanning([], 0)
    case NodeByLabelScan(_) => Scanning([], 0)
    case NodeByIdScan(_) => Emitted(false)
    case Expand(_, _, _, _, _, _) => Hopping([], 0)
    case VarLenExpand(_, _, _, _, _, _, _, _) => Hopping([], 0)
    case Filter(_, _) => Stateless
    case Project(_, _) => Stateless
    case Sort(_, _) => Buffered(None, 0)
    case Aggregate(_, _, _) => Buffered(None, 0)
    case Eager(_) => Buffered(None, 0)
    case Skip(_, _) => Counting(None, 0)
    case Limit(_, _) => Counting(None, 0)
    case Apply(_, _) => Looping(None)
    case HashJoin(_, _, _) => Probing(None, [], 0, [], 0)
  }

  /** As `reset` sets them. */
  function Cleared(state: State): State {
    match state
    case Emitted(_) => Emitted(false)
    case Scanning(_, _) => Scanning([], 0)
    case Hopping(_, _) => Hopping([], 0)
    case Stateless => Stateless
    case Buffered(_, _) => Buffered(None, 0)
    case Counting(_, _) => Counting(None, 0)
    case Looping(_) => Looping(None)
    case Probing(_, _, _, _, _) => Probing(None, [], 0, [], 0)
  }

  /** The operator has the fields of its kind, over inputs built from its plan's inputs. */
  predicate Valid(st: Phys)
    decreases st.op
  {
    && ReadOnly(st.op)
    && Cleared(st.state) == Start(st.op)
    && st.first.Some? == First(st.op).Some? && st.second.Some? == Second(st.op).Some?
    && (st.first.Some? ==> st.first.value.op == First(st.op).value && Valid(st.first.value))
    && (st.second.Some? ==> st.second.value.op == Second(st.op).value && Valid(st.second.value))
  }

  lemma ReadOnlyInputs(op: Op)
    requires ReadOnly(op)
    ensures First(op).Some? ==> ReadOnly(First(op).value)
    ensures Second(op).Some? ==> ReadOnly(Second(op).value)
  {
  }

  /** `build_physical_operator` */
  function Build(op: Op): (st: Phys)
    requires ReadOnly(op)
    ensures Valid(st) && st.op == op
  {
    ReadOnlyInputs(op);
    Phys(op,
         if First(op).Some? then Some(Build(First(op).value)) else None,
         if Second(op).Some? then Some(Build(Second(op).value)) else None,
         Start(op))
  }

  /** `reset` */
  function Reset(st: Phys): Phys {
    Phys(st.op,
         if st.first.Some? then Some(Reset(st.first.value)) else None,
         if st.second.Some? then Some(Reset(st.second.value)) else None,
         Cleared(st.state))
  }

  /** One right row against the hash table. */
  function Probe(env: Env, keys: seq<string>, t: Table, r: Row): seq<Row> {
    var key := JoinKey(env, keys, r);
    if key in t then seq(|t[key]|, i requires 0 <= i < |t[key]| => t[key][i] + r) else []
  }

  function ProbeAll(env: Env, keys: seq<string>, t: Table, rs: seq<Row>): seq<Row> {
    if rs == [] then [] else Probe(env, keys, t, rs[0]) + ProbeAll(env, keys, t, rs[1..])
  }

  function Minus(a: nat, b: nat): nat {
    if a >= b then a - b else 0
  }

  /** What is still to come of a scan over `ids`; an empty cursor is filled. */
  function ScanRest(g: Graph, state: State, ids: seq<nat>): Stream
    requires state.Scanning?
  {
    FromSeq(NodeRows(g, Drop(if state.cursor == [] then ids else state.cursor, state.at)))
  }

  /** What is still to come of a join, its inputs still having `left` and `right` to give. */
  function JoinRest(env: Env, keys: seq<string>, state: State, left: Stream, right: Stream): Stream
    requires state.Probing?
  {
    var now := Drop(state.matches, state.matchIdx);
    if state.table.Some? then FromSeq(now + ProbeAll(env, keys, state.table.value, Drop(state.rightRows, state.rightIdx)))
    else
      match Gather(left)
      case None => Fail
      case Some(ls) =>
        match Gather(right)
        case None => Fail
        case Some(rs) => FromSeq(now + JoinRows(env, keys, ls, Drop(state.rightRows + rs, state.rightIdx)))
  }

  /** The rows still to come of an operator whose inputs still have `a` and `b` to give, if the graph
      stays as it is. */
  function Rest(op: Op, state: State, g: Graph, env: Env, a: Stream, b: Stream): Stream
    requires ReadOnly(op) && Cleared(state) == Start(op)
  {
    match op
    case SingleRow => if state.emitted then Done else FromSeq([map[]])
    case AllNodesScan => ScanRest(g, state, g.ids)
    case NodeByLabelScan(l) => ScanRest(g, state, IdsWithLabel(g, g.ids, l))
    case NodeByIdScan(id) => if state.emitted then Done else FromSeq(NodeRows(g, [id]))
    case Expand(_, _, _, _, _, _) => Prepend(HopRows(op, g, Drop(state.pending, state.at)), RowWise(op, g, env, a))
    case VarLenExpand(_, _, _, _, _, _, _, _) => Prepend(HopRows(op, g, Drop(state.pending, state.at)), RowWise(op, g, env, a))
    case Filter(_, _) => RowWise(op, g, env, a)
    case Project(_, _) => RowWise(op, g, env, a)
    case Sort(_, _) => if state.buffer.Some? then FromSeq(Drop(state.buffer.value, state.at)) else Breaking(op, env, a, state.at)
    case Aggregate(_, _, _) => if state.buffer.Some? then FromSeq(Drop(state.buffer.value, state.at)) else Breaking(op, env, a, state.at)
    case Eager(_) => if state.buffer.Some? then FromSeq(Drop(state.buffer.value, state.at)) else Breaking(op, env, a, state.at)
    case Skip(_, n) =>
      (match (if state.target.Some? then state.target else RowCount(env, n))
       case None => Fail
       case Some(k) => SkipRows(Minus(k, state.passed), a))
    case Limit(_, n) =>
      (match (if state.target.Some? then state.target else RowCount(env, n))
       case None => Fail
       case Some(k) => TakeRows(Minus(k, state.passed), a))
    case Apply(_, inner) =>
      var later := NestedLoop(a, Denote(inner, g, env));
      if state.current.Some? then OverRow(state.current.value, b, later) else later
    case HashJoin(_, _, keys) => JoinRest(env, keys, state, a, b)
  }

  function Remaining(st: Phys, g: Graph, env: Env): Stream
    requires Valid(st)
    decreases st.op
  {
    Rest(st.op, st.state, g, env,
         if st.first.Some? then Remaining(st.first.value, g, env) else Done,
         if st.second.Some? then Remaining(st.second.value, g, env) else Done)
  }

  // ---------------------------------------------------------------- building and resetting

  /** An operator with nothing done yet gives what its plan operator makes of its inputs. */
  lemma StartMeans(op: Op, g: Graph, env: Env)
    requires ReadOnly(op)
    ensures Cleared(Start(op)) == Start(op)
    ensures var a := if First(op).Some? then (ReadOnlyInputs(op); Denote(First(op).value, g, env)) else Done;
            var b := if Second(op).Some? then (ReadOnlyInputs(op); Denote(Second(op).value, g, env)) else Done;
            Rest(op, Start(op), g, env, a, b) == Denote(op, g, env)
  {
    hide RowWise, Breaking, NodeRows, IdsWithLabel, JoinRows, SkipRows, TakeRows, NestedLoop, RowCount;
    if op.HashJoin? {
      assert forall rs: seq<Row> :: Drop([] + rs, 0) == [] + rs;
      assert forall rows: seq<Row> :: Drop<Row>([], 0) + rows == rows;
    }
  }

  /** An operator just built gives what its plan means. */
  lemma {:induction false} BuiltMeans(op: Op, g: Graph, env: Env)
    requires ReadOnly(op)
    ensures Remaining(Build(op), g, env) == Denote(op, g, env)
  {
    hide Rest, Denote, Start, Cleared, ReadOnly;
    ReadOnlyInputs(op);
    StartMeans(op, g, env);
    if First(op).Some? {
      BuiltMeans(First(op).value, g, env);
    }
    if Second(op).Some? {
      BuiltMeans(Second(op).value, g, env);
    }
  }

  /** A reset operator is as just built, whatever it has given before. */
  lemma {:induction false} ResetIsBuild(st: Phys)
    requires Valid(st)
    ensures Reset(st) == Build(st.op)
    decreases st.op
  {
    hide Start, Cleared, ReadOnly;
    if st.first.Some? {
      ResetIsBuild(st.first.value);
    }
    if st.second.Some? {
      ResetIsBuild(st.second.value);
    }
  }

  /** So a reset replays the plan's rows from the start. */
  lemma ResetReplays(st: Phys, g: Graph, env: Env)
    requires Valid(st)
    ensures Valid(Reset(st)) && Reset(st).op == st.op
    ensures Remaining(Reset(st), g, env) == Denote(st.op, g, env)
  {
    hide *;
    ResetIsBuild(st);
    ValidReadOnly(st);
    BuiltMeans(st.op, g, env);
  }

  lemma ValidReadOnly(st: Phys)
    requires Valid(st)
    ensures ReadOnly(st.op)
  {
  }
}
