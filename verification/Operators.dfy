/** `next_row` and `reset` (src/cypher/physical.rs).  An operator owns its inputs, so each method takes
    the operator tree it is called on and gives back the tree as it leaves it. */
module Operators {
  import opened Frames
  import opened Ast
  import opened Plan
  import opened Graphs
  import opened Trails
  import opened Streams
  import opened Sorting
  import opened Physical

  datatype Pull = Got(row: Row) | End | Error

  // ---------------------------------------------------------------- allocated ids

  /** An id that a row starts an expansion from has been allocated. */
  ghost predicate StartsKnown(s: Stream, variable: string, g: Graph) {
    s.Next? ==>
      && (StartId(s.head, variable).Some? ==> StartId(s.head, variable).value < g.nextId)
      && StartsKnown(s.tail, variable, g)
  }

  ghost predicate HopsKnown(hops: seq<Hop>, g: Graph) {
    forall i | 0 <= i < |hops| :: hops[i].node < g.nextId
  }

  /** The operator will not look at its inputs again. */
  predicate Materialised(state: State) {
    (state.Buffered? && state.buffer.Some?) || (state.Probing? && state.table.Some?)
  }

  /** The ids the operator itself holds, or will get from its input `a`, have been allocated. */
  ghost predicate OwnIdsKnown(op: Op, state: State, g: Graph, a: Stream) {
    && (state.Scanning? ==> forall i | 0 <= i < |state.cursor| :: state.cursor[i] < g.nextId)
    && (op.NodeByIdScan? ==> op.id < g.nextId)
    && (state.Hopping? ==> HopsKnown(state.pending, g))
    && (op.Expand? || op.VarLenExpand? ==> StartsKnown(a, op.fromVariable, g))
  }

  /** Every node id the operator tree holds or will come to look up has been allocated. */
  ghost predicate IdsKnown(st: Phys, g: Graph, env: Env)
    requires Valid(st)
    decreases st.op
  {
    Materialised(st.state)
    || (&& OwnIdsKnown(st.op, st.state, g, InputRest(st, g, env))
        && (st.first.Some? ==> IdsKnown(st.first.value, g, env))
        && (st.op.HashJoin? ==> IdsKnown(st.second.value, g, env))
        && (st.op.Apply? ==> IdsKnown(Build(st.op.right), g, env))
        && (st.op.Apply? && st.state.current.Some? ==> IdsKnown(st.second.value, g, env)))
  }

  ghost function InputRest(st: Phys, g: Graph, env: Env): Stream
    requires Valid(st)
  {
    if st.first.Some? then Remaining(st.first.value, g, env) else Done
  }

  // ---------------------------------------------------------------- what a pull does

  /** A pull takes the next row off what remains; the operator stays built from the same plan, and a
      pipeline breaker has its whole output by then. */
  ghost predicate Pulled(st: Phys, g: Graph, env: Env, st': Phys, r: Pull)
    requires Valid(st)
  {
    && Valid(st') && st'.op == st.op
    && Matches(Remaining(st, g, env), r, Remaining(st', g, env))
    && (r != Error && WellFormed(g) && IdsKnown(st, g, env) ==> IdsKnown(st', g, env))
    && (r != Error && IsPipelineBreaker(st.op) ==> Materialised(st'.state))
  }

  predicate Matches(s: Stream, r: Pull, after: Stream) {
    match s
    case Fail => r == Error
    case Done => r == End && after == Done
    case Next(row, rest) => r == Got(row) && after == rest
  }

  // ---------------------------------------------------------------- what a pull leaves behind

  /** A scan's cursor, filled if it was empty, ends up right after the node it gives; the ones it
      passes are not there. */
  ghost predicate ScanSteps(st: Phys, g: Graph, st': Phys, r: Pull)
    requires st.op.AllNodesScan? || st.op.NodeByLabelScan?
  {
    && st.state.Scanning? && st'.state.Scanning? && st' == st.(state := st'.state)
    && st'.state.cursor == (if st.state.cursor == [] then Fill(st.op, g) else st.state.cursor)
    && CursorSteps(g, st'.state.cursor, st.state.at, st'.state.at, r)
  }

  ghost predicate CursorSteps(g: Graph, cursor: seq<nat>, from: nat, to: nat, r: Pull) {
    if r.Got? then
      && from < to <= |cursor| && Absent(g, cursor, from, to - 1)
      && LoadNode(g, cursor[to - 1]).Some? && r.row == map[NODE := LoadNode(g, cursor[to - 1]).value]
    else r.End? && |cursor| <= to && Absent(g, cursor, from, |cursor|)
  }

  ghost predicate Absent(g: Graph, cursor: seq<nat>, from: nat, to: nat) {
    forall i | from <= i < to && i < |cursor| :: LoadNode(g, cursor[i]).None?
  }

  function ProjectPull(env: Env, projections: seq<Projection>, r: Pull): Pull {
    if !r.Got? then r
    else match ProjectRow(env, projections, r.row, map[]) case Some(out) => Got(out) case None => Error
  }

  /** The first entry that an input row gives is a row. */
  predicate Yields(op: Op, g: Graph, row: Row)
    requires op.Expand? || op.VarLenExpand?
  {
    Hops(op, g, row) != [] && HopRow(op, g, Hops(op, g, row)[0]).Some?
  }

  /** The operator tree a pull leaves behind, for scans, projections and expansions whose next row is
      at hand. */
  ghost predicate Steps(st: Phys, g: Graph, env: Env, st': Phys, r: Pull)
    decreases st.op
  {
    match st.op
    case AllNodesScan => ScanSteps(st, g, st', r)
    case NodeByLabelScan(_) => ScanSteps(st, g, st', r)
    case Project(input, projections) =>
      && st.first.Some? && st.first.value.op == input && st'.first.Some? && st' == st.(first := st'.first)
      && exists r0 :: Steps(st.first.value, g, env, st'.first.value, r0) && r == ProjectPull(env, projections, r0)
    case Expand(input, _, _, _, _, _) => st.first.Some? && st.first.value.op == input && st.state.Hopping? && HopSteps(st, g, env, st', r)
    case VarLenExpand(input, _, _, _, _, _, _, _) =>
      st.first.Some? && st.first.value.op == input && st.state.Hopping? && HopSteps(st, g, env, st', r)
    case _ => true
  }

  ghost predicate HopSteps(st: Phys, g: Graph, env: Env, st': Phys, r: Pull)
    requires (st.op.Expand? || st.op.VarLenExpand?) && st.state.Hopping? && st.first.Some? && st.first.value.op == st.op.input
    decreases st.op, 0
  {
    var hops, at := st.state.pending, st.state.at;
    if at < |hops| then
      HopRow(st.op, g, hops[at]).Some? ==>
        st' == st.(state := Hopping(hops, at + 1)) && r == Got(HopRow(st.op, g, hops[at]).value)
    else
      exists input, r0 :: Steps(st.first.value, g, env, input, r0) && FillSteps(st, g, input, r0, st', r)
  }

  /** What follows from the input's pull. */
  ghost predicate FillSteps(st: Phys, g: Graph, input: Phys, r0: Pull, st': Phys, r: Pull)
    requires st.op.Expand? || st.op.VarLenExpand?
  {
    && (!r0.Got? ==> st' == st.(first := Some(input)) && r == r0)
    && (r0.Got? && Yields(st.op, g, r0.row) ==>
          var hops := Hops(st.op, g, r0.row);
          st' == st.(first := Some(input), state := Hopping(hops, 1)) && r == Got(HopRow(st.op, g, hops[0]).value))
  }

  /** An expansion that has passed over an entry or an input row without getting a row from it. */
  ghost predicate Passed(st: Phys, g: Graph, env: Env)
    requires (st.op.Expand? || st.op.VarLenExpand?) && st.state.Hopping? && st.first.Some?
  {
    var hops, at := st.state.pending, st.state.at;
    if at < |hops| then HopRow(st.op, g, hops[at]).None?
    else exists input, row :: Steps(st.first.value, g, env, input, Got(row)) && !Yields(st.op, g, row)
  }

  lemma StepsPassed(st: Phys, g: Graph, env: Env, st': Phys, r: Pull)
    requires (st.op.Expand? || st.op.VarLenExpand?) && st.state.Hopping? && st.first.Some? && st.first.value.op == st.op.input
    requires Passed(st, g, env)
    ensures Steps(st, g, env, st', r)
  {
    hide HopRow, Hops;
    if st.state.at >= |st.state.pending| {
      var input, row :| Steps(st.first.value, g, env, input, Got(row)) && !Yields(st.op, g, row);
      assert FillSteps(st, g, input, Got(row), st', r);
    }
  }

  lemma StepsPending(st: Phys, g: Graph, env: Env)
    requires (st.op.Expand? || st.op.VarLenExpand?) && st.state.Hopping? && st.first.Some? && st.first.value.op == st.op.input
    requires st.state.at < |st.state.pending|
    ensures var row := HopRow(st.op, g, st.state.pending[st.state.at]);
            if row.Some? then Steps(st, g, env, st.(state := Hopping(st.state.pending, st.state.at + 1)), Got(row.value))
            else Passed(st, g, env)
  {
    hide HopRow;
  }

  lemma StepsFill(st: Phys, g: Graph, env: Env, input: Phys, r0: Pull, st': Phys, r: Pull)
    requires (st.op.Expand? || st.op.VarLenExpand?) && st.state.Hopping? && st.first.Some? && st.first.value.op == st.op.input
    requires st.state.at >= |st.state.pending| && Steps(st.first.value, g, env, input, r0) && FillSteps(st, g, input, r0, st', r)
    ensures Steps(st, g, env, st', r)
  {
    hide FillSteps;
  }

  lemma StepsSkip(st: Phys, g: Graph, env: Env, input: Phys, row: Row)
    requires (st.op.Expand? || st.op.VarLenExpand?) && st.state.Hopping? && st.first.Some? && st.first.value.op == st.op.input
    requires st.state.at >= |st.state.pending| && Steps(st.first.value, g, env, input, Got(row)) && !Yields(st.op, g, row)
    ensures Passed(st, g, env)
  {
    hide Yields;
  }

  /** The same operator over inputs that have moved on, with other fields of the same kind. */
  lemma Closed(st: Phys, st': Phys, g: Graph, env: Env)
    requires Valid(st) && st'.op == st.op && Cleared(st'.state) == Cleared(st.state)
    requires st'.first.Some? == st.first.Some? && st'.second.Some? == st.second.Some?
    requires st.first.Some? ==> Valid(st'.first.value) && st'.first.value.op == st.first.value.op
    requires st.second.Some? ==> Valid(st'.second.value) && st'.second.value.op == st.second.value.op
    ensures Valid(st')
  {
    hide Rest, Denote, ReadOnly, Start, OwnIdsKnown, Remaining, IdsKnown;
  }

  // ---------------------------------------------------------------- operators without input

  lemma LeafRest(st: Phys, g: Graph, env: Env)
    requires Valid(st) && First(st.op).None?
    ensures st.first.None? && st.second.None?
    ensures st.op.SingleRow? || st.op.NodeByIdScan? ==> st.state.Emitted?
    ensures st.op.AllNodesScan? || st.op.NodeByLabelScan? ==> st.state.Scanning?
    ensures st.op.SingleRow? ==> Remaining(st, g, env) == if st.state.emitted then Done else FromSeq([map[]])
    ensures st.op.NodeByIdScan? ==> Remaining(st, g, env) == if st.state.emitted then Done else FromSeq(NodeRows(g, [st.op.id]))
    ensures st.op.AllNodesScan? ==> Remaining(st, g, env) == ScanRest(g, st.state, g.ids)
    ensures st.op.NodeByLabelScan? ==> Remaining(st, g, env) == ScanRest(g, st.state, IdsWithLabel(g, g.ids, st.op.nodeLabel))
    ensures IdsKnown(st, g, env) <==> OwnIdsKnown(st.op, st.state, g, Done)
  {
    hide ScanRest, NodeRows, Denote, RowWise, Breaking, JoinRest;
  }

  lemma NodeRowsStep(g: Graph, cursor: seq<nat>, at: nat)
    requires at < |cursor|
    ensures FromSeq(NodeRows(g, Drop(cursor, at))) ==
            Prepend(match LoadNode(g, cursor[at]) case Some(nv) => [map[NODE := nv]] case None => [],
                    FromSeq(NodeRows(g, Drop(cursor, at + 1))))
  {
    hide LoadNode;
    assert Drop(cursor, at)[1..] == Drop(cursor, at + 1);
    PrependAppend(match LoadNode(g, cursor[at]) case Some(nv) => [map[NODE := nv]] case None => [],
                  NodeRows(g, Drop(cursor, at + 1)), Done);
  }

  lemma NoNodeRows(g: Graph)
    ensures FromSeq(NodeRows(g, [])) == Done
  {
  }

  method NextSingleRow(st: Phys, g: Graph, env: Env) returns (st': Phys, r: Pull)
    requires Valid(st) && st.op.SingleRow?
    ensures Pulled(st, g, env, st', r)
  {
    hide Valid, Remaining, Rest, Denote, IdsKnown;
    LeafRest(st, g, env);
    if st.state.emitted {
      return st, End;
    }
    st' := st.(state := Emitted(true));
    Closed(st, st', g, env);
    LeafRest(st', g, env);
    r := Got(map[]);
  }

  method NextNodeById(st: Phys, g: Graph, env: Env) returns (st': Phys, r: Pull)
    requires Valid(st) && st.op.NodeByIdScan?
    ensures Pulled(st, g, env, st', r)
  {
    hide Valid, Remaining, Rest, Denote, IdsKnown, NodeRows, LoadNode;
    LeafRest(st, g, env);
    if st.state.emitted {
      return st, End;
    }
    st' := st.(state := Emitted(true));
    Closed(st, st', g, env);
    LeafRest(st', g, env);
    NodeRowsStep(g, [st.op.id], 0);
    assert Drop([st.op.id], 0) == [st.op.id] && Drop([st.op.id], 1) == [];
    NoNodeRows(g);
    match LoadNode(g, st.op.id)
    case Some(nv) => r := Got(map[NODE := nv]);
    case None => r := End;
  }

  lemma {:induction false} LabelledKnown(g: Graph, ids: seq<nat>, l: string)
    requires WellFormed(g)
    ensures forall i | 0 <= i < |IdsWithLabel(g, ids, l)| :: IdsWithLabel(g, ids, l)[i] < g.nextId
  {
    if ids != [] {
      LabelledKnown(g, ids[1..], l);
    }
  }

  /** What fills an empty cursor. */
  function Fill(op: Op, g: Graph): seq<nat> {
    if op.NodeByLabelScan? then IdsWithLabel(g, g.ids, op.nodeLabel) else g.ids
  }

  lemma ScanMoves(st: Phys, g: Graph, env: Env, at: nat) returns (st': Phys)
    requires Valid(st) && (st.op.AllNodesScan? || st.op.NodeByLabelScan?)
    ensures st.state.Scanning?
    ensures var cursor := if st.state.cursor == [] then Fill(st.op, g) else st.state.cursor;
            && st' == st.(state := Scanning(cursor, at)) && Valid(st')
            && Remaining(st', g, env) == FromSeq(NodeRows(g, Drop(cursor, at)))
    ensures WellFormed(g) && IdsKnown(st, g, env) ==> IdsKnown(st', g, env)
  {
    hide Valid, Remaining, Rest, Denote, IdsKnown, NodeRows, IdsWithLabel;
    LeafRest(st, g, env);
    var cursor := if st.state.cursor == [] then Fill(st.op, g) else st.state.cursor;
    st' := st.(state := Scanning(cursor, at));
    Closed(st, st', g, env);
    LeafRest(st', g, env);
    if WellFormed(g) && st.op.NodeByLabelScan? {
      LabelledKnown(g, g.ids, st.op.nodeLabel);
    }
  }

  lemma AbsentNone(g: Graph, cursor: seq<nat>, from: nat)
    ensures Absent(g, cursor, from, from)
  {
  }

  /** A node of the cursor is there and given, or passed. */
  lemma AbsentStep(st: Phys, g: Graph, env: Env, cursor: seq<nat>, at: nat)
    requires (st.op.AllNodesScan? || st.op.NodeByLabelScan?) && st.state.Scanning? && st.state.at <= at < |cursor|
    requires cursor == (if st.state.cursor == [] then Fill(st.op, g) else st.state.cursor) && Absent(g, cursor, st.state.at, at)
    ensures match LoadNode(g, cursor[at])
            case Some(nv) => Steps(st, g, env, st.(state := Scanning(cursor, at + 1)), Got(map[NODE := nv]))
            case None => Absent(g, cursor, st.state.at, at + 1)
  {
    hide LoadNode, Fill;
  }

  lemma AbsentEnd(st: Phys, g: Graph, env: Env, cursor: seq<nat>, at: nat)
    requires (st.op.AllNodesScan? || st.op.NodeByLabelScan?) && st.state.Scanning? && st.state.at <= at && |cursor| <= at
    requires cursor == (if st.state.cursor == [] then Fill(st.op, g) else st.state.cursor) && Absent(g, cursor, st.state.at, at)
    ensures Steps(st, g, env, st.(state := Scanning(cursor, at)), End)
  {
    hide LoadNode, Fill;
  }

  /** `AllNodesScanOp` and `NodeByLabelScanOp`, which differ in how they fill an empty cursor. */
  method NextScanned(st: Phys, g: Graph, env: Env) returns (st': Phys, r: Pull)
    requires Valid(st) && (st.op.AllNodesScan? || st.op.NodeByLabelScan?)
    ensures Pulled(st, g, env, st', r) && Steps(st, g, env, st', r)
  {
    hide Valid, Remaining, Rest, Denote, IdsKnown, LoadNode, NodeRows, WellFormed, IdsWithLabel, Absent, Steps;
    LeafRest(st, g, env);
    var cursor, at := st.state.cursor, st.state.at;
    if cursor == [] {
      cursor := Fill(st.op, g);
    }
    AbsentNone(g, cursor, at);
    while at < |cursor|
      invariant FromSeq(NodeRows(g, Drop(cursor, at))) == Remaining(st, g, env)
      invariant st.state.at <= at && Absent(g, cursor, st.state.at, at)
    {
      NodeRowsStep(g, cursor, at);
      AbsentStep(st, g, env, cursor, at);
      var node := LoadNode(g, cursor[at]);
      at := at + 1;
      if node.Some? {
        ghost var moved := ScanMoves(st, g, env, at);
        return st.(state := Scanning(cursor, at)), Got(map[NODE := node.value]);
      }
    }
    st', r := st.(state := Scanning(cursor, at)), End;
    AbsentEnd(st, g, env, cursor, at);
    ghost var moved := ScanMoves(st, g, env, at);
    assert Drop(cursor, at) == [];
    NoNodeRows(g);
  }

  // ---------------------------------------------------------------- operators over one input

  /** A one-input operator after its input has moved on. */
  lemma Moved(st: Phys, input: Phys, state: State, g: Graph, env: Env)
    requires Valid(st) && st.first.Some? && Second(st.op).None?
    requires Valid(input) && input.op == st.first.value.op && Cleared(state) == Cleared(st.state)
    ensures ReadOnly(st.op) && Cleared(state) == Start(st.op)
    ensures var st' := st.(first := Some(input), state := state);
            && Valid(st')
            && Remaining(st', g, env) == Rest(st.op, state, g, env, Remaining(input, g, env), Done)
            && (Materialised(state) ==> IdsKnown(st', g, env))
            && (IdsKnown(input, g, env) && OwnIdsKnown(st.op, state, g, Remaining(input, g, env)) ==> IdsKnown(st', g, env))
  {
    hide Rest, Denote, ReadOnly, Start, OwnIdsKnown;
  }

  /** Before it has. */
  lemma OpenedOne(st: Phys, g: Graph, env: Env)
    requires Valid(st) && First(st.op).Some? && Second(st.op).None?
    ensures ReadOnly(st.op) && Cleared(st.state) == Start(st.op)
    ensures st.first.Some? && Valid(st.first.value) && st.first.value.op == First(st.op).value
    ensures Remaining(st, g, env) == Rest(st.op, st.state, g, env, Remaining(st.first.value, g, env), Done)
    ensures IdsKnown(st, g, env) && !Materialised(st.state) ==>
              IdsKnown(st.first.value, g, env) && OwnIdsKnown(st.op, st.state, g, Remaining(st.first.value, g, env))
  {
    hide Rest, Denote, ReadOnly, Start, OwnIdsKnown;
  }

  lemma RowWiseRest(op: Op, state: State, g: Graph, env: Env, a: Stream, b: Stream)
    requires ReadOnly(op) && Cleared(state) == Start(op) && IsRowWise(op)
    ensures First(op).Some? && Second(op).None?
    ensures op.Expand? || op.VarLenExpand? ==>
              && state.Hopping?
              && Rest(op, state, g, env, a, b) == Prepend(HopRows(op, g, Drop(state.pending, state.at)), RowWise(op, g, env, a))
    ensures op.Filter? || op.Project? ==> state.Stateless? && Rest(op, state, g, env, a, b) == RowWise(op, g, env, a)
  {
    hide RowWise, HopRows, Denote, Breaking, NodeRows, JoinRest;
  }

  method NextFiltered(st: Phys, g: Graph, env: Env) returns (st': Phys, r: Pull)
    requires Valid(st) && st.op.Filter?
    ensures Pulled(st, g, env, st', r)
    decreases st.op, 0
  {
    hide Valid, Remaining, Rest, Denote, IdsKnown, WellFormed, ReadOnly;
    OpenedOne(st, g, env);
    RowWiseRest(st.op, st.state, g, env, Remaining(st.first.value, g, env), Done);
    var input := st.first.value;
    while true
      invariant Valid(input) && input.op == st.op.input
      invariant RowWise(st.op, g, env, Remaining(input, g, env)) == Remaining(st, g, env)
      invariant WellFormed(g) && IdsKnown(st, g, env) ==> IdsKnown(input, g, env)
      decreases Remaining(input, g, env)
    {
      input, r := NextRow(input, g, env);
      Moved(st, input, Stateless, g, env);
      RowWiseRest(st.op, Stateless, g, env, Remaining(input, g, env), Done);
      if !r.Got? {
        return st.(first := Some(input)), r;
      }
      PrependOne(r.row, RowWise(st.op, g, env, Remaining(input, g, env)));
      match env.eval(st.op.predicate_, r.row)
      case Some(Boolean(true)) => return st.(first := Some(input)), r;
      case Some(Boolean(false)) =>
      case Some(Null) =>
      case _ => return st.(first := Some(input)), Error;
    }
  }

  /** `eval_projections` */
  method Projected(env: Env, projections: seq<Projection>, row: Row) returns (out: Option<Row>)
    ensures out == ProjectRow(env, projections, row, map[])
  {
    var fields: Row := map[];
    for i := 0 to |projections|
      invariant ProjectRow(env, projections[i..], row, fields) == ProjectRow(env, projections, row, map[])
    {
      assert projections[i..][1..] == projections[i + 1..];
      match env.eval(projections[i].expression, row)
      case None => return None;
      case Some(v) => fields := fields[projections[i].name := v];
    }
    out := Some(fields);
  }

  method NextProjected(st: Phys, g: Graph, env: Env) returns (st': Phys, r: Pull)
    requires Valid(st) && st.op.Project?
    ensures Pulled(st, g, env, st', r) && Steps(st, g, env, st', r)
    decreases st.op, 0
  {
    hide Valid, Remaining, Rest, Denote, IdsKnown, WellFormed, ReadOnly;
    OpenedOne(st, g, env);
    RowWiseRest(st.op, st.state, g, env, Remaining(st.first.value, g, env), Done);
    var input;
    input, r := NextRow(st.first.value, g, env);
    st' := st.(first := Some(input));
    Moved(st, input, Stateless, g, env);
    RowWiseRest(st.op, Stateless, g, env, Remaining(input, g, env), Done);
    if r.Got? {
      var out := Projected(env, st.op.projections, r.row);
      if out.Some? {
        PrependOne(out.value, RowWise(st.op, g, env, Remaining(input, g, env)));
        r := Got(out.value);
      } else {
        r := Error;
      }
    }
  }

  // ---------------------------------------------------------------- expansions

  /** The buffer an input row fills: the adjacency scan, or `bfs`. */
  method FillPending(op: Op, g: Graph, row: Row, start: nat) returns (hops: seq<Hop>)
    requires (op.Expand? || op.VarLenExpand?) && StartId(row, op.fromVariable) == Some(start)
    ensures hops == Hops(op, g, row)
  {
    hide TrailsFrom, Adj;
    hops := [];
    if op.Expand? {
      var adj := Adj(LookOf(op, g), start);
      for i := 0 to |adj|
        invariant |hops| == i && forall k | 0 <= k < i :: hops[k] == Hop([adj[k].0], adj[k].1, row)
      {
        hops := hops + [Hop([adj[i].0], adj[i].1, row)];
      }
    } else {
      var trails := Bfs(LookOf(op, g), start, op.minHops, op.maxHops);
      for i := 0 to |trails|
        invariant |hops| == i && forall k | 0 <= k < i :: hops[k] == Hop(trails[k].path, trails[k].node, row)
      {
        hops := hops + [Hop(trails[i].path, trails[i].node, row)];
      }
    }
  }

  lemma HopRowsStep(op: Op, g: Graph, hops: seq<Hop>, at: nat, s: Stream)
    requires op.Expand? || op.VarLenExpand?
    ensures at < |hops| ==>
              Prepend(HopRows(op, g, Drop(hops, at)), s) ==
              Prepend(match HopRow(op, g, hops[at]) case Some(row) => [row] case None => [],
                      Prepend(HopRows(op, g, Drop(hops, at + 1)), s))
    ensures at >= |hops| ==> Prepend(HopRows(op, g, Drop(hops, at)), s) == s
  {
    hide HopRow;
    if at < |hops| {
      assert Drop(hops, at)[1..] == Drop(hops, at + 1);
      PrependAppend(match HopRow(op, g, hops[at]) case Some(row) => [row] case None => [],
                    HopRows(op, g, Drop(hops, at + 1)), s);
    }
  }

  /** From an allocated node, walks of a well-formed graph end in allocated nodes. */
  lemma HopsFromKnown(op: Op, g: Graph, row: Row)
    requires op.Expand? || op.VarLenExpand?
    requires WellFormed(g)
    requires StartId(row, op.fromVariable).Some? ==> StartId(row, op.fromVariable).value < g.nextId
    ensures HopsKnown(Hops(op, g, row), g)
  {
    hide WellFormed, TrailsFrom, Neighbours;
    var start := StartId(row, op.fromVariable);
    if start.Some? {
      var v := LookOf(op, g);
      if op.Expand? {
        NeighboursAllocated(g, start.value, op.direction, op.relTypes);
      } else {
        var trails := TrailsFrom(v, start.value, op.minHops, op.maxHops);
        TrailsExact(v, start.value, op.minHops, op.maxHops);
        forall i | 0 <= i < |trails| ensures trails[i].node < g.nextId {
          assert trails[i] in trails;
          TrailEndKnown(v, start.value, trails[i]);
        }
      }
    }
  }

  lemma TrailEndKnown(v: Look, start: nat, t: Trail)
    requires WellFormed(v.g) && start < v.g.nextId && IsTrail(v, start, t)
    ensures t.node < v.g.nextId
  {
    hide WellFormed;
    if t.path != [] {
      var n := |t.path| - 1;
      var prev :| IsTrail(v, start, Trail(prev, t.path[..n])) && (t.path[n], t.node) in Adj(v, prev);
      NeighboursAllocated(v.g, prev, v.direction, v.types);
    }
  }

  /** What an expansion has still to give: the rest of its buffer, then what its input brings. */
  ghost function ExpandRest(op: Op, g: Graph, env: Env, hops: seq<Hop>, at: nat, a: Stream): Stream
    requires op.Expand? || op.VarLenExpand?
  {
    Prepend(HopRows(op, g, Drop(hops, at)), RowWise(op, g, env, a))
  }

  lemma ExpandRestStep(op: Op, g: Graph, env: Env, hops: seq<Hop>, at: nat, a: Stream)
    requires op.Expand? || op.VarLenExpand?
    ensures at < |hops| ==>
              ExpandRest(op, g, env, hops, at, a) ==
              match HopRow(op, g, hops[at])
              case Some(row) => Next(row, ExpandRest(op, g, env, hops, at + 1, a))
              case None => ExpandRest(op, g, env, hops, at + 1, a)
    ensures at >= |hops| ==> ExpandRest(op, g, env, hops, at, a) == RowWise(op, g, env, a)
    ensures a.Next? ==> RowWise(op, g, env, a) == ExpandRest(op, g, env, Hops(op, g, a.head), 0, a.tail)
  {
    hide HopRow, HopRows, Hops;
    HopRowsStep(op, g, hops, at, RowWise(op, g, env, a));
    if at < |hops| && HopRow(op, g, hops[at]).Some? {
      PrependOne(HopRow(op, g, hops[at]).value, ExpandRest(op, g, env, hops, at + 1, a));
    }
    if a.Next? {
      assert Drop(Hops(op, g, a.head), 0) == Hops(op, g, a.head);
    }
  }

  lemma NoStart(op: Op, g: Graph, env: Env, row: Row, a: Stream)
    requires (op.Expand? || op.VarLenExpand?) && StartId(row, op.fromVariable).None?
    ensures ExpandRest(op, g, env, Hops(op, g, row), 0, a) == RowWise(op, g, env, a) && !Yields(op, g, row)
  {
  }

  /** Where the expansion stands in its first steps: at its own buffer, at that of the first input row,
      or past an entry that gave nothing. */
  ghost predicate Stage(st: Phys, g: Graph, env: Env, input: Phys, hops: seq<Hop>, at: nat, row0: Option<Row>, passed: bool)
    requires (st.op.Expand? || st.op.VarLenExpand?) && st.state.Hopping? && st.first.Some? && st.first.value.op == st.op.input
  {
    if passed then Passed(st, g, env)
    else if row0.None? then input == st.first.value && hops == st.state.pending && at == st.state.at
    else
      && st.state.at >= |st.state.pending| && Steps(st.first.value, g, env, input, Got(row0.value))
      && hops == Hops(st.op, g, row0.value) && at == 0
  }

  /** An entry of the buffer is looked at. */
  lemma HopPassed(st: Phys, g: Graph, env: Env, input: Phys, hops: seq<Hop>, at: nat, row0: Option<Row>, passed: bool, moved: Phys)
    returns (passed': bool)
    requires (st.op.Expand? || st.op.VarLenExpand?) && st.state.Hopping? && st.first.Some? && st.first.value.op == st.op.input
    requires at < |hops| && Stage(st, g, env, input, hops, at, row0, passed)
    requires moved == st.(first := Some(input), state := Hopping(hops, at + 1))
    ensures var row := HopRow(st.op, g, hops[at]);
            if row.Some? then Steps(st, g, env, moved, Got(row.value)) else passed' && Passed(st, g, env)
    ensures passed ==> passed'
    ensures passed' ==> Passed(st, g, env)
  {
    hide HopRow, Hops, Steps, Passed;
    passed' := true;
    var row := HopRow(st.op, g, hops[at]);
    if passed {
      StepsPassed(st, g, env, moved, if row.Some? then Got(row.value) else End);
    } else if row0.None? {
      StepsPending(st, g, env);
      passed' := row.None?;
      assert st.first == Some(input);
    } else if row.Some? {
      StepsFill(st, g, env, input, Got(row0.value), moved, Got(row.value));
      passed' := false;
    } else {
      StepsSkip(st, g, env, input, row0.value);
    }
  }

  /** The input is pulled. */
  lemma InputPassed(st: Phys, g: Graph, env: Env, before: Phys, input: Phys, r: Pull, hops: seq<Hop>, at: nat,
                    row0: Option<Row>, passed: bool) returns (passed': bool, row0': Option<Row>)
    requires (st.op.Expand? || st.op.VarLenExpand?) && st.state.Hopping? && st.first.Some? && st.first.value.op == st.op.input
    requires at >= |hops| && Stage(st, g, env, before, hops, at, row0, passed) && Steps(before, g, env, input, r)
    ensures passed ==> passed'
    ensures passed' ==> Passed(st, g, env)
    ensures !r.Got? ==> Steps(st, g, env, st.(first := Some(input), state := Hopping(hops, at)), r)
    ensures r.Got? && !passed' ==>
              st.state.at >= |st.state.pending| && Steps(st.first.value, g, env, input, Got(r.row)) && row0' == Some(r.row)
  {
    hide HopRow, Hops, Steps, Passed;
    var moved := st.(first := Some(input), state := Hopping(hops, at));
    passed', row0' := passed, row0;
    if !passed && row0.Some? {
      StepsSkip(st, g, env, before, row0.value);
      passed' := true;
    }
    if passed' {
      StepsPassed(st, g, env, moved, r);
    } else if r.Got? {
      row0' := Some(r.row);
    } else {
      assert st.state == Hopping(hops, at);
      StepsFill(st, g, env, input, r, moved, r);
    }
  }

  /** `ExpandOp` and `VarLenExpandOp` */
  method NextExpanded(st: Phys, g: Graph, env: Env) returns (st': Phys, r: Pull)
    requires Valid(st) && (st.op.Expand? || st.op.VarLenExpand?)
    ensures Pulled(st, g, env, st', r) && Steps(st, g, env, st', r)
    decreases st.op, 0
  {
    hide Valid, Remaining, Rest, Denote, IdsKnown, WellFormed, ReadOnly, HopRow, HopRows, Hops, Prepend, StartId, Steps, Passed, Yields;
    OpenedOne(st, g, env);
    RowWiseRest(st.op, st.state, g, env, Remaining(st.first.value, g, env), Done);
    var input, hops, at: nat := st.first.value, st.state.pending, st.state.at;
    // The input row whose entries are in `hops`, while nothing has been passed over.
    ghost var row0: Option<Row> := None;
    ghost var passed := false;
    while true
      invariant Stage(st, g, env, input, hops, at, row0, passed)
      invariant Valid(input) && input.op == st.op.input
      invariant ExpandRest(st.op, g, env, hops, at, Remaining(input, g, env)) == Remaining(st, g, env)
      invariant WellFormed(g) && IdsKnown(st, g, env) ==>
                  IdsKnown(input, g, env) && HopsKnown(hops, g) && StartsKnown(Remaining(input, g, env), st.op.fromVariable, g)
      decreases Remaining(input, g, env), Minus(|hops|, at)
    {
      ExpandRestStep(st.op, g, env, hops, at, Remaining(input, g, env));
      if at < |hops| {
        var row := HopRow(st.op, g, hops[at]);
        ghost var moved := st.(first := Some(input), state := Hopping(hops, at + 1));
        passed := HopPassed(st, g, env, input, hops, at, row0, passed, moved);
        at := at + 1;
        if row.Some? {
          Moved(st, input, Hopping(hops, at), g, env);
          RowWiseRest(st.op, Hopping(hops, at), g, env, Remaining(input, g, env), Done);
          return st.(first := Some(input), state := Hopping(hops, at)), Got(row.value);
        }
      } else {
        ghost var a, before := Remaining(input, g, env), input;
        input, r := NextRow(input, g, env);
        passed, row0 := InputPassed(st, g, env, before, input, r, hops, at, row0, passed);
        if !r.Got? {
          Moved(st, input, Hopping(hops, at), g, env);
          RowWiseRest(st.op, Hopping(hops, at), g, env, Remaining(input, g, env), Done);
          ExpandRestStep(st.op, g, env, hops, at, Remaining(input, g, env));
          return st.(first := Some(input), state := Hopping(hops, at)), r;
        }
        if WellFormed(g) && IdsKnown(st, g, env) {
          HopsFromKnown(st.op, g, r.row);
        }
        ExpandRestStep(st.op, g, env, hops, at, Remaining(input, g, env));
        var start := StartId(r.row, st.op.fromVariable);
        if start.Some? {
          hops := FillPending(st.op, g, r.row, start.value);
          at := 0;
        } else {
          NoStart(st.op, g, env, r.row, Remaining(input, g, env));
          if !passed {
            StepsSkip(st, g, env, input, r.row);
            passed := true;
          }
        }
      }
    }
  }

  // ---------------------------------------------------------------- pipeline breakers

  /** The loop that drains an input. */
  method GatherAll(from: Phys, g: Graph, env: Env) returns (input: Phys, rows: seq<Row>, ok: bool)
    requires Valid(from)
    ensures Valid(input) && input.op == from.op
    ensures Gather(Remaining(from, g, env)) == if ok then Some(rows) else None
    decreases from.op, 2
  {
    hide Valid, Remaining, Denote, IdsKnown, WellFormed;
    input, rows := from, [];
    while true
      invariant Valid(input) && input.op == from.op
      invariant Prepend(rows, Remaining(input, g, env)) == Remaining(from, g, env)
      decreases Remaining(input, g, env)
    {
      var r;
      ghost var s := Remaining(input, g, env);
      input, r := NextRow(input, g, env);
      GatherPrepend(rows, s);
      if !r.Got? {
        assert rows + [] == rows;
        ok := r.End?;
        return;
      }
      PrependAppend(rows, [r.row], Remaining(input, g, env));
      PrependOne(r.row, Remaining(input, g, env));
      rows := rows + [r.row];
    }
  }

  /** The sorting loop of `SortOp`, from the last ORDER BY item to the first. */
  method SortRows(env: Env, orderBy: seq<OrderItem>, rows: seq<Row>) returns (out: seq<Row>)
    ensures out == SortPasses(SortKeys(env, orderBy), rows)
  {
    out := rows;
    ghost var keys := SortKeys(env, orderBy);
    for i := |orderBy| downto 0
      invariant out == SortPasses(keys[i..], rows)
    {
      assert keys[i..][1..] == keys[i + 1..];
      out := StableSort(SortKey(env, orderBy[i]), out);
    }
    assert keys[0..] == keys;
  }

  lemma {:induction false} RowsWithKeyAppend(env: Env, keys: seq<Expr>, rows: seq<Row>, row: Row, key: seq<Value>)
    ensures RowsWithKey(env, keys, rows + [row], key) ==
            RowsWithKey(env, keys, rows, key) + (if GroupKey(env, keys, row) == key then [row] else [])
  {
    hide GroupKey;
    if rows == [] {
      assert rows + [row] == [row];
    } else {
      assert (rows + [row])[1..] == rows[1..] + [row];
      RowsWithKeyAppend(env, keys, rows[1..], row, key);
    }
  }

  lemma {:induction false} FirstKeysAre(env: Env, keys: seq<Expr>, rows: seq<Row>)
    ensures forall i, j | 0 <= i < j < |FirstKeys(env, keys, rows)| :: FirstKeys(env, keys, rows)[i] != FirstKeys(env, keys, rows)[j]
    ensures forall i | 0 <= i < |rows| :: GroupKey(env, keys, rows[i]) in FirstKeys(env, keys, rows)
  {
    hide GroupKey;
    if rows != [] {
      var n := |rows| - 1;
      FirstKeysAre(env, keys, rows[..n]);
      forall i | 0 <= i < |rows| ensures GroupKey(env, keys, rows[i]) in FirstKeys(env, keys, rows) {
        assert i < n ==> rows[..n][i] == rows[i];
      }
    }
  }

  lemma {:induction false} NoRowsWithKey(env: Env, keys: seq<Expr>, rows: seq<Row>, key: seq<Value>)
    requires forall i | 0 <= i < |rows| :: GroupKey(env, keys, rows[i]) != key
    ensures RowsWithKey(env, keys, rows, key) == []
  {
    hide GroupKey;
    if rows != [] {
      NoRowsWithKey(env, keys, rows[1..], key);
    }
  }

  /** One more row: the groups there are keep their places, and the one with its key gets it. */
  lemma GroupsKeep(env: Env, keys: seq<Expr>, rows: seq<Row>, row: Row)
    ensures var before, after, key := Groups(env, keys, rows), Groups(env, keys, rows + [row]), GroupKey(env, keys, row);
            && |before| == |FirstKeys(env, keys, rows)| && |after| == |before| + (if key in FirstKeys(env, keys, rows) then 0 else 1)
            && (forall i | 0 <= i < |before| ::
                  && before[i].key == FirstKeys(env, keys, rows)[i]
                  && after[i] == if before[i].key == key then Group(key, before[i].rows + [row]) else before[i])
  {
    hide GroupKey;
    var before, after, key := Groups(env, keys, rows), Groups(env, keys, rows + [row]), GroupKey(env, keys, row);
    var ks := FirstKeys(env, keys, rows);
    assert (rows + [row])[..|rows|] == rows;
    forall i | 0 <= i < |ks|
      ensures after[i] == if ks[i] == key then Group(key, before[i].rows + [row]) else before[i]
    {
      RowsWithKeyAppend(env, keys, rows, row, ks[i]);
      assert before[i].rows + [] == before[i].rows;
    }
  }

  lemma GroupsAdd(env: Env, keys: seq<Expr>, rows: seq<Row>, row: Row)
    requires GroupKey(env, keys, row) !in FirstKeys(env, keys, rows)
    ensures var after := Groups(env, keys, rows + [row]);
            after != [] && after[|after| - 1] == Group(GroupKey(env, keys, row), [row])
  {
    hide GroupKey;
    var key := GroupKey(env, keys, row);
    assert (rows + [row])[..|rows|] == rows;
    FirstKeysAre(env, keys, rows);
    RowsWithKeyAppend(env, keys, rows, row, key);
    NoRowsWithKey(env, keys, rows, key);
  }

  /** One more row goes to the group of its key, or starts one at the end. */
  lemma GroupsStep(env: Env, keys: seq<Expr>, rows: seq<Row>, row: Row)
    ensures var before, after, key := Groups(env, keys, rows), Groups(env, keys, rows + [row]), GroupKey(env, keys, row);
            && (forall i | 0 <= i < |before| && before[i].key == key ::
                  after == before[i := Group(key, before[i].rows + [row])])
            && ((forall i | 0 <= i < |before| :: before[i].key != key) ==> after == before + [Group(key, [row])])
  {
    hide GroupKey, Groups, FirstKeys;
    var before, after, key := Groups(env, keys, rows), Groups(env, keys, rows + [row]), GroupKey(env, keys, row);
    FirstKeysAre(env, keys, rows);
    GroupsKeep(env, keys, rows, row);
    if key !in FirstKeys(env, keys, rows) {
      GroupsAdd(env, keys, rows, row);
    }
  }

  /** The grouping loop of `AggregateOp`. */
  method GroupAll(env: Env, keys: seq<Expr>, rows: seq<Row>) returns (groups: seq<Group>)
    ensures groups == Groups(env, keys, rows)
  {
    hide GroupKey, Groups;
    groups := [];
    NoGroups(env, keys);
    for n := 0 to |rows|
      invariant groups == Groups(env, keys, rows[..n])
    {
      assert rows[..n + 1] == rows[..n] + [rows[n]];
      GroupsStep(env, keys, rows[..n], rows[n]);
      var key := GroupKey(env, keys, rows[n]);
      var i := 0;
      while i < |groups| && groups[i].key != key
        invariant i <= |groups| && forall k | 0 <= k < i :: groups[k].key != key
      {
        i := i + 1;
      }
      if i < |groups| {
        groups := groups[i := Group(key, groups[i].rows + [rows[n]])];
      } else {
        groups := groups + [Group(key, [rows[n]])];
      }
    }
    assert rows[..|rows|] == rows;
  }

  lemma NoGroups(env: Env, keys: seq<Expr>)
    ensures Groups(env, keys, []) == []
  {
  }

  /** `AggregateOp` over its whole input. */
  method Aggregated(env: Env, op: Op, rows: seq<Row>) returns (out: Option<seq<Row>>)
    requires op.Aggregate?
    ensures out == Breaks(op, env, rows)
  {
    hide GroupKey, AggregateInto, KeyRow;
    var groups := GroupAll(env, op.groupingKeys, rows);
    FirstKeysWidth(env, op.groupingKeys, rows);
    var done := [];
    ghost var whole := GroupRows(env, op.groupingKeys, op.aggregations, groups);
    assert groups[0..] == groups && (whole.Some? ==> [] + whole.value == whole.value);
    for i := 0 to |groups|
      invariant whole == match GroupRows(env, op.groupingKeys, op.aggregations, groups[i..])
                         case None => None
                         case Some(more) => Some(done + more)
    {
      assert groups[i..][1..] == groups[i + 1..];
      var row := AggregateInto(env, op.aggregations, groups[i].rows, KeyRow(env, op.groupingKeys, groups[i].key, map[]));
      if row.None? {
        return None;
      }
      ghost var more := GroupRows(env, op.groupingKeys, op.aggregations, groups[i + 1..]);
      assert more.Some? ==> done + ([row.value] + more.value) == (done + [row.value]) + more.value;
      done := done + [row.value];
    }
    assert done + [] == done;
    out := Some(done);
  }

  lemma BreakerRest(op: Op, state: State, g: Graph, env: Env, a: Stream, b: Stream)
    requires ReadOnly(op) && Cleared(state) == Start(op) && IsPipelineBreaker(op)
    ensures First(op).Some? && Second(op).None? && state.Buffered?
    ensures Rest(op, state, g, env, a, b) ==
            if state.buffer.Some? then FromSeq(Drop(state.buffer.value, state.at)) else Breaking(op, env, a, state.at)
  {
    hide RowWise, HopRows, Denote, Breaking, NodeRows, JoinRest;
  }

  /** `SortOp`, `AggregateOp` and `EagerOp` */
  method NextBuffered(st: Phys, g: Graph, env: Env) returns (st': Phys, r: Pull)
    requires Valid(st) && IsPipelineBreaker(st.op)
    ensures Pulled(st, g, env, st', r)
    decreases st.op, 0
  {
    hide Valid, Remaining, Rest, Denote, IdsKnown, WellFormed, ReadOnly, Breaks, SortPasses, OwnIdsKnown;
    ValidReadOnly(st);
    ValidStart(st);
    BreakerRest(st.op, st.state, g, env, Done, Done);
    OpenedOne(st, g, env);
    BreakerRest(st.op, st.state, g, env, Remaining(st.first.value, g, env), Done);
    var input, buffer, at: nat := st.first.value, st.state.buffer, st.state.at;
    if buffer.None? {
      var rows, ok;
      input, rows, ok := GatherAll(input, g, env);
      Moved(st, input, st.state, g, env);
      if !ok {
        return st.(first := Some(input)), Error;
      }
      buffer := BreakRows(env, st.op, rows);
      if buffer.None? {
        return st.(first := Some(input)), Error;
      }
    }
    DropStep(buffer.value, at);
    if at >= |buffer.value| {
      st', r := st.(first := Some(input), state := Buffered(buffer, at)), End;
    } else {
      r := Got(buffer.value[at]);
      at := at + 1;
      st' := st.(first := Some(input), state := Buffered(buffer, at));
    }
    Moved(st, input, Buffered(buffer, at), g, env);
    BreakerRest(st.op, Buffered(buffer, at), g, env, Remaining(input, g, env), Done);
  }

  method BreakRows(env: Env, op: Op, rows: seq<Row>) returns (out: Option<seq<Row>>)
    requires IsPipelineBreaker(op)
    ensures out == Breaks(op, env, rows)
  {
    hide SortPasses, Groups, GroupRows, SortKeys;
    match op
    case Sort(_, orderBy) => { var sorted := SortRows(env, orderBy, rows); out := Some(sorted); }
    case Aggregate(_, _, _) => out := Aggregated(env, op, rows);
    case Eager(_) => out := Some(rows);
  }

  lemma ValidStart(st: Phys)
    requires Valid(st)
    ensures ReadOnly(st.op) && Cleared(st.state) == Start(st.op)
  {
  }

  // ---------------------------------------------------------------- SKIP and LIMIT

  lemma CountRest(op: Op, state: State, g: Graph, env: Env, a: Stream, b: Stream)
    requires ReadOnly(op) && Cleared(state) == Start(op) && (op.Skip? || op.Limit?)
    ensures First(op).Some? && Second(op).None? && state.Counting?
    ensures Rest(op, state, g, env, a, b) ==
            match (if state.target.Some? then state.target else RowCount(env, op.count))
            case None => Fail
            case Some(n) => if op.Skip? then SkipRows(Minus(n, state.passed), a) else TakeRows(Minus(n, state.passed), a)
  {
    hide RowWise, HopRows, Denote, Breaking, NodeRows, JoinRest, SkipRows, TakeRows;
  }

  /** The count, kept from the first pull on if it is a number. */
  method CountOf(env: Env, op: Op, state: State) returns (target: Option<nat>, ok: bool)
    requires (op.Skip? || op.Limit?) && state.Counting?
    ensures ok == (state.target.Some? || RowCount(env, op.count).Some?)
    ensures ok ==> (if target.Some? then target.value else 0)
                   == (if state.target.Some? then state.target.value else RowCount(env, op.count).value)
    ensures ok && target.None? ==> state.target.None? && RowCount(env, op.count) == Some(0)
  {
    target, ok := state.target, true;
    if target.None? {
      match env.eval(op.count, map[])
      case None => ok := false;
      case Some(v) =>
        match AsInteger(v)
        case Some(i) => target := Some(ToU64(i));
        case None =>
    }
  }

  method NextSkipped(st: Phys, g: Graph, env: Env) returns (st': Phys, r: Pull)
    requires Valid(st) && st.op.Skip?
    ensures Pulled(st, g, env, st', r)
    decreases st.op, 0
  {
    hide Valid, Remaining, Rest, Denote, IdsKnown, WellFormed, ReadOnly, RowCount, AsInteger;
    OpenedOne(st, g, env);
    CountRest(st.op, st.state, g, env, Remaining(st.first.value, g, env), Done);
    var target, ok := CountOf(env, st.op, st.state);
    if !ok {
      return st, Error;
    }
    var n := if target.Some? then target.value else 0;
    var input, passed: nat := st.first.value, st.state.passed;
    while passed < n
      invariant Valid(input) && input.op == st.op.input
      invariant SkipRows(Minus(n, passed), Remaining(input, g, env)) == Remaining(st, g, env)
      invariant WellFormed(g) && IdsKnown(st, g, env) ==> IdsKnown(input, g, env)
    {
      input, r := NextRow(input, g, env);
      Moved(st, input, Counting(target, passed), g, env);
      CountRest(st.op, Counting(target, passed), g, env, Remaining(input, g, env), Done);
      if !r.Got? {
        return st.(first := Some(input), state := Counting(target, passed)), r;
      }
      passed := passed + 1;
    }
    input, r := NextRow(input, g, env);
    st' := st.(first := Some(input), state := Counting(target, passed));
    Moved(st, input, Counting(target, passed), g, env);
    CountRest(st.op, Counting(target, passed), g, env, Remaining(input, g, env), Done);
  }

  method NextLimited(st: Phys, g: Graph, env: Env) returns (st': Phys, r: Pull)
    requires Valid(st) && st.op.Limit?
    ensures Pulled(st, g, env, st', r)
    decreases st.op, 0
  {
    hide Valid, Remaining, Rest, Denote, IdsKnown, WellFormed, ReadOnly, RowCount, AsInteger;
    OpenedOne(st, g, env);
    CountRest(st.op, st.state, g, env, Remaining(st.first.value, g, env), Done);
    var target, ok := CountOf(env, st.op, st.state);
    if !ok {
      return st, Error;
    }
    var n := if target.Some? then target.value else 0;
    var input, passed: nat := st.first.value, st.state.passed;
    if passed >= n {
      r := End;
    } else {
      input, r := NextRow(input, g, env);
      if r.Got? {
        passed := passed + 1;
      }
    }
    st' := st.(first := Some(input), state := Counting(target, passed));
    Moved(st, input, Counting(target, passed), g, env);
    CountRest(st.op, Counting(target, passed), g, env, Remaining(input, g, env), Done);
  }

  // ---------------------------------------------------------------- operators over two inputs

  lemma OpenedTwo(st: Phys, g: Graph, env: Env)
    requires Valid(st) && Second(st.op).Some?
    ensures ReadOnly(st.op) && Cleared(st.state) == Start(st.op)
    ensures st.first.Some? && Valid(st.first.value) && st.first.value.op == st.op.left
    ensures st.second.Some? && Valid(st.second.value) && st.second.value.op == st.op.right
    ensures Remaining(st, g, env) ==
            Rest(st.op, st.state, g, env, Remaining(st.first.value, g, env), Remaining(st.second.value, g, env))
    ensures IdsKnown(st, g, env) && !Materialised(st.state) ==>
              && IdsKnown(st.first.value, g, env)
              && (st.op.HashJoin? ==> IdsKnown(st.second.value, g, env))
              && (st.op.Apply? ==> ReadOnly(st.op.right) && IdsKnown(Build(st.op.right), g, env))
              && (st.op.Apply? && st.state.Looping? && st.state.current.Some? ==> IdsKnown(st.second.value, g, env))
  {
    hide Rest, Denote, ReadOnly, OwnIdsKnown;
  }

  lemma MovedTwo(st: Phys, first: Phys, second: Phys, state: State, g: Graph, env: Env)
    requires Valid(st) && Second(st.op).Some? && st.first.Some? && st.second.Some? && Cleared(state) == Cleared(st.state)
    requires Valid(first) && first.op == st.first.value.op && Valid(second) && second.op == st.second.value.op
    ensures ReadOnly(st.op) && Cleared(state) == Start(st.op)
    ensures var st' := Phys(st.op, Some(first), Some(second), state);
            && Valid(st')
            && Remaining(st', g, env) == Rest(st.op, state, g, env, Remaining(first, g, env), Remaining(second, g, env))
            && (Materialised(state) ==> IdsKnown(st', g, env))
            && (st.op.HashJoin? && IdsKnown(first, g, env) && IdsKnown(second, g, env) ==> IdsKnown(st', g, env))
            && (st.op.Apply? && state.Looping? && IdsKnown(first, g, env) && ReadOnly(st.op.right)
                  && IdsKnown(Build(st.op.right), g, env) && (state.current.Some? ==> IdsKnown(second, g, env))
                ==> IdsKnown(st', g, env))
  {
    hide Rest, Denote, ReadOnly;
  }

  ghost function ApplyRest(current: Option<Row>, outer: Stream, inner: Stream, anew: Stream): Stream {
    if current.Some? then OverRow(current.value, inner, NestedLoop(outer, anew)) else NestedLoop(outer, anew)
  }

  lemma ApplyRestIs(op: Op, state: State, g: Graph, env: Env, a: Stream, b: Stream)
    requires ReadOnly(op) && Cleared(state) == Start(op) && op.Apply?
    ensures Second(op).Some? && state.Looping? && ReadOnly(op.right)
    ensures Rest(op, state, g, env, a, b) == ApplyRest(state.current, a, b, Denote(op.right, g, env))
  {
    hide RowWise, HopRows, Breaking, NodeRows, JoinRest, SkipRows, TakeRows, NestedLoop, OverRow;
  }

  method NextApplied(st: Phys, g: Graph, env: Env) returns (st': Phys, r: Pull)
    requires Valid(st) && st.op.Apply?
    ensures Pulled(st, g, env, st', r)
    decreases st.op, 0
  {
    hide Valid, Remaining, Rest, Denote, IdsKnown, WellFormed, ReadOnly, Build;
    OpenedTwo(st, g, env);
    ApplyRestIs(st.op, st.state, g, env, Remaining(st.first.value, g, env), Remaining(st.second.value, g, env));
    ghost var anew := Denote(st.op.right, g, env);
    ghost var known := WellFormed(g) && IdsKnown(st, g, env);
    var outer, inner, current := st.first.value, st.second.value, st.state.current;
    while true
      invariant Valid(outer) && outer.op == st.op.left && Valid(inner) && inner.op == st.op.right
      invariant ApplyRest(current, Remaining(outer, g, env), Remaining(inner, g, env), anew) == Remaining(st, g, env)
      invariant known ==> IdsKnown(outer, g, env) && (current.Some? ==> IdsKnown(inner, g, env))
      decreases Remaining(outer, g, env), current.Some?
    {
      if current.None? {
        outer, r := NextRow(outer, g, env);
        MovedTwo(st, outer, inner, Looping(None), g, env);
        ApplyRestIs(st.op, Looping(None), g, env, Remaining(outer, g, env), Remaining(inner, g, env));
        if !r.Got? {
          return Phys(st.op, Some(outer), Some(inner), Looping(None)), r;
        }
        current := Some(r.row);
        ResetReplays(inner, g, env);
        ResetIsBuild(inner);
        inner := Reset(inner);
      }
      inner, r := NextRow(inner, g, env);
      MovedTwo(st, outer, inner, Looping(current), g, env);
      ApplyRestIs(st.op, Looping(current), g, env, Remaining(outer, g, env), Remaining(inner, g, env));
      if r.Got? {
        return Phys(st.op, Some(outer), Some(inner), Looping(current)), Got(current.value + r.row);
      }
      if r.Error? {
        return Phys(st.op, Some(outer), Some(inner), Looping(current)), Error;
      }
      current := None;
    }
  }

  // ---------------------------------------------------------------- the hash join

  function LeftWithKey(env: Env, keys: seq<string>, ls: seq<Row>, key: seq<string>): seq<Row> {
    if ls == [] then []
    else (if JoinKey(env, keys, ls[0]) == key then [ls[0]] else []) + LeftWithKey(env, keys, ls[1..], key)
  }

  /** The table holds, under each key, the left rows with that key in their order. */
  ghost predicate IsTable(env: Env, keys: seq<string>, t: Table, ls: seq<Row>) {
    forall key :: (if key in t then t[key] else []) == LeftWithKey(env, keys, ls, key)
  }

  lemma {:induction false} LeftWithKeyAppend(env: Env, keys: seq<string>, ls: seq<Row>, l: Row, key: seq<string>)
    ensures LeftWithKey(env, keys, ls + [l], key) ==
            LeftWithKey(env, keys, ls, key) + (if JoinKey(env, keys, l) == key then [l] else [])
  {
    hide JoinKey;
    if ls == [] {
      assert ls + [l] == [l];
    } else {
      assert (ls + [l])[1..] == ls[1..] + [l];
      LeftWithKeyAppend(env, keys, ls[1..], l, key);
    }
  }

  method BuildTable(env: Env, keys: seq<string>, ls: seq<Row>) returns (t: Table)
    ensures IsTable(env, keys, t, ls)
  {
    hide JoinKey;
    t := map[];
    for i := 0 to |ls|
      invariant IsTable(env, keys, t, ls[..i])
    {
      var key := JoinKey(env, keys, ls[i]);
      assert ls[..i + 1] == ls[..i] + [ls[i]];
      forall k ensures LeftWithKey(env, keys, ls[..i + 1], k) ==
                       LeftWithKey(env, keys, ls[..i], k) + (if key == k then [ls[i]] else []) {
        LeftWithKeyAppend(env, keys, ls[..i], ls[i], k);
      }
      t := t[key := (if key in t then t[key] else []) + [ls[i]]];
    }
    assert ls[..|ls|] == ls;
  }

  lemma {:induction false} MatchesAre(env: Env, keys: seq<string>, ls: seq<Row>, r: Row)
    ensures var mine := LeftWithKey(env, keys, ls, JoinKey(env, keys, r));
            |Physical.Matches(env, keys, ls, r)| == |mine|
            && forall i | 0 <= i < |mine| :: Physical.Matches(env, keys, ls, r)[i] == mine[i] + r
  {
    hide JoinKey;
    if ls != [] {
      MatchesAre(env, keys, ls[1..], r);
    }
  }

  /** Probing the table is the nested loop on equal keys. */
  lemma {:induction false} ProbeIsNestedLoop(env: Env, keys: seq<string>, t: Table, ls: seq<Row>, rs: seq<Row>)
    requires IsTable(env, keys, t, ls)
    ensures ProbeAll(env, keys, t, rs) == JoinRows(env, keys, ls, rs)
  {
    hide JoinKey;
    if rs != [] {
      ProbeIsNestedLoop(env, keys, t, ls, rs[1..]);
      MatchesAre(env, keys, ls, rs[0]);
      var key := JoinKey(env, keys, rs[0]);
      assert (if key in t then t[key] else []) == LeftWithKey(env, keys, ls, key);
      assert Probe(env, keys, t, rs[0]) == Physical.Matches(env, keys, ls, rs[0]);
    }
  }

  lemma JoinRestIs(op: Op, state: State, g: Graph, env: Env, a: Stream, b: Stream)
    requires ReadOnly(op) && Cleared(state) == Start(op) && op.HashJoin?
    ensures Second(op).Some? && state.Probing?
    ensures Rest(op, state, g, env, a, b) == JoinRest(env, op.joinKeys, state, a, b)
  {
    hide RowWise, HopRows, Breaking, NodeRows, JoinRest, SkipRows, TakeRows, NestedLoop, OverRow, Denote;
  }

  lemma NoneLeft()
    ensures FromSeq([]) == Done
  {
  }

  lemma ProbeStep(env: Env, keys: seq<string>, t: Table, rows: seq<Row>, at: nat)
    ensures ProbeAll(env, keys, t, Drop(rows, at)) ==
            if at < |rows| then Probe(env, keys, t, rows[at]) + ProbeAll(env, keys, t, Drop(rows, at + 1)) else []
  {
    hide Probe;
    if at < |rows| {
      assert Drop(rows, at)[1..] == Drop(rows, at + 1);
    }
  }

  lemma MatchFirst(matches: seq<Row>, mi: nat, later: seq<Row>)
    ensures mi < |matches| ==> FromSeq(Drop(matches, mi) + later) == Next(matches[mi], FromSeq(Drop(matches, mi + 1) + later))
    ensures mi >= |matches| ==> Drop(matches, mi) + later == later
    ensures Drop(later, 0) == later
  {
    if mi < |matches| {
      assert (Drop(matches, mi) + later)[1..] == Drop(matches, mi + 1) + later;
    }
  }

  /** The probing loop: the next row of `matches`, or of the matches of the next right row that has any. */
  method ProbeNext(env: Env, keys: seq<string>, from: State) returns (state: State, r: Pull)
    requires from.Probing? && from.table.Some?
    ensures state.Probing? && state.table == from.table
    ensures Matches(JoinRest(env, keys, from, Done, Done), r, JoinRest(env, keys, state, Done, Done))
  {
    hide Probe, ProbeAll, Drop, FromSeq, JoinRows;
    var t, rows := from.table.value, from.rightRows;
    var ri: nat, matches, mi: nat := from.rightIdx, from.matches, from.matchIdx;
    ghost var whole := JoinRest(env, keys, from, Done, Done);
    while true
      invariant whole == FromSeq(Drop(matches, mi) + ProbeAll(env, keys, t, Drop(rows, ri)))
      decreases Minus(|rows|, ri), Minus(|matches|, mi)
    {
      ProbeStep(env, keys, t, rows, ri);
      MatchFirst(matches, mi, ProbeAll(env, keys, t, Drop(rows, ri)));
      if mi < |matches| {
        var row := matches[mi];
        mi := mi + 1;
        return Probing(from.table, rows, ri, matches, mi), Got(row);
      }
      if ri >= |rows| {
        NoneLeft();
        return Probing(from.table, rows, ri, matches, mi), End;
      }
      matches := Probe(env, keys, t, rows[ri]);
      mi := 0;
      ri := ri + 1;
      MatchFirst([], 0, matches);
    }
  }

  method NextJoined(st: Phys, g: Graph, env: Env) returns (st': Phys, r: Pull)
    requires Valid(st) && st.op.HashJoin?
    ensures Pulled(st, g, env, st', r)
    decreases st.op, 0
  {
    hide Valid, Remaining, Rest, Denote, IdsKnown, WellFormed, ReadOnly, ProbeAll, JoinRows, Build;
    OpenedTwo(st, g, env);
    JoinRestIs(st.op, st.state, g, env, Remaining(st.first.value, g, env), Remaining(st.second.value, g, env));
    var left, right, state := st.first.value, st.second.value, st.state;
    if state.table.None? {
      var ls, ok;
      left, ls, ok := GatherAll(left, g, env);
      MovedTwo(st, left, right, state, g, env);
      if !ok {
        return Phys(st.op, Some(left), Some(right), state), Error;
      }
      var table := BuildTable(env, st.op.joinKeys, ls);
      var rs;
      right, rs, ok := GatherAll(right, g, env);
      state := Probing(None, state.rightRows + rs, state.rightIdx, state.matches, state.matchIdx);
      MovedTwo(st, left, right, state, g, env);
      if !ok {
        return Phys(st.op, Some(left), Some(right), state), Error;
      }
      state := Probing(Some(table), state.rightRows, state.rightIdx, state.matches, state.matchIdx);
      ProbeIsNestedLoop(env, st.op.joinKeys, table, ls, Drop(state.rightRows, state.rightIdx));
    }
    state, r := ProbeNext(env, st.op.joinKeys, state);
    st' := Phys(st.op, Some(left), Some(right), state);
    MovedTwo(st, left, right, state, g, env);
    JoinRestIs(st.op, state, g, env, Remaining(left, g, env), Remaining(right, g, env));
  }

  // ---------------------------------------------------------------- any operator

  method NextRow(st: Phys, g: Graph, env: Env) returns (st': Phys, r: Pull)
    requires Valid(st)
    ensures Pulled(st, g, env, st', r) && Steps(st, g, env, st', r)
    decreases st.op, 1
  {
    match st.op
    case SingleRow => st', r := NextSingleRow(st, g, env);
    case AllNodesScan => st', r := NextScanned(st, g, env);
    case NodeByLabelScan(_) => st', r := NextScanned(st, g, env);
    case NodeByIdScan(_) => st', r := NextNodeById(st, g, env);
    case Expand(_, _, _, _, _, _) => st', r := NextExpanded(st, g, env);
    case VarLenExpand(_, _, _, _, _, _, _, _) => st', r := NextExpanded(st, g, env);
    case Filter(_, _) => st', r := NextFiltered(st, g, env);
    case Project(_, _) => st', r := NextProjected(st, g, env);
    case Sort(_, _) => st', r := NextBuffered(st, g, env);
    case Aggregate(_, _, _) => st', r := NextBuffered(st, g, env);
    case Eager(_) => st', r := NextBuffered(st, g, env);
    case Skip(_, _) => st', r := NextSkipped(st, g, env);
    case Limit(_, _) => st', r := NextLimited(st, g, env);
    case Apply(_, _) => st', r := NextApplied(st, g, env);
    case HashJoin(_, _, _) => st', r := NextJoined(st, g, env);
  }

  /** Draining a built plan gives exactly the rows it means, and fails exactly if it means an error. */
  method Drain(op: Op, g: Graph, env: Env) returns (rows: seq<Row>, ok: bool)
    requires ReadOnly(op)
    ensures Denote(op, g, env) == Prepend(rows, if ok then Done else Fail)
  {
    hide Valid, Remaining, Denote, IdsKnown, WellFormed, Build, ReadOnly;
    BuiltMeans(op, g, env);
    var st := Build(op);
    rows := [];
    while true
      invariant Valid(st) && Prepend(rows, Remaining(st, g, env)) == Denote(op, g, env)
      decreases Remaining(st, g, env)
    {
      var r;
      st, r := NextRow(st, g, env);
      if !r.Got? {
        ok := r.End?;
        return;
      }
      PrependAppend(rows, [r.row], Remaining(st, g, env));
      PrependOne(r.row, Remaining(st, g, env));
      rows := rows + [r.row];
    }
  }

  /** An operator tree in use. */
  class Execution {
    const plan: Op
    const env: Env
    var root: Phys

    ghost predicate Intact()
      reads this
    {
      Valid(root) && root.op == plan
    }

    constructor (plan: Op, env: Env)
      requires ReadOnly(plan)
      ensures Intact() && this.plan == plan && this.env == env && root == Build(plan)
    {
      hide Valid, Remaining, Denote, Build, ReadOnly, IdsKnown, Physical.Reset;
      this.plan := plan;
      this.env := env;
      root := Build(plan);
    }

    method Next(g: Graph) returns (r: Pull)
      requires Intact()
      modifies this`root
      ensures Intact() && Pulled(old(root), g, env, root, r)
    {
      hide Valid, Remaining, IdsKnown;
      root, r := NextRow(root, g, env);
    }

    /** At any point, even after an error: from here on the plan's rows come again. */
    method Restart(ghost g: Graph)
      requires Intact()
      modifies this`root
      ensures Intact() && root == Build(plan) && Remaining(root, g, env) == Denote(plan, g, env)
    {
      hide Valid, Remaining, Denote, Build, ReadOnly, IdsKnown, Physical.Reset;
      ResetReplays(root, g, env);
      ResetIsBuild(root);
      root := Physical.Reset(root);
    }
  }

  // ---------------------------------------------------------------- what ORDER BY and grouping mean

  /** ORDER BY sorts the rows at hand stably by its items in order, where each of them orders those
      rows. */
  lemma OrderByMeans(orderBy: seq<OrderItem>, input: Op, env: Env, rows: seq<Row>)
    requires forall i | 0 <= i < |orderBy| :: TotalPreorder(SortKey(env, orderBy[i]), rows)
    ensures Breaks(Sort(input, orderBy), env, rows) == Some(StableSort(Lexicographic(SortKeys(env, orderBy)), rows))
    ensures IsStableSort(Lexicographic(SortKeys(env, orderBy)), rows, StableSort(Lexicographic(SortKeys(env, orderBy)), rows))
  {
    PassesAreLexicographic(SortKeys(env, orderBy), rows);
  }

  /** An ORDER BY item orders the rows at hand exactly unless one of its values on them can be compared
      with neither of two that differ.  Without lists: exactly if the values are of one family, nulls
      allowed, or no two of them that can be compared differ; so every item that sorts a column of
      numbers, strings or booleans does. */
  lemma OrderByItem(env: Env, item: OrderItem, rows: seq<Row>)
    ensures TotalPreorder(SortKey(env, item), rows) <==> !Spoiled(ItemValue(env, item), rows)
    ensures (forall row | row in rows :: !ItemValue(env, item)(row).ListV?) ==>
              (TotalPreorder(SortKey(env, item), rows) <==>
               OneFamily(ItemValue(env, item), rows) || NoneDiffer(ItemValue(env, item), rows))
  {
    hide TotalPreorder, Spoiled, OneFamily, NoneDiffer;
    KeyOrdersExactly(ItemValue(env, item), item.ascending, rows);
    if forall row | row in rows :: !ItemValue(env, item)(row).ListV? {
      KeyOrdersIff(ItemValue(env, item), item.ascending, rows);
    }
  }

  /** So a column of lists, of any depth, with numbers, strings or booleans at the leaves, is sorted too. */
  lemma OrderByKind(env: Env, item: OrderItem, k: Kind, rows: seq<Row>)
    requires forall row | row in rows :: InKind(k, ItemValue(env, item)(row))
    ensures TotalPreorder(SortKey(env, item), rows)
  {
    KindOrders(ItemValue(env, item), item.ascending, k, rows);
  }

  function TotalRows(groups: seq<Group>): nat {
    if groups == [] then 0 else |groups[0].rows| + TotalRows(groups[1..])
  }

  lemma {:induction false} TotalRowsAppend(groups: seq<Group>, g: Group)
    ensures TotalRows(groups + [g]) == TotalRows(groups) + |g.rows|
  {
    if groups == [] {
      assert groups + [g] == [g];
    } else {
      assert (groups + [g])[1..] == groups[1..] + [g];
      TotalRowsAppend(groups[1..], g);
    }
  }

  lemma {:induction false} TotalRowsUpdate(groups: seq<Group>, i: nat, g: Group)
    requires i < |groups|
    ensures TotalRows(groups[i := g]) == TotalRows(groups) - |groups[i].rows| + |g.rows|
  {
    if i == 0 {
      assert groups[i := g][1..] == groups[1..];
    } else {
      assert groups[i := g][1..] == groups[1..][i - 1 := g];
      TotalRowsUpdate(groups[1..], i - 1, g);
    }
  }

  /** The groups share out the rows: their sizes add up to the number of rows. */
  lemma {:induction false} GroupsAddUp(env: Env, keys: seq<Expr>, rows: seq<Row>)
    ensures TotalRows(Groups(env, keys, rows)) == |rows|
  {
    hide GroupKey, Groups;
    if rows == [] {
      NoGroups(env, keys);
    } else {
      var n := |rows| - 1;
      var before, key := Groups(env, keys, rows[..n]), GroupKey(env, keys, rows[n]);
      GroupsAddUp(env, keys, rows[..n]);
      assert rows == rows[..n] + [rows[n]];
      GroupsStep(env, keys, rows[..n], rows[n]);
      if i :| 0 <= i < |before| && before[i].key == key {
        TotalRowsUpdate(before, i, Group(key, before[i].rows + [rows[n]]));
      } else {
        TotalRowsAppend(before, Group(key, [rows[n]]));
      }
    }
  }

  /** A group's `count(*)` is its number of rows. */
  lemma {:induction false} CountCounts(env: Env, alias: string, rows: seq<Row>)
    ensures ComputeAggregate(env, Aggregation(alias, Count, Wildcard, false), rows) == Some(Integer(|rows|))
  {
    CountArguments(env, rows);
  }

  lemma {:induction false} CountArguments(env: Env, rows: seq<Row>)
    ensures |Arguments(env, Wildcard, rows)| == |rows|
  {
    if rows != [] {
      CountArguments(env, rows[1..]);
    }
  }

  /** The extreme kept is one of the values, and none of them beats it, whatever they are: MIN is a least
      one, MAX a greatest. */
  lemma {:induction false} ExtremeIs(best: Value, vs: seq<Value>, o: Ordering)
    requires o != Equal
    ensures var r := Extreme(best, vs, o);
            && (r == best || (r in vs && CompareValues(r, best, true) == o)) && CompareValues(best, r, true) != o
            && forall i | 0 <= i < |vs| :: CompareValues(vs[i], r, true) != o
    decreases |vs|
  {
    hide CompareValues;
    if vs == [] {
      Unbeaten(best, best, o);
    } else {
      var b, r := vs[0], Extreme(best, vs, o);
      var kept := if CompareValues(b, best, true) == o then b else best;
      ExtremeIs(kept, vs[1..], o);
      if kept == b && CompareValues(b, best, true) == o {
        if r != b {
          Beats(r, b, best, o);
        }
        Unbeaten(r, best, o);
      } else if r != best && CompareValues(b, r, true) == o {
        Beats(b, r, best, o);
      }
      forall i | 0 <= i < |vs| ensures CompareValues(vs[i], r, true) != o {
        if i > 0 {
          assert vs[i] == vs[1..][i - 1];
        }
      }
    }
  }

  /** What beats a value that beats another beats that one too. */
  lemma Beats(a: Value, b: Value, d: Value, o: Ordering)
    requires o != Equal && CompareValues(a, b, true) == o && CompareValues(b, d, true) == o
    ensures CompareValues(a, d, true) == o
  {
    hide CypherCompare;
    CompareChain(a, b, d, o);
  }

  /** Two values do not beat each other. */
  lemma Unbeaten(a: Value, b: Value, o: Ordering)
    requires o != Equal
    ensures CompareValues(a, b, true) == o ==> CompareValues(b, a, true) != o
    ensures CompareValues(a, a, true) != o
  {
    hide CypherCompare;
    CompareReverse(a, b);
    CompareReverse(a, a);
  }
}
