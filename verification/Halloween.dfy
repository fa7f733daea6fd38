/** `MATCH ... CREATE` under the barrier rewrite (src/cypher/planner.rs:699-967,
    src/cypher/physical.rs:839-919): rows are pulled one by one from a graph that grows with each, yet
    the outcome is that of reading everything first. */
module Halloween {
  import opened Frames
  import opened Ast
  import opened Plan
  import opened Graphs
  import opened Trails
  import opened Streams
  import opened Physical
  import opened Operators
  import opened Creating

  // ---------------------------------------------------------------- footprints of a plan's parts

  lemma {:induction false} CollectReadsIs(op: Op, fp: ReadFootprint)
    ensures CollectReads(op, fp) == Union(fp, Reads(op))
  {
    hide CollectReads, OwnReads;
    var mine, alone := Union(fp, OwnReads(op)), Union(NO_READS, OwnReads(op));
    CollectReadsStep(op, fp);
    CollectReadsStep(op, NO_READS);
    if First(op).Some? {
      var first := First(op).value;
      CollectReadsIs(first, mine);
      CollectReadsIs(first, alone);
      if Second(op).Some? {
        CollectReadsIs(Second(op).value, CollectReads(first, mine));
        CollectReadsIs(Second(op).value, CollectReads(first, alone));
      }
    }
  }

  /** What an operator's inputs read, it reads. */
  lemma InputsQuiet(op: Op, fp: CreateFootprint)
    requires !Conflicts(Reads(op), fp)
    ensures First(op).Some? ==> !Conflicts(Reads(First(op).value), fp)
    ensures Second(op).Some? ==> !Conflicts(Reads(Second(op).value), fp)
  {
    hide CollectReads, OwnReads;
    CollectReadsStep(op, NO_READS);
    if First(op).Some? {
      var mine := Union(NO_READS, OwnReads(op));
      CollectReadsIs(First(op).value, mine);
      if Second(op).Some? {
        CollectReadsIs(Second(op).value, CollectReads(First(op).value, mine));
      }
    }
  }

  // ---------------------------------------------------------------- what a grown graph still shows

  lemma LoadSame(g: Graph, g': Graph, fp: CreateFootprint, id: nat)
    requires Grown(g, g', fp) && id < g.nextId
    ensures LoadNode(g', id) == LoadNode(g, id)
  {
    assert OutEdges(g', id) == OutEdges(g, id);
  }

  lemma {:induction false} NodeRowsSame(g: Graph, g': Graph, fp: CreateFootprint, ids: seq<nat>)
    requires Grown(g, g', fp) && forall i | 0 <= i < |ids| :: ids[i] < g.nextId
    ensures NodeRows(g', ids) == NodeRows(g, ids)
  {
    hide Grown, LoadNode;
    if ids != [] {
      LoadSame(g, g', fp, ids[0]);
      NodeRowsSame(g, g', fp, ids[1..]);
    }
  }

  lemma {:induction false} LabelledAppend(g: Graph, a: seq<nat>, b: seq<nat>, l: string)
    ensures IdsWithLabel(g, a + b, l) == IdsWithLabel(g, a, l) + IdsWithLabel(g, b, l)
  {
    if a == [] {
      assert a + b == b;
    } else {
      assert (a + b)[1..] == a[1..] + b;
      LabelledAppend(g, a[1..], b, l);
    }
  }

  lemma {:induction false} LabelledSame(g: Graph, g': Graph, fp: CreateFootprint, ids: seq<nat>, l: string)
    requires Grown(g, g', fp) && forall i | 0 <= i < |ids| :: ids[i] < g.nextId
    ensures IdsWithLabel(g', ids, l) == IdsWithLabel(g, ids, l)
  {
    if ids != [] {
      LabelledSame(g, g', fp, ids[1..], l);
      assert OutEdges(g', ids[0]) == OutEdges(g, ids[0]);
    }
  }

  lemma {:induction false} NoneLabelled(g: Graph, ids: seq<nat>, l: string)
    requires forall i | 0 <= i < |ids| :: ids[i] in g.nodes && g.nodes[ids[i]].nodeLabel != Some(l)
    ensures IdsWithLabel(g, ids, l) == []
  {
    if ids != [] {
      NoneLabelled(g, ids[1..], l);
    }
  }

  lemma AddedShows(g: Graph, g': Graph, fp: CreateFootprint)
    requires Grown(g, g', fp) && |g'.ids| != |g.ids|
    ensures fp.unlabelledNode || fp.nodeLabels != {}
  {
    assert Declared(g'.nodes[g'.ids[|g.ids|]].nodeLabel, fp);
  }

  lemma AddedIds(g: Graph, g': Graph, fp: CreateFootprint)
    requires Grown(g, g', fp)
    ensures g.ids <= g'.ids
    ensures forall i | |g.ids| <= i < |g'.ids| :: g'.ids[i] in g'.nodes && Declared(g'.nodes[g'.ids[i]].nodeLabel, fp)
  {
  }

  /** A scan that does not conflict finds the ids it found before. */
  lemma FillSame(op: Op, g: Graph, g': Graph, fp: CreateFootprint)
    requires WellFormed(g) && Grown(g, g', fp) && !Conflicts(Reads(op), fp)
    requires op.AllNodesScan? || op.NodeByLabelScan?
    ensures Fill(op, g') == Fill(op, g)
  {
    hide Grown, WellFormed;
    AddedIds(g, g', fp);
    WellFormedIds(g);
    var added := g'.ids[|g.ids|..];
    assert g'.ids == g.ids + added;
    if op.AllNodesScan? {
      if |g'.ids| != |g.ids| {
        AddedShows(g, g', fp);
        assert false;
      }
    } else {
      var l := op.nodeLabel;
      LabelledAppend(g', g.ids, added, l);
      LabelledSame(g, g', fp, g.ids, l);
      forall i | 0 <= i < |added| ensures added[i] in g'.nodes && g'.nodes[added[i]].nodeLabel != Some(l) {
        assert added[i] == g'.ids[|g.ids| + i];
        assert l !in fp.nodeLabels;
      }
      NoneLabelled(g', added, l);
    }
  }

  lemma WellFormedIds(g: Graph)
    requires WellFormed(g)
    ensures forall i | 0 <= i < |g.ids| :: g.ids[i] < g.nextId
  {
  }

  lemma AdjSame(v: Look, g': Graph, fp: CreateFootprint, n: nat)
    requires Grown(v.g, g', fp) && n < v.g.nextId
    ensures Adj(v.(g := g'), n) == Adj(v, n)
  {
    assert OutEdges(g', n) == OutEdges(v.g, n) && InEdges(g', n) == InEdges(v.g, n);
  }

  /** The trails of a level end in allocated nodes. */
  ghost predicate EndsKnown(v: Look, level: seq<Trail>) {
    forall t | t in level :: t.node < v.g.nextId
  }

  lemma {:induction false} ExtendAllSame(v: Look, g': Graph, fp: CreateFootprint, level: seq<Trail>)
    requires WellFormed(v.g) && Grown(v.g, g', fp) && EndsKnown(v, level)
    ensures ExtendAll(v.(g := g'), level) == ExtendAll(v, level)
    ensures EndsKnown(v, ExtendAll(v, level))
  {
    hide WellFormed, Grown, Adj;
    if level != [] {
      assert level[0] in level;
      assert EndsKnown(v, level[1..]);
      AdjSame(v, g', fp, level[0].node);
      ExtendAllSame(v, g', fp, level[1..]);
      ExtendOverKnown(v, level[0]);
    }
  }

  lemma ExtendOverKnown(v: Look, t: Trail)
    requires WellFormed(v.g)
    ensures EndsKnown(v, ExtendOver(t, Adj(v, t.node)))
  {
    hide WellFormed;
    ExtendOverIs(t, Adj(v, t.node));
    NeighboursAllocated(v.g, t.node, v.direction, v.types);
  }

  lemma {:induction false} LevelsSame(v: Look, g': Graph, fp: CreateFootprint, level: seq<Trail>, k: nat, min: nat, max: Option<nat>)
    requires WellFormed(v.g) && Grown(v.g, g', fp) && EndsKnown(v, level)
    requires LevelOk(v, level, k) && LevelOk(v.(g := g'), level, k)
    ensures Levels(v.(g := g'), level, k, min, max) == Levels(v, level, k, min, max)
    decreases |EdgeIds(v.g)| + 1 - k
  {
    hide WellFormed, Grown, LevelOk, ExtendAll, EdgeIds;
    if level != [] {
      var v' := v.(g := g');
      LevelsUnfold(v, level, k, min, max);
      LevelsUnfold(v', level, k, min, max);
      ExtendAllSame(v, g', fp, level);
      if !(max.Some? && k >= max.value) {
        LevelsSame(v, g', fp, ExtendAll(v, level), k + 1, min, max);
      }
    }
  }

  lemma TrailsSame(v: Look, g': Graph, fp: CreateFootprint, start: nat, min: nat, max: Option<nat>)
    requires WellFormed(v.g) && Grown(v.g, g', fp) && start < v.g.nextId
    ensures TrailsFrom(v.(g := g'), start, min, max) == TrailsFrom(v, start, min, max)
  {
    hide WellFormed, Grown, Levels;
    LevelsSame(v, g', fp, [Trail(start, [])], 0, min, max);
  }

  lemma HopsSame(op: Op, g: Graph, g': Graph, fp: CreateFootprint, row: Row)
    requires (op.Expand? || op.VarLenExpand?) && WellFormed(g) && Grown(g, g', fp)
    requires StartId(row, op.fromVariable).Some? ==> StartId(row, op.fromVariable).value < g.nextId
    ensures Hops(op, g', row) == Hops(op, g, row)
  {
    hide WellFormed, Grown, TrailsFrom, Adj, StartId;
    var start := StartId(row, op.fromVariable);
    if start.Some? {
      AdjSame(LookOf(op, g), g', fp, start.value);
      if op.VarLenExpand? {
        TrailsSame(LookOf(op, g), g', fp, start.value, op.minHops, op.maxHops);
      }
    }
  }

  lemma {:induction false} HopRowsSame(op: Op, g: Graph, g': Graph, fp: CreateFootprint, hops: seq<Hop>)
    requires (op.Expand? || op.VarLenExpand?) && Grown(g, g', fp) && HopsKnown(hops, g)
    ensures HopRows(op, g', hops) == HopRows(op, g, hops)
  {
    hide Grown, LoadNode;
    if hops != [] {
      LoadSame(g, g', fp, hops[0].node);
      HopRowsSame(op, g, g', fp, hops[1..]);
    }
  }

  lemma {:induction false} RowWiseSame(op: Op, g: Graph, g': Graph, fp: CreateFootprint, env: Env, s: Stream)
    requires IsRowWise(op) && WellFormed(g) && Grown(g, g', fp)
    requires op.Expand? || op.VarLenExpand? ==> StartsKnown(s, op.fromVariable, g)
    ensures RowWise(op, g', env, s) == RowWise(op, g, env, s)
  {
    hide Grown, WellFormed, Hops, HopRows, StartId, ProjectRow;
    if s.Next? {
      RowWiseSame(op, g, g', fp, env, s.tail);
      if op.Expand? || op.VarLenExpand? {
        HopsSame(op, g, g', fp, s.head);
        HopsFromKnown(op, g, s.head);
        HopRowsSame(op, g, g', fp, Hops(op, g, s.head));
      }
    }
  }

  /** An operator that does not conflict makes the same of the same inputs. */
  lemma RestSame(op: Op, state: State, g: Graph, g': Graph, fp: CreateFootprint, env: Env, a: Stream, b: Stream)
    requires ReadOnly(op) && Cleared(state) == Start(op)
    requires WellFormed(g) && Grown(g, g', fp) && !Conflicts(Reads(op), fp) && OwnIdsKnown(op, state, g, a)
    requires op.Apply? ==> ReadOnly(op.right) && Denote(op.right, g', env) == Denote(op.right, g, env)
    ensures Rest(op, state, g', env, a, b) == Rest(op, state, g, env, a, b)
  {
    hide Grown, WellFormed, RowWise, HopRows, Denote, Breaking, NodeRows, JoinRest, IdsWithLabel, Conflicts, Reads, ReadOnly;
    if IsRowWise(op) {
      RowWiseRest(op, state, g, env, a, b);
      RowWiseRest(op, state, g', env, a, b);
      RowWiseSame(op, g, g', fp, env, a);
      if op.Expand? || op.VarLenExpand? {
        HopRowsSame(op, g, g', fp, Drop(state.pending, state.at));
      }
    } else if op.AllNodesScan? || op.NodeByLabelScan? {
      FillSame(op, g, g', fp);
      FillKnown(op, g);
      NodeRowsSame(g, g', fp, Drop(if state.cursor == [] then Fill(op, g) else state.cursor, state.at));
    } else if op.NodeByIdScan? {
      NodeRowsSame(g, g', fp, [op.id]);
    }
  }

  lemma FillKnown(op: Op, g: Graph)
    requires WellFormed(g)
    ensures forall i | 0 <= i < |Fill(op, g)| :: Fill(op, g)[i] < g.nextId
  {
    if op.NodeByLabelScan? {
      LabelledKnown(g, g.ids, op.nodeLabel);
    }
  }

  lemma {:induction false} StartsKnownLater(s: Stream, variable: string, g: Graph, g': Graph)
    requires StartsKnown(s, variable, g) && g.nextId <= g'.nextId
    ensures StartsKnown(s, variable, g')
  {
    if s.Next? {
      StartsKnownLater(s.tail, variable, g, g');
    }
  }

  lemma OwnIdsKnownLater(op: Op, state: State, g: Graph, g': Graph, a: Stream)
    requires OwnIdsKnown(op, state, g, a) && g.nextId <= g'.nextId
    ensures OwnIdsKnown(op, state, g', a)
  {
    if op.Expand? || op.VarLenExpand? {
      StartsKnownLater(a, op.fromVariable, g, g');
    }
  }

  lemma RestMaterialised(op: Op, state: State, g: Graph, g': Graph, env: Env, a: Stream, b: Stream, a': Stream, b': Stream)
    requires ReadOnly(op) && Cleared(state) == Start(op) && Materialised(state)
    ensures Rest(op, state, g', env, a', b') == Rest(op, state, g, env, a, b)
  {
    hide RowWise, HopRows, Denote, Breaking, NodeRows, IdsWithLabel;
  }

  /** A whole operator tree that does not conflict, or has all it needs, still has the same rows to give. */
  lemma {:induction false} RemainingSame(st: Phys, g: Graph, g': Graph, fp: CreateFootprint, env: Env)
    requires Valid(st) && WellFormed(g) && Grown(g, g', fp) && IdsKnown(st, g, env)
    requires Materialised(st.state) || !Conflicts(Reads(st.op), fp)
    ensures Remaining(st, g', env) == Remaining(st, g, env) && IdsKnown(st, g', env)
    decreases st.op, 1
  {
    hide Grown, WellFormed, Rest, Denote, ReadOnly, Conflicts, Reads, OwnIdsKnown, Build, Start, Cleared, Valid, Remaining, IdsKnown;
    ValidStart(st);
    if Materialised(st.state) {
      MaterialisedSame(st, g, g', env);
    } else {
      InputsQuiet(st.op, fp);
      GrownNext(g, g', fp);
      if First(st.op).None? {
        LeafSame(st, g, g', fp, env);
      } else if Second(st.op).None? {
        OpenedOne(st, g, env);
        OpenedOne(st, g', env);
        RemainingSame(st.first.value, g, g', fp, env);
        var a := Remaining(st.first.value, g, env);
        NotApply(st.op);
        RestSame(st.op, st.state, g, g', fp, env, a, Done);
        OwnIdsKnownLater(st.op, st.state, g, g', a);
        Moved(st, st.first.value, st.state, g', env);
      } else if st.op.Apply? {
        ApplySame(st, g, g', fp, env);
      } else {
        JoinSame(st, g, g', fp, env);
      }
    }
  }

  lemma NotApply(op: Op)
    requires Second(op).None?
    ensures !op.Apply?
  {
  }

  lemma GrownNext(g: Graph, g': Graph, fp: CreateFootprint)
    requires Grown(g, g', fp)
    ensures g.nextId <= g'.nextId
  {
  }

  lemma MaterialisedSame(st: Phys, g: Graph, g': Graph, env: Env)
    requires Valid(st) && Materialised(st.state)
    ensures Remaining(st, g', env) == Remaining(st, g, env) && IdsKnown(st, g', env)
  {
    hide Rest, Denote, ReadOnly, OwnIdsKnown, Start, Cleared;
    ValidStart(st);
    RestMaterialised(st.op, st.state, g, g', env, InputRest(st, g, env), Other(st, g, env), InputRest(st, g', env), Other(st, g', env));
  }

  ghost function Other(st: Phys, g: Graph, env: Env): Stream
    requires Valid(st)
  {
    if st.second.Some? then Remaining(st.second.value, g, env) else Done
  }

  lemma LeafSame(st: Phys, g: Graph, g': Graph, fp: CreateFootprint, env: Env)
    requires Valid(st) && First(st.op).None? && WellFormed(g) && Grown(g, g', fp) && IdsKnown(st, g, env)
    requires !Conflicts(Reads(st.op), fp)
    ensures Remaining(st, g', env) == Remaining(st, g, env) && IdsKnown(st, g', env)
  {
    hide Grown, WellFormed, Rest, Denote, ReadOnly, Conflicts, Reads, OwnIdsKnown, Start, Cleared;
    ValidStart(st);
    LeafRest(st, g, env);
    LeafRest(st, g', env);
    GrownNext(g, g', fp);
    NoInputs(st.op);
    RestSame(st.op, st.state, g, g', fp, env, Done, Done);
    OwnIdsKnownLater(st.op, st.state, g, g', Done);
  }

  lemma NoInputs(op: Op)
    requires First(op).None?
    ensures Second(op).None? && !op.Apply?
  {
  }

  lemma {:induction false} ApplySame(st: Phys, g: Graph, g': Graph, fp: CreateFootprint, env: Env)
    requires Valid(st) && st.op.Apply? && !Materialised(st.state)
    requires WellFormed(g) && Grown(g, g', fp) && IdsKnown(st, g, env)
    requires !Conflicts(Reads(st.op), fp)
    ensures Remaining(st, g', env) == Remaining(st, g, env) && IdsKnown(st, g', env)
    decreases st.op, 0
  {
    hide Grown, WellFormed, Rest, Denote, ReadOnly, Conflicts, Reads, Build, Start, Cleared, Valid, Remaining, IdsKnown;
    InputsQuiet(st.op, fp);
    OpenedTwo(st, g, env);
    OpenedTwo(st, g', env);
    var first, second, anew := st.first.value, st.second.value, Build(st.op.right);
    RemainingSame(first, g, g', fp, env);
    RemainingSame(anew, g, g', fp, env);
    BuiltMeans(st.op.right, g, env);
    BuiltMeans(st.op.right, g', env);
    ApplyRestIs(st.op, st.state, g, env, Remaining(first, g, env), Remaining(second, g, env));
    ApplyRestIs(st.op, st.state, g', env, Remaining(first, g', env), Remaining(second, g', env));
    if st.state.current.Some? {
      RemainingSame(second, g, g', fp, env);
    }
    MovedTwo(st, first, second, st.state, g', env);
  }

  lemma {:induction false} JoinSame(st: Phys, g: Graph, g': Graph, fp: CreateFootprint, env: Env)
    requires Valid(st) && st.op.HashJoin? && !Materialised(st.state)
    requires WellFormed(g) && Grown(g, g', fp) && IdsKnown(st, g, env)
    requires !Conflicts(Reads(st.op), fp)
    ensures Remaining(st, g', env) == Remaining(st, g, env) && IdsKnown(st, g', env)
    decreases st.op, 0
  {
    hide Grown, WellFormed, Rest, Denote, ReadOnly, Conflicts, Reads, Build, Start, Cleared, Valid, Remaining, IdsKnown;
    InputsQuiet(st.op, fp);
    OpenedTwo(st, g, env);
    OpenedTwo(st, g', env);
    var first, second := st.first.value, st.second.value;
    RemainingSame(first, g, g', fp, env);
    RemainingSame(second, g, g', fp, env);
    JoinRestIs(st.op, st.state, g, env, Remaining(first, g, env), Remaining(second, g, env));
    JoinRestIs(st.op, st.state, g', env, Remaining(first, g', env), Remaining(second, g', env));
    MovedTwo(st, first, second, st.state, g', env);
  }

  // ---------------------------------------------------------------- reading first, reading lazily

  /** The outcome of a CREATE clause: the graph, the rows and whether it came to its end. */
  datatype Outcome = Outcome(g: Graph, rows: seq<Row>, ok: bool)

  /** Creating for each of rows that are all there from the start. */
  function CreateAll(g: Graph, env: Env, pattern: Pattern, rows: seq<Row>): Outcome
    decreases |rows|
  {
    if rows == [] then Outcome(g, [], true)
    else
      var made := ExecuteCreate(g, env, pattern, rows[0]);
      if !made.ok then Outcome(made.g, [], false)
      else
        var rest := CreateAll(made.g, env, pattern, rows[1..]);
        Outcome(rest.g, [made.row] + rest.rows, rest.ok)
  }

  /** Reading everything from the starting graph, then creating. */
  function ReadFirst(g: Graph, env: Env, pattern: Pattern, s: Stream): Outcome {
    match Gather(s)
    case None => Outcome(g, [], false)
    case Some(rows) => CreateAll(g, env, pattern, rows)
  }

  /** Creating for each row of a stream, up to its error if it has one. */
  function CreateEach(g: Graph, env: Env, pattern: Pattern, s: Stream): Outcome
    decreases s
  {
    match s
    case Done => Outcome(g, [], true)
    case Fail => Outcome(g, [], false)
    case Next(row, tail) =>
      var made := ExecuteCreate(g, env, pattern, row);
      if !made.ok then Outcome(made.g, [], false)
      else
        var rest := CreateEach(made.g, env, pattern, tail);
        Outcome(rest.g, [made.row] + rest.rows, rest.ok)
  }

  lemma {:induction false} EachIsAll(g: Graph, env: Env, pattern: Pattern, rows: seq<Row>)
    ensures CreateEach(g, env, pattern, FromSeq(rows)) == CreateAll(g, env, pattern, rows)
    decreases |rows|
  {
    hide ExecuteCreate;
    if rows != [] {
      EachIsAll(ExecuteCreate(g, env, pattern, rows[0]).g, env, pattern, rows[1..]);
    }
  }

  /** By-id scans name allocated nodes, and expansions start from allocated nodes. */
  ghost predicate PlanIdsKnown(op: Op, g: Graph, env: Env)
    requires ReadOnly(op)
  {
    ReadOnlyInputs(op);
    && (op.NodeByIdScan? ==> op.id < g.nextId)
    && (op.Expand? || op.VarLenExpand? ==> StartsKnown(Denote(op.input, g, env), op.fromVariable, g))
    && (First(op).Some? ==> PlanIdsKnown(First(op).value, g, env))
    && (Second(op).Some? ==> PlanIdsKnown(Second(op).value, g, env))
  }

  lemma StartIdsKnown(op: Op, g: Graph, a: Stream)
    requires ReadOnly(op) && (op.NodeByIdScan? ==> op.id < g.nextId)
    requires op.Expand? || op.VarLenExpand? ==> StartsKnown(a, op.fromVariable, g)
    ensures OwnIdsKnown(op, Start(op), g, a) && (op.Apply? ==> Start(op) == Looping(None))
  {
  }

  lemma {:induction false} BuiltIdsKnown(op: Op, g: Graph, env: Env)
    requires ReadOnly(op) && PlanIdsKnown(op, g, env)
    ensures IdsKnown(Build(op), g, env)
  {
    hide Denote, Remaining, Rest, ReadOnly, Start, Cleared, OwnIdsKnown;
    ReadOnlyInputs(op);
    if First(op).Some? {
      BuiltIdsKnown(First(op).value, g, env);
      BuiltMeans(First(op).value, g, env);
    }
    if Second(op).Some? {
      BuiltIdsKnown(Second(op).value, g, env);
    }
    StartIdsKnown(op, g, InputRest(Build(op), g, env));
  }

  lemma {:induction false} ReadOnlyKept(op: Op)
    requires ReadOnly(op)
    ensures InsertEager(op) == op
  {
    ReadOnlyInputs(op);
    if First(op).Some? {
      ReadOnlyKept(First(op).value);
    }
    if Second(op).Some? {
      ReadOnlyKept(Second(op).value);
    }
  }

  /** What the rewrite puts under the write: the read itself, or a barrier over it. */
  lemma Rewritten(read: Op, pattern: Pattern)
    requires ReadOnly(read)
    ensures var plan := InsertEager(Create(Some(read), pattern));
            && plan.Create? && plan.source.Some? && plan.pattern == pattern && ReadOnly(plan.source.value)
            && plan.source.value == BarrierIfConflict(read, Creates(pattern))
            && (plan.source.value == read || (plan.source.value == Eager(read) && !IsPipelineBreaker(read)))
            && (IsPipelineBreaker(plan.source.value) || !Conflicts(Reads(plan.source.value), Creates(pattern)))
  {
    hide Creates, Reads;
    ReadOnlyKept(read);
    if Creates(pattern).IsEmpty() {
      EmptyNeverConflicts(Reads(read), Creates(pattern));
    }
  }

  /** Over the starting graph, the rewritten input gives the rows of the read, or its error: if it is a
      pipeline breaker, before any row. */
  lemma SourceMeans(read: Op, source: Op, g: Graph, env: Env, pattern: Pattern)
    requires ReadOnly(read) && ReadOnly(source) && (source == read || source == Eager(read))
    requires Gather(Denote(read, g, env)).Some? || IsPipelineBreaker(source)
    ensures CreateEach(g, env, pattern, Denote(source, g, env)) == ReadFirst(g, env, pattern, Denote(read, g, env))
  {
    hide ReadOnly, CreateEach, CreateAll;
    var s := Denote(read, g, env);
    GatherIs(s);
    if Gather(s).Some? {
      var rows := Gather(s).value;
      assert Drop(rows, 0) == rows;
      SourceRows(read, source, g, env);
      EachIsAll(g, env, pattern, rows);
    } else {
      BreakerFails(read, source, g, env);
      EachFails(g, env, pattern);
    }
  }

  lemma EachFails(g: Graph, env: Env, pattern: Pattern)
    ensures CreateEach(g, env, pattern, Fail) == Outcome(g, [], false)
  {
  }

  lemma SourceRows(read: Op, source: Op, g: Graph, env: Env)
    requires ReadOnly(read) && ReadOnly(source) && (source == read || source == Eager(read))
    requires Gather(Denote(read, g, env)).Some?
    ensures Denote(source, g, env) == FromSeq(Gather(Denote(read, g, env)).value)
  {
    GatherIs(Denote(read, g, env));
    var rows := Gather(Denote(read, g, env)).value;
    assert Drop(rows, 0) == rows;
  }

  lemma BreakerFails(read: Op, source: Op, g: Graph, env: Env)
    requires ReadOnly(read) && ReadOnly(source) && (source == read || source == Eager(read)) && IsPipelineBreaker(source)
    requires Gather(Denote(read, g, env)).None?
    ensures Denote(source, g, env) == Fail
  {
    hide Breaks;
    if source == read {
      var input := First(read).value;
      assert Denote(read, g, env) == Breaking(read, env, Denote(input, g, env), 0);
      var all := Gather(Denote(input, g, env));
      if all.Some? && Breaks(read, env, all.value).Some? {
        GatherPrepend(Drop(Breaks(read, env, all.value).value, 0), Done);
      }
    }
  }

  /** Draining `Create` over the rewritten plan, each row pulled from the graph as grown so far, ends
      as if all rows had been read from the starting graph first: same rows, same graph, same error.
      Where the read fails and nothing holds its rows back, the rows before the failure count. */
  method DrainCreate(read: Op, pattern: Pattern, g0: Graph, env: Env) returns (out: Outcome)
    requires ReadOnly(read) && WellFormed(g0)
    requires IsPipelineBreaker(BarrierIfConflict(read, Creates(pattern))) || PlanIdsKnown(read, g0, env)
    ensures Gather(Denote(read, g0, env)).Some? || IsPipelineBreaker(BarrierIfConflict(read, Creates(pattern))) ==>
              out == ReadFirst(g0, env, pattern, Denote(read, g0, env))
    ensures out == CreateEach(g0, env, pattern, Denote(BarrierIfConflict(read, Creates(pattern)), g0, env))
  {
    hide ReadOnly, WellFormed, Denote, Remaining, IdsKnown, PlanIdsKnown, Conflicts, Reads, Creates, Valid, Build,
      ExecuteCreate, Gather, Grown, BarrierIfConflict, InsertEager;
    Rewritten(read, pattern);
    var source := InsertEager(Create(Some(read), pattern)).source.value;
    if Gather(Denote(read, g0, env)).Some? || IsPipelineBreaker(source) {
      SourceMeans(read, source, g0, env, pattern);
    }
    BuiltMeans(source, g0, env);
    if !IsPipelineBreaker(source) {
      BuiltIdsKnown(source, g0, env);
    }
    var st, g, rows := Build(source), g0, [];
    ghost var s := Denote(source, g0, env);
    ghost var whole := CreateEach(g0, env, pattern, s);
    while true
      invariant Valid(st) && st.op == source && WellFormed(g)
      invariant Remaining(st, g, env) == s
      invariant !IsPipelineBreaker(source) ==> IdsKnown(st, g, env)
      invariant var rest := CreateEach(g, env, pattern, s); whole == Outcome(rest.g, rows + rest.rows, rest.ok)
      decreases s
    {
      var r;
      st, r := NextRow(st, g, env);
      if !r.Got? {
        assert rows + [] == rows;
        return Outcome(g, rows, r.End?);
      }
      s := s.tail;
      var made := RunCreate(g, env, pattern, r.row);
      if !made.ok {
        assert rows + [] == rows;
        return Outcome(made.g, rows, false);
      }
      ExecuteCreateGrows(g, env, pattern, r.row);
      if Materialised(st.state) {
        MaterialisedSame(st, g, made.g, env);
      } else {
        RemainingSame(st, g, made.g, Creates(pattern), env);
      }
      assert rows + ([made.row] + CreateEach(made.g, env, pattern, s).rows) == (rows + [made.row]) + CreateEach(made.g, env, pattern, s).rows;
      g := made.g;
      rows := rows + [made.row];
    }
  }

  // ---------------------------------------------------------------- why the ids must be known

  /** `MATCH (:A) WITH <x> AS x MATCH (x)-[:R*0..0]->(e)`: where `x` is a number, it is taken for an id. */
  function LateRead(x: Expr): Op {
    VarLenExpand(Project(NodeByLabelScan("A"), [Projection("x", x)]), Outgoing, ["R"], None, Some("e"), "x", 0, Some(0))
  }

  /** `CREATE (:B)` */
  const LATE_PATTERN: Pattern := [NodeElem(NodePattern(None, ["B"], []))]

  /** The row it gives for each `:A` node: with `e`, if there is a node with the id that `x` is. */
  function LateRow(g: Graph, start: nat): Row {
    match LoadNode(g, start)
    case None => map["x" := Integer(start)]
    case Some(nv) => map["x" := Integer(start), "e" := nv]
  }

  /** The graph after `k` rows. */
  function LateGraph(g: Graph, k: nat): Graph {
    if k == 0 then g else AddNode(LateGraph(g, k - 1), Some("B"), map[])
  }

  /** Between two pulls: the scan is before the `n`-th of the `:A` nodes. */
  function LateState(x: Expr, ids: seq<nat>, start: nat, n: nat): Phys {
    var scan := Phys(NodeByLabelScan("A"), None, None, Scanning(if n == 0 then [] else ids, n));
    var project := Phys(LateRead(x).input, Some(scan), None, Stateless);
    var pending := if n == 0 then [] else [Hop([], start, map["x" := Integer(start)])];
    Phys(LateRead(x), Some(project), None, Hopping(pending, |pending|))
  }

  lemma LateBuilt(x: Expr, ids: seq<nat>, start: nat)
    ensures ReadOnly(LateRead(x)) && Build(LateRead(x)) == LateState(x, ids, start, 0)
  {
    var op := LateRead(x);
    assert Build(op.input.input) == Phys(op.input.input, None, None, Scanning([], 0));
    assert Build(op.input) == Phys(op.input, Some(Build(op.input.input)), None, Stateless);
  }

  lemma LateHops(g: Graph, x: Expr, start: nat)
    requires start < U64
    ensures Hops(LateRead(x), g, map["x" := Integer(start)]) == [Hop([], start, map["x" := Integer(start)])]
    ensures HopRow(LateRead(x), g, Hop([], start, map["x" := Integer(start)])) == Some(LateRow(g, start))
  {
    var v := LookOf(LateRead(x), g);
    LevelsUnfold(v, [Trail(start, [])], 0, 0, Some(0));
    assert TrailsFrom(v, start, 0, Some(0)) == [Trail(start, [])] + [];
  }

  lemma LateProjected(env: Env, x: Expr, start: nat, row: Row)
    requires env.eval(x, row) == Some(Integer(start))
    ensures ProjectRow(env, [Projection("x", x)], row, map[]) == Some(map["x" := Integer(start)])
  {
    assert [Projection("x", x)][1..] == [];
  }

  /** The scan's pull: the next `:A` node, or the end. */
  lemma LateScan(st: Phys, g: Graph, env: Env, st': Phys, r: Pull, ids: seq<nat>, n: nat)
    requires st == Phys(NodeByLabelScan("A"), None, None, Scanning(if n == 0 then [] else ids, n)) && n <= |ids|
    requires (n == 0 ==> IdsWithLabel(g, g.ids, "A") == ids) && forall i | 0 <= i < |ids| :: LoadNode(g, ids[i]).Some?
    requires Steps(st, g, env, st', r)
    ensures if n < |ids| then r.Got? && st' == st.(state := Scanning(ids, n + 1)) else r == End
  {
    hide LoadNode, IdsWithLabel;
    assert ScanSteps(st, g, st', r);
    var cursor := if st.state.cursor == [] then Fill(st.op, g) else st.state.cursor;
    assert cursor == ids;
    if n < |ids| {
      assert LoadNode(g, cursor[n]).Some?;
    }
  }

  /** The whole plan's pull: the row as the graph has it now, or the end. */
  lemma LatePull(x: Expr, g: Graph, env: Env, st': Phys, r: Pull, ids: seq<nat>, start: nat, n: nat)
    requires n <= |ids| && start < U64 && (forall row: Row :: env.eval(x, row) == Some(Integer(start)))
    requires (n == 0 ==> IdsWithLabel(g, g.ids, "A") == ids) && forall i | 0 <= i < |ids| :: LoadNode(g, ids[i]).Some?
    requires Steps(LateState(x, ids, start, n), g, env, st', r)
    ensures if n < |ids| then r == Got(LateRow(g, start)) && st' == LateState(x, ids, start, n + 1) else r == End
  {
    hide LoadNode, IdsWithLabel, Hops, HopRow, ProjectRow, ScanSteps;
    var st := LateState(x, ids, start, n);
    var project := st.first.value;
    var input, r0 :| Steps(project, g, env, input, r0) && FillSteps(st, g, input, r0, st', r);
    var r1 :| Steps(project.first.value, g, env, input.first.value, r1) && r0 == ProjectPull(env, project.op.projections, r1);
    LateScan(project.first.value, g, env, input.first.value, r1, ids, n);
    if n < |ids| {
      LateProjected(env, x, start, r1.row);
      LateHops(g, x, start);
    }
  }

  // ---- what it reads if it reads first

  function Same(row: Row, n: nat): seq<Row> {
    seq(n, _ => row)
  }

  lemma SameStep(row: Row, n: nat)
    requires n > 0
    ensures Same(row, n) != [] && Same(row, n)[0] == row && Same(row, n)[1..] == Same(row, n - 1)
  {
  }

  lemma {:induction false} LateProjects(g: Graph, env: Env, x: Expr, start: nat, rows: seq<Row>)
    requires forall row: Row :: env.eval(x, row) == Some(Integer(start))
    ensures RowWise(LateRead(x).input, g, env, FromSeq(rows)) == FromSeq(Same(map["x" := Integer(start)], |rows|))
    decreases |rows|
  {
    hide ProjectRow;
    if rows != [] {
      var out: Row := map["x" := Integer(start)];
      LateProjects(g, env, x, start, rows[1..]);
      LateProjected(env, x, start, rows[0]);
      SameStep(out, |rows|);
      PrependOne(out, FromSeq(Same(out, |rows| - 1)));
    }
  }

  lemma {:induction false} LateExpands(g: Graph, env: Env, x: Expr, start: nat, n: nat)
    requires start < U64
    ensures RowWise(LateRead(x), g, env, FromSeq(Same(map["x" := Integer(start)], n))) == FromSeq(Same(LateRow(g, start), n))
    decreases n
  {
    hide Hops, HopRow, LateRow;
    if n > 0 {
      var out: Row, row := map["x" := Integer(start)], LateRow(g, start);
      LateExpands(g, env, x, start, n - 1);
      LateHops(g, x, start);
      SameStep(out, n);
      SameStep(row, n);
      var hop := Hop([], start, out);
      assert HopRows(LateRead(x), g, [hop]) == [row] by {
        assert [hop][1..] == [];
        assert HopRows(LateRead(x), g, []) == [];
      }
      PrependOne(row, FromSeq(Same(row, n - 1)));
    }
  }

  lemma {:induction false} LabelledLive(g: Graph, ids: seq<nat>, l: string)
    ensures forall i | 0 <= i < |IdsWithLabel(g, ids, l)| ::
              IdsWithLabel(g, ids, l)[i] in g.nodes && LoadNode(g, IdsWithLabel(g, ids, l)[i]).Some?
  {
    if ids != [] {
      LabelledLive(g, ids[1..], l);
    }
  }

  lemma {:induction false} RowPerNode(g: Graph, ids: seq<nat>)
    requires forall i | 0 <= i < |ids| :: LoadNode(g, ids[i]).Some?
    ensures |NodeRows(g, ids)| == |ids|
  {
    if ids != [] {
      RowPerNode(g, ids[1..]);
    }
  }

  lemma LateMeans(g: Graph, env: Env, x: Expr, start: nat)
    requires start < U64 && forall row: Row :: env.eval(x, row) == Some(Integer(start))
    ensures ReadOnly(LateRead(x))
    ensures Denote(LateRead(x), g, env) == FromSeq(Same(LateRow(g, start), |IdsWithLabel(g, g.ids, "A")|))
    ensures Denote(LateRead(x).input, g, env) == FromSeq(Same(map["x" := Integer(start)], |IdsWithLabel(g, g.ids, "A")|))
  {
    hide RowWise, NodeRows, LoadNode, IdsWithLabel;
    var ids := IdsWithLabel(g, g.ids, "A");
    LabelledLive(g, g.ids, "A");
    RowPerNode(g, ids);
    LateProjects(g, env, x, start, NodeRows(g, ids));
    LateExpands(g, env, x, start, |ids|);
    var op := LateRead(x);
    assert Denote(op.input.input, g, env) == FromSeq(NodeRows(g, ids));
    assert Denote(op.input, g, env) == RowWise(op.input, g, env, FromSeq(NodeRows(g, ids)));
    assert Denote(op, g, env) == RowWise(op, g, env, Denote(op.input, g, env));
  }

  // ---- what creating does to it

  lemma LateCreate(g: Graph, env: Env, row: Row)
    ensures ExecuteCreate(g, env, LATE_PATTERN, row) == Made(AddNode(g, Some("B"), map[]), row, true)
  {
    assert LATE_PATTERN[1..] == [];
  }

  lemma {:induction false} LateGraphShifts(g: Graph, k: nat)
    ensures LateGraph(AddNode(g, Some("B"), map[]), k) == LateGraph(g, k + 1)
  {
    if k > 0 {
      LateGraphShifts(g, k - 1);
    }
  }

  lemma {:induction false} LateCreateAll(g: Graph, env: Env, row: Row, n: nat)
    ensures CreateAll(g, env, LATE_PATTERN, Same(row, n)) == Outcome(LateGraph(g, n), Same(row, n), true)
    decreases n
  {
    hide ExecuteCreate;
    if n > 0 {
      LateCreate(g, env, row);
      SameStep(row, n);
      LateCreateAll(AddNode(g, Some("B"), map[]), env, row, n - 1);
      LateGraphShifts(g, n - 1);
      assert [row] + Same(row, n - 1) == Same(row, n);
    }
  }

  /** Exactly the created nodes are new, under the next ids. */
  lemma {:induction false} LateLoads(g: Graph, k: nat, id: nat)
    requires WellFormed(g)
    ensures LateGraph(g, k).nextId == g.nextId + k
    ensures LoadNode(LateGraph(g, k), id) ==
            if g.nextId <= id < g.nextId + k then Some(NodeV(id, ["B"], map[])) else LoadNode(g, id)
    decreases k
  {
    if k > 0 {
      LateLoads(g, k - 1, id);
    }
  }

  /** The rows of a late read over a graph that grows. */
  function LateRows(g: Graph, start: nat, n: nat): seq<Row> {
    seq(n, i requires 0 <= i < n => LateRow(LateGraph(g, i), start))
  }

  /** A row comes out differently exactly if the node it names has been created before it. */
  lemma LateRowsSame(g: Graph, start: nat, n: nat)
    requires WellFormed(g)
    ensures LateRows(g, start, n) == Same(LateRow(g, start), n) <==> !(g.nextId <= start < g.nextId + n - 1)
  {
    forall i: nat | i < n
      ensures LateRows(g, start, n)[i] == LateRow(g, start) <==> !(g.nextId <= start < g.nextId + i)
    {
      LateLoads(g, i, start);
      if g.nextId <= start < g.nextId + i {
        LateLoads(g, 0, start);
        assert LoadNode(g, start).None?;
        assert "e" in LateRows(g, start, n)[i] && "e" !in LateRow(g, start);
      }
    }
    if g.nextId <= start < g.nextId + n - 1 {
      assert LateRows(g, start, n)[n - 1] != Same(LateRow(g, start), n)[n - 1];
    }
  }

  /** The same loop over a plan that takes an id from a number: no barrier is put under this CREATE,
      and the outcome is that of reading first exactly unless the id is that of a node which one of
      the rows but the last creates. */
  method DrainLate(x: Expr, g0: Graph, env: Env, start: nat) returns (out: Outcome)
    requires WellFormed(g0) && start < U64 && forall row: Row :: env.eval(x, row) == Some(Integer(start))
    ensures ReadOnly(LateRead(x)) && BarrierIfConflict(LateRead(x), Creates(LATE_PATTERN)) == LateRead(x)
    ensures out == ReadFirst(g0, env, LATE_PATTERN, Denote(LateRead(x), g0, env)) <==>
            !(g0.nextId <= start < g0.nextId + |IdsWithLabel(g0, g0.ids, "A")| - 1)
    ensures PlanIdsKnown(LateRead(x), g0, env) <==> start < g0.nextId || IdsWithLabel(g0, g0.ids, "A") == []
  {
    hide ReadOnly, WellFormed, Denote, Remaining, IdsKnown, PlanIdsKnown, Conflicts, Reads, Creates, Valid, Build, IdsWithLabel,
      ExecuteCreate, Gather, LoadNode, Steps, LateState, LateRow, LateGraph, InsertEager;
    ghost var ids := IdsWithLabel(g0, g0.ids, "A");
    LateQuiet(x);
    LateBuilt(x, ids, start);
    LabelledLive(g0, g0.ids, "A");
    LateStarts(g0, env, x, start);
    LateGraphNone(g0);
    var st, g, rows := Build(LateRead(x)), g0, [];
    while true
      invariant |rows| <= |ids| && g == LateGraph(g0, |rows|) && rows == LateRows(g0, start, |rows|)
      invariant Valid(st) && st == LateState(x, ids, start, |rows|)
      decreases |ids| - |rows|
    {
      LateAlive(g0, |rows|, ids);
      var r, st';
      st', r := NextRow(st, g, env);
      LatePull(x, g, env, st', r, ids, start, |rows|);
      st := st';
      if !r.Got? {
        out := Outcome(g, rows, r.End?);
        break;
      }
      LateCreate(g, env, r.row);
      var made := RunCreate(g, env, LATE_PATTERN, r.row);
      if !made.ok {
        out := Outcome(made.g, rows, false);
        break;
      }
      LateNext(g0, start, |rows|);
      g := made.g;
      rows := rows + [made.row];
    }
    LateReadFirst(g0, env, x, start);
    LateRowsSame(g0, start, |ids|);
  }

  lemma LateGraphNone(g: Graph)
    ensures LateGraph(g, 0) == g
  {
  }

  lemma LateNext(g: Graph, start: nat, n: nat)
    ensures LateGraph(g, n + 1) == AddNode(LateGraph(g, n), Some("B"), map[])
    ensures LateRows(g, start, n + 1) == LateRows(g, start, n) + [LateRow(LateGraph(g, n), start)]
  {
  }

  lemma LateAlive(g: Graph, k: nat, ids: seq<nat>)
    requires WellFormed(g) && forall i | 0 <= i < |ids| :: ids[i] in g.nodes && LoadNode(g, ids[i]).Some?
    ensures forall i | 0 <= i < |ids| :: LoadNode(LateGraph(g, k), ids[i]).Some?
  {
    hide LoadNode, LateGraph;
    forall i | 0 <= i < |ids| ensures LoadNode(LateGraph(g, k), ids[i]).Some? {
      LateLoads(g, k, ids[i]);
    }
  }

  lemma LateReadFirst(g: Graph, env: Env, x: Expr, start: nat)
    requires start < U64 && forall row: Row :: env.eval(x, row) == Some(Integer(start))
    ensures ReadOnly(LateRead(x))
    ensures var n := |IdsWithLabel(g, g.ids, "A")|;
            ReadFirst(g, env, LATE_PATTERN, Denote(LateRead(x), g, env)) == Outcome(LateGraph(g, n), Same(LateRow(g, start), n), true)
  {
    hide Denote, IdsWithLabel, LateGraph, LateRow, CreateAll;
    LateMeans(g, env, x, start);
    var rows := Same(LateRow(g, start), |IdsWithLabel(g, g.ids, "A")|);
    GatherPrepend(rows, Done);
    assert rows + [] == rows;
    LateCreateAll(g, env, LateRow(g, start), |rows|);
  }

  lemma LateStarts(g: Graph, env: Env, x: Expr, start: nat)
    requires start < U64 && forall row: Row :: env.eval(x, row) == Some(Integer(start))
    ensures ReadOnly(LateRead(x))
    ensures PlanIdsKnown(LateRead(x), g, env) <==> start < g.nextId || IdsWithLabel(g, g.ids, "A") == []
  {
    hide Denote, IdsWithLabel;
    LateMeans(g, env, x, start);
    SameStarts(g, start, |IdsWithLabel(g, g.ids, "A")|);
    assert PlanIdsKnown(LateRead(x).input.input, g, env);
    assert PlanIdsKnown(LateRead(x).input, g, env);
  }

  lemma {:induction false} SameStarts(g: Graph, start: nat, n: nat)
    requires start < U64
    ensures StartsKnown(FromSeq(Same(map["x" := Integer(start)], n)), "x", g) <==> start < g.nextId || n == 0
    decreases n
  {
    if n > 0 {
      SameStep(map["x" := Integer(start)], n);
      SameStarts(g, start, n - 1);
    }
  }

  lemma LateQuiet(x: Expr)
    ensures !Conflicts(Reads(LateRead(x)), Creates(LATE_PATTERN))
    ensures BarrierIfConflict(LateRead(x), Creates(LATE_PATTERN)) == LateRead(x)
  {
    var op, mine := LateRead(x), NO_READS.(relTypes := NO_READS.relTypes + Elems(["R"]));
    assert CollectReads(op, NO_READS) == CollectReads(op.input, mine) == CollectReads(op.input.input, mine);
    assert CollectReads(op.input.input, mine) == mine.(nodeLabels := mine.nodeLabels + {"A"});
    assert Reads(op).nodeLabels == {"A"} && !Reads(op).anyNode && !Reads(op).anyRel;
    var node := NodePattern(None, ["B"], []);
    var pattern := [NodeElem(node)];
    forall l | l in Creates(pattern).nodeLabels ensures l == "B" && l != "A" {
      var i :| 0 <= i < |pattern| && pattern[i].NodeElem? && l in pattern[i].node.labels;
      assert pattern[i].node == node && "B"[0] != "A"[0];
    }
    assert Creates(pattern).relTypes == {} && !Creates(pattern).unlabelledNode && !Creates(pattern).untypedRel;
  }
}
