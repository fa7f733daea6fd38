/** Logical plans and the Eager-barrier rewrite (src/cypher/plan.rs, src/cypher/planner.rs). */
module Plan {
  import opened Frames
  import opened Ast

  datatype Direction = Outgoing | Incoming | Both

  datatype NodePattern = NodePattern(variable: Option<string>, labels: seq<string>, properties: seq<(string, Expr)>)

  datatype RelPattern = RelPattern(types: seq<string>, variable: Option<string>, properties: seq<(string, Expr)>)

  datatype Element = NodeElem(node: NodePattern) | RelElem(rel: RelPattern)

  type Pattern = seq<Element>

  datatype SetItem =
    | SetProperty(target: Expr, value: Expr)
    | SetLabel(variable: string, labels: seq<string>)
    | SetMerge(variable: string, value: Expr)
    | SetReplace(variable: string, value: Expr)

  datatype RemoveItem = RemoveProperty(target: Expr) | RemoveLabel(variable: string, labels: seq<string>)

  /** A projected expression under its output column name. */
  datatype Projection = Projection(name: string, expression: Expr)

  datatype OrderItem = OrderItem(expression: Expr, ascending: bool)

  datatype AggregateFunction = Count | Collect | Sum | Avg | Min | Max

  datatype Aggregation = Aggregation(alias: string, function_: AggregateFunction, argument: Expr, distinct: bool)

  /** `LogicalOperator`. */
  datatype Op =
    | SingleRow
    | AllNodesScan
    | NodeByLabelScan(nodeLabel: string)
    | NodeByIdScan(id: nat)
    | Expand(input: Op, direction: Direction, relTypes: seq<string>, relVariable: Option<string>,
             endVariable: Option<string>, fromVariable: string)
    | VarLenExpand(input: Op, direction: Direction, relTypes: seq<string>, relVariable: Option<string>,
                   endVariable: Option<string>, fromVariable: string, minHops: nat, maxHops: Option<nat>)
    | Filter(input: Op, predicate_: Expr)
    | Project(input: Op, projections: seq<Projection>)
    | Sort(input: Op, orderBy: seq<OrderItem>)
    | Skip(input: Op, count: Expr)
    | Limit(input: Op, count: Expr)
    | Create(source: Option<Op>, pattern: Pattern)
    | Eager(input: Op)
    | Delete(input: Op, expressions: seq<Expr>, detach: bool)
    | Set(input: Op, setItems: seq<SetItem>)
    | Remove(input: Op, removeItems: seq<RemoveItem>)
    | Merge(input: Op, pattern: Pattern, onCreate: seq<SetItem>, onMatch: seq<SetItem>)
    | Apply(left: Op, right: Op)
    | HashJoin(left: Op, right: Op, joinKeys: seq<string>)
    | Aggregate(input: Op, groupingKeys: seq<Expr>, aggregations: seq<Aggregation>)

  // ---------------------------------------------------------------- footprints

  datatype ReadFootprint = ReadFootprint(anyNode: bool, nodeLabels: set<string>, anyRel: bool, relTypes: set<string>)

  datatype CreateFootprint = CreateFootprint(unlabelledNode: bool, nodeLabels: set<string>, untypedRel: bool, relTypes: set<string>)
  {
    predicate IsEmpty() { !unlabelledNode && nodeLabels == {} && !untypedRel && relTypes == {} }
  }

  const NO_READS: ReadFootprint := ReadFootprint(false, {}, false, {})

  function Elems(s: seq<string>): set<string> {
    set x | x in s
  }

  function CollectReads(op: Op, fp: ReadFootprint): ReadFootprint {
    match op
    case SingleRow => fp
    case AllNodesScan => fp.(anyNode := true)
    case NodeByLabelScan(l) => fp.(nodeLabels := fp.nodeLabels + {l})
    case NodeByIdScan(_) => fp
    case Expand(input, _, types, _, _, _) =>
      CollectReads(input, if types == [] then fp.(anyRel := true) else fp.(relTypes := fp.relTypes + Elems(types)))
    case VarLenExpand(input, _, types, _, _, _, _, _) =>
      CollectReads(input, if types == [] then fp.(anyRel := true) else fp.(relTypes := fp.relTypes + Elems(types)))
    case Filter(input, _) => CollectReads(input, fp)
    case Project(input, _) => CollectReads(input, fp)
    case Sort(input, _) => CollectReads(input, fp)
    case Skip(input, _) => CollectReads(input, fp)
    case Limit(input, _) => CollectReads(input, fp)
    case Aggregate(input, _, _) => CollectReads(input, fp)
    case Delete(input, _, _) => CollectReads(input, fp)
    case Set(input, _) => CollectReads(input, fp)
    case Remove(input, _) => CollectReads(input, fp)
    case Merge(input, _, _, _) => CollectReads(input, fp)
    case Eager(input) => CollectReads(input, fp)
    case Create(None, _) => fp
    case Create(Some(input), _) => CollectReads(input, fp)
    case Apply(left, right) => CollectReads(right, CollectReads(left, fp))
    case HashJoin(left, right, _) => CollectReads(right, CollectReads(left, fp))
  }

  function Reads(op: Op): ReadFootprint {
    CollectReads(op, NO_READS)
  }

  /** What a write pattern creates, said declaratively. */
  function Creates(pattern: Pattern): CreateFootprint {
    CreateFootprint(
      exists i | 0 <= i < |pattern| :: pattern[i].NodeElem? && pattern[i].node.labels == [],
      set i, l | 0 <= i < |pattern| && pattern[i].NodeElem? && l in pattern[i].node.labels :: l,
      exists i | 0 <= i < |pattern| :: pattern[i].RelElem? && pattern[i].rel.types == [],
      set i, t | 0 <= i < |pattern| && pattern[i].RelElem? && t in pattern[i].rel.types :: t)
  }

  /** `create_footprint`: the same, accumulated element by element. */
  method CreateFootprintOf(pattern: Pattern) returns (fp: CreateFootprint)
    ensures fp == Creates(pattern)
  {
    fp := CreateFootprint(false, {}, false, {});
    for k := 0 to |pattern|
      invariant fp == Creates(pattern[..k])
    {
      CreatesAppend(pattern, k);
      match pattern[k]
      case NodeElem(n) =>
        fp := if n.labels == [] then fp.(unlabelledNode := true) else fp.(nodeLabels := fp.nodeLabels + Elems(n.labels));
      case RelElem(r) =>
        fp := if r.types == [] then fp.(untypedRel := true) else fp.(relTypes := fp.relTypes + Elems(r.types));
    }
    assert pattern[..|pattern|] == pattern;
  }

  lemma CreatesAppend(pattern: Pattern, k: nat)
    requires k < |pattern|
    ensures Creates(pattern[..k + 1]) ==
            var fp := Creates(pattern[..k]);
            match pattern[k]
            case NodeElem(n) => fp.(unlabelledNode := fp.unlabelledNode || n.labels == [], nodeLabels := fp.nodeLabels + Elems(n.labels))
            case RelElem(r) => fp.(untypedRel := fp.untypedRel || r.types == [], relTypes := fp.relTypes + Elems(r.types))
  {
    var p, q := pattern[..k], pattern[..k + 1];
    assert q == p + [pattern[k]];
    assert forall i | 0 <= i < k :: q[i] == p[i];
    assert q[k] == pattern[k];
  }

  predicate Conflicts(read: ReadFootprint, write: CreateFootprint) {
    || (write.unlabelledNode && read.anyNode)
    || (write.nodeLabels != {} && (read.anyNode || !(write.nodeLabels !! read.nodeLabels)))
    || (write.untypedRel && read.anyRel)
    || (write.relTypes != {} && (read.anyRel || !(write.relTypes !! read.relTypes)))
  }

  /** A node with this label, or without one, is among those created. */
  predicate Declared(nodeLabel: Option<string>, write: CreateFootprint) {
    match nodeLabel
    case None => write.unlabelledNode
    case Some(l) => l in write.nodeLabels
  }

  predicate DeclaredRel(relType: Option<string>, write: CreateFootprint) {
    match relType
    case None => write.untypedRel
    case Some(t) => t in write.relTypes
  }

  /** A scan of the plan would find a node with this label, or without one. */
  predicate WouldRead(read: ReadFootprint, nodeLabel: Option<string>) {
    read.anyNode || (nodeLabel.Some? && nodeLabel.value in read.nodeLabels)
  }

  predicate WouldFollow(read: ReadFootprint, relType: Option<string>) {
    read.anyRel || (relType.Some? && relType.value in read.relTypes)
  }

  /** Footprints conflict exactly if something created is something the plan would read. */
  lemma ConflictsExactly(read: ReadFootprint, write: CreateFootprint)
    ensures Conflicts(read, write) <==>
            || (exists l: Option<string> :: Declared(l, write) && WouldRead(read, l))
            || (exists t: Option<string> :: DeclaredRel(t, write) && WouldFollow(read, t))
  {
    if Conflicts(read, write) {
      if write.unlabelledNode && read.anyNode {
        assert Declared(None, write) && WouldRead(read, None);
      } else if write.nodeLabels != {} && (read.anyNode || !(write.nodeLabels !! read.nodeLabels)) {
        var l :| l in write.nodeLabels && (read.anyNode || l in read.nodeLabels);
        assert Declared(Some(l), write) && WouldRead(read, Some(l));
      } else if write.untypedRel && read.anyRel {
        assert DeclaredRel(None, write) && WouldFollow(read, None);
      } else {
        var t :| t in write.relTypes && (read.anyRel || t in read.relTypes);
        assert DeclaredRel(Some(t), write) && WouldFollow(read, Some(t));
      }
    }
  }

  // ---------------------------------------------------------------- the rewrite

  /** The operator materialises its whole input before its first row. */
  predicate IsPipelineBreaker(op: Op) {
    op.Aggregate? || op.Sort? || op.Eager?
  }

  function BarrierIfConflict(read: Op, fp: CreateFootprint): Op {
    if fp.IsEmpty() || IsPipelineBreaker(read) then read
    else if Conflicts(Reads(read), fp) then Eager(read)
    else read
  }

  function InsertEager(op: Op): Op {
    match op
    case Create(None, pattern) => op
    case Create(Some(input), pattern) => Create(Some(BarrierIfConflict(InsertEager(input), Creates(pattern))), pattern)
    case Merge(input, pattern, onCreate, onMatch) =>
      Merge(BarrierIfConflict(InsertEager(input), Creates(pattern)), pattern, onCreate, onMatch)
    case Filter(input, p) => Filter(InsertEager(input), p)
    case Project(input, ps) => Project(InsertEager(input), ps)
    case VarLenExpand(input, d, ts, rv, ev, fv, lo, hi) => VarLenExpand(InsertEager(input), d, ts, rv, ev, fv, lo, hi)
    case Expand(input, d, ts, rv, ev, fv) => Expand(InsertEager(input), d, ts, rv, ev, fv)
    case Sort(input, o) => Sort(InsertEager(input), o)
    case Skip(input, n) => Skip(InsertEager(input), n)
    case Limit(input, n) => Limit(InsertEager(input), n)
    case Aggregate(input, ks, aggs) => Aggregate(InsertEager(input), ks, aggs)
    case Delete(input, es, d) => Delete(InsertEager(input), es, d)
    case Set(input, items) => Set(InsertEager(input), items)
    case Remove(input, items) => Remove(InsertEager(input), items)
    case Eager(input) => Eager(InsertEager(input))
    case Apply(l, r) => Apply(InsertEager(l), InsertEager(r))
    case HashJoin(l, r, ks) => HashJoin(InsertEager(l), InsertEager(r), ks)
    case SingleRow => op
    case AllNodesScan => op
    case NodeByLabelScan(_) => op
    case NodeByIdScan(_) => op
  }

  // ---------------------------------------------------------------- the rewrite is exact

  /** An operator's first input. */
  function First(op: Op): (r: Option<Op>)
    ensures r.Some? ==> r.value < op
  {
    match op
    case Create(source, _) => source
    case Apply(l, _) => Some(l)
    case HashJoin(l, _, _) => Some(l)
    case SingleRow => None
    case AllNodesScan => None
    case NodeByLabelScan(_) => None
    case NodeByIdScan(_) => None
    case _ => Some(op.input)
  }

  /** A binary operator's second input. */
  function Second(op: Op): (r: Option<Op>)
    ensures r.Some? ==> r.value < op
  {
    if op.Apply? || op.HashJoin? then Some(op.right) else None
  }

  /** The same operator over other inputs. */
  function Over(op: Op, first: Option<Op>, second: Option<Op>): Op
    requires first.Some? == First(op).Some? && second.Some? == Second(op).Some?
  {
    if first.None? then op
    else if op.Create? then op.(source := first)
    else if second.Some? then op.(left := first.value, right := second.value)
    else op.(input := first.value)
  }

  /** The plan with its Eager barriers taken out. */
  function Erase(op: Op): Op {
    if op.Eager? then Erase(op.input)
    else
      Over(op, if First(op).Some? then Some(Erase(First(op).value)) else None,
           if Second(op).Some? then Some(Erase(Second(op).value)) else None)
  }

  /** The write over `input` needs a barrier: what it creates, `input` could still read. */
  predicate NeedsBarrier(input: Op, pattern: Pattern) {
    !IsPipelineBreaker(input) && Conflicts(Reads(input), Creates(pattern))
  }

  /** A write directly over an input that needs a barrier. */
  predicate BarrierSite(op: Op) {
    (op.Create? || op.Merge?) && First(op).Some? && NeedsBarrier(First(op).value, op.pattern)
  }

  /** How many such writes the plan has. */
  function BarrierSites(op: Op): nat {
    (if BarrierSite(op) then 1 else 0)
    + (if First(op).Some? then BarrierSites(First(op).value) else 0)
    + (if Second(op).Some? then BarrierSites(Second(op).value) else 0)
  }

  function Barriers(op: Op): nat {
    (if op.Eager? then 1 else 0)
    + (if First(op).Some? then Barriers(First(op).value) else 0)
    + (if Second(op).Some? then Barriers(Second(op).value) else 0)
  }

  /** `op'` is `op` with a barrier put in exactly at its barrier sites. */
  ghost predicate BarriersAdded(op: Op, op': Op) {
    && First(op').Some? == First(op).Some? && Second(op').Some? == Second(op).Some?
    && op == Over(op', First(op), Second(op))
    && (First(op).Some? ==>
          if BarrierSite(op) then First(op').value.Eager? && BarriersAdded(First(op).value, First(op').value.input)
          else BarriersAdded(First(op).value, First(op').value))
    && (Second(op).Some? ==> BarriersAdded(Second(op).value, Second(op').value))
  }

  // ---------------------------------------------------------------- footprints, operator by operator

  function Union(a: ReadFootprint, b: ReadFootprint): ReadFootprint {
    ReadFootprint(a.anyNode || b.anyNode, a.nodeLabels + b.nodeLabels, a.anyRel || b.anyRel, a.relTypes + b.relTypes)
  }

  /** What an operator itself adds. */
  function OwnReads(op: Op): ReadFootprint {
    match op
    case AllNodesScan => NO_READS.(anyNode := true)
    case NodeByLabelScan(l) => NO_READS.(nodeLabels := {l})
    case Expand(_, _, ts, _, _, _) => if ts == [] then NO_READS.(anyRel := true) else NO_READS.(relTypes := Elems(ts))
    case VarLenExpand(_, _, ts, _, _, _, _, _) => if ts == [] then NO_READS.(anyRel := true) else NO_READS.(relTypes := Elems(ts))
    case _ => NO_READS
  }

  lemma CollectReadsStep(op: Op, fp: ReadFootprint)
    ensures CollectReads(op, fp) ==
            var mine := Union(fp, OwnReads(op));
            if First(op).None? then mine
            else if Second(op).None? then CollectReads(First(op).value, mine)
            else CollectReads(Second(op).value, CollectReads(First(op).value, mine))
  {
    hide Elems;
    assert Union(fp, NO_READS) == fp;
    if op.Expand? || op.VarLenExpand? {
      var fp' := if op.relTypes == [] then fp.(anyRel := true) else fp.(relTypes := fp.relTypes + Elems(op.relTypes));
      assert fp' == Union(fp, OwnReads(op));
    }
  }

  /** `sub` stands somewhere in the plan. */
  ghost predicate Occurs(sub: Op, op: Op) {
    sub == op || (First(op).Some? && Occurs(sub, First(op).value)) || (Second(op).Some? && Occurs(sub, Second(op).value))
  }

  predicate IsExpansion(op: Op) {
    op.Expand? || op.VarLenExpand?
  }

  /** An expansion over any type stands in the plan. */
  ghost predicate FollowsAny(op: Op) {
    exists x :: Occurs(x, op) && IsExpansion(x) && x.relTypes == []
  }

  /** An expansion over type `t` stands in the plan. */
  ghost predicate FollowsType(op: Op, t: string) {
    exists x :: Occurs(x, op) && IsExpansion(x) && t in x.relTypes
  }

  /** A plan's footprint is what its scans and expansions read, and nothing else: all nodes if it scans all, a label for
      every label scan, all relationships if an expansion follows any, a type for every type that one follows. */
  lemma ReadsExactly(op: Op)
    ensures Reads(op).anyNode <==> Occurs(AllNodesScan, op)
    ensures forall l :: l in Reads(op).nodeLabels <==> Occurs(NodeByLabelScan(l), op)
    ensures Reads(op).anyRel <==> FollowsAny(op)
    ensures forall t :: t in Reads(op).relTypes <==> FollowsType(op, t)
  {
    CollectsExactly(op, NO_READS);
  }

  lemma {:induction false} CollectsExactly(op: Op, fp: ReadFootprint)
    ensures var r := CollectReads(op, fp);
            && (r.anyNode <==> fp.anyNode || Occurs(AllNodesScan, op))
            && (forall l :: l in r.nodeLabels <==> l in fp.nodeLabels || Occurs(NodeByLabelScan(l), op))
            && (r.anyRel <==> fp.anyRel || FollowsAny(op))
            && (forall t :: t in r.relTypes <==> t in fp.relTypes || FollowsType(op, t))
  {
    hide CollectReads, Occurs, FollowsAny, FollowsType;
    CollectReadsStep(op, fp);
    OccursBelow(op);
    FollowsBelow(op);
    OwnExactly(op, fp);
    var mine := Union(fp, OwnReads(op));
    if First(op).Some? {
      CollectsExactly(First(op).value, mine);
      if Second(op).Some? {
        CollectsExactly(Second(op).value, CollectReads(First(op).value, mine));
      }
    }
  }

  lemma OccursBelow(op: Op)
    ensures forall sub :: Occurs(sub, op) <==>
              sub == op || (First(op).Some? && Occurs(sub, First(op).value)) || (Second(op).Some? && Occurs(sub, Second(op).value))
  {
  }

  lemma FollowsBelow(op: Op)
    ensures FollowsAny(op) <==>
              || (IsExpansion(op) && op.relTypes == [])
              || (First(op).Some? && FollowsAny(First(op).value))
              || (Second(op).Some? && FollowsAny(Second(op).value))
    ensures forall t :: FollowsType(op, t) <==>
              || (IsExpansion(op) && t in op.relTypes)
              || (First(op).Some? && FollowsType(First(op).value, t))
              || (Second(op).Some? && FollowsType(Second(op).value, t))
  {
    hide Occurs;
    OccursBelow(op);
    assert Occurs(op, op);
  }

  lemma OwnExactly(op: Op, fp: ReadFootprint)
    ensures var mine := Union(fp, OwnReads(op));
            && (mine.anyNode <==> fp.anyNode || op == AllNodesScan)
            && (forall l :: l in mine.nodeLabels <==> l in fp.nodeLabels || op == NodeByLabelScan(l))
            && (mine.anyRel <==> fp.anyRel || (IsExpansion(op) && op.relTypes == []))
            && (forall t :: t in mine.relTypes <==> t in fp.relTypes || (IsExpansion(op) && t in op.relTypes))
  {
  }

  /** One level of the rewrite, barrier or no barrier. */
  lemma InsertLevel(op: Op)
    ensures var op' := InsertEager(op);
            && OwnReads(op') == OwnReads(op) && IsPipelineBreaker(op') == IsPipelineBreaker(op)
            && Second(op') == (if Second(op).Some? then Some(InsertEager(Second(op).value)) else None)
            && First(op').Some? == First(op).Some?
            && (First(op).Some? ==>
                  First(op').value == InsertEager(First(op).value) || First(op').value == Eager(InsertEager(First(op).value)))
  {
    hide Elems, CollectReads, Creates;
  }

  lemma EagerReads(op: Op, fp: ReadFootprint)
    ensures CollectReads(Eager(op), fp) == CollectReads(op, fp)
  {
  }

  /** A barrier reads what its input reads. */
  lemma {:induction false} ReadsSame(op: Op, fp: ReadFootprint)
    ensures CollectReads(InsertEager(op), fp) == CollectReads(op, fp)
    ensures IsPipelineBreaker(InsertEager(op)) == IsPipelineBreaker(op)
  {
    hide CollectReads, InsertEager, OwnReads, Union, IsPipelineBreaker, First, Second;
    InsertLevel(op);
    CollectReadsStep(op, fp);
    CollectReadsStep(InsertEager(op), fp);
    var mine := Union(fp, OwnReads(op));
    if First(op).Some? {
      ReadsSame(First(op).value, mine);
      EagerReads(InsertEager(First(op).value), mine);
      if Second(op).Some? {
        ReadsSame(Second(op).value, CollectReads(First(op).value, mine));
      }
    }
  }

  lemma EmptyNeverConflicts(read: ReadFootprint, fp: CreateFootprint)
    requires fp.IsEmpty()
    ensures !Conflicts(read, fp)
  {
  }

  /** One level of the rewrite. */
  lemma InsertShape(op: Op)
    ensures var op' := InsertEager(op);
            && Second(op') == (if Second(op).Some? then Some(InsertEager(Second(op).value)) else None)
            && First(op') == (if First(op).None? then None
                              else if BarrierSite(op) then Some(Eager(InsertEager(First(op).value)))
                              else Some(InsertEager(First(op).value)))
            && op' == Over(op, First(op'), Second(op')) && op == Over(op', First(op), Second(op))
            && op'.Eager? == op.Eager?
  {
    hide CollectReads, Creates, Conflicts;
    if First(op).Some? {
      ReadsSame(First(op).value, NO_READS);
      EmptyQuiet(Reads(First(op).value), op);
    }
  }

  lemma EmptyQuiet(read: ReadFootprint, op: Op)
    ensures (op.Create? || op.Merge?) && Creates(op.pattern).IsEmpty() ==> !Conflicts(read, Creates(op.pattern))
  {
    hide Creates;
  }

  /** Barriers appear exactly where the footprints of the original plan conflict and its input is not
      already a pipeline breaker. */
  lemma {:induction false} InsertsExactly(op: Op)
    ensures BarriersAdded(op, InsertEager(op))
    ensures Barriers(InsertEager(op)) == Barriers(op) + BarrierSites(op)
  {
    hide InsertEager, NeedsBarrier;
    InsertShape(op);
    if First(op).Some? {
      InsertsExactly(First(op).value);
      BarrierOver(InsertEager(First(op).value));
    }
    if Second(op).Some? {
      InsertsExactly(Second(op).value);
    }
  }

  lemma BarrierOver(op: Op)
    ensures First(Eager(op)) == Some(op) && Second(Eager(op)) == None && Barriers(Eager(op)) == 1 + Barriers(op)
  {
  }

  /** Only one plan has its barriers exactly there. */
  lemma {:induction false} BarriersUnique(op: Op, a: Op, b: Op)
    requires BarriersAdded(op, a) && BarriersAdded(op, b)
    ensures a == b
    decreases op
  {
    hide NeedsBarrier, Over;
    if First(op).Some? {
      var x, y := First(a).value, First(b).value;
      if BarrierSite(op) {
        BarriersUnique(First(op).value, x.input, y.input);
      } else {
        BarriersUnique(First(op).value, x, y);
      }
    }
    if Second(op).Some? {
      BarriersUnique(Second(op).value, Second(a).value, Second(b).value);
    }
    OverBack(op, a);
    OverBack(op, b);
  }

  /** Putting the inputs back gives the operator back. */
  lemma OverBack(op: Op, a: Op)
    requires First(a).Some? == First(op).Some? && Second(a).Some? == Second(op).Some? && op == Over(a, First(op), Second(op))
    ensures a == Over(op, First(a), Second(a))
  {
  }

  /** Taking the barriers out gives back the input plan. */
  lemma {:induction false} EraseUndoesInsert(op: Op)
    ensures Erase(InsertEager(op)) == Erase(op)
    ensures Barriers(op) == 0 ==> Erase(op) == op
  {
    hide InsertEager, BarrierSite;
    InsertShape(op);
    if First(op).Some? {
      EraseUndoesInsert(First(op).value);
    }
    if Second(op).Some? {
      EraseUndoesInsert(Second(op).value);
    }
  }

  /** A second application changes nothing. */
  lemma {:induction false} InsertIdempotent(op: Op)
    ensures InsertEager(InsertEager(op)) == InsertEager(op)
  {
    hide InsertEager, NeedsBarrier, Over;
    var op' := InsertEager(op);
    InsertShape(op);
    InsertShape(op');
    if First(op).Some? {
      var input := InsertEager(First(op).value);
      InsertIdempotent(First(op).value);
      InsertUnder(input);
      NoSiteLeft(op);
    }
    if Second(op).Some? {
      InsertIdempotent(Second(op).value);
    }
    OverSelf(op');
  }

  lemma InsertUnder(op: Op)
    ensures InsertEager(Eager(op)) == Eager(InsertEager(op))
  {
  }

  lemma OverSelf(op: Op)
    ensures Over(op, First(op), Second(op)) == op
  {
  }

  /** After the rewrite no write needs a barrier. */
  lemma NoSiteLeft(op: Op)
    requires First(op).Some?
    ensures !BarrierSite(InsertEager(op))
  {
    hide InsertEager, CollectReads, Creates, Conflicts, Over;
    InsertShape(op);
    InsertPattern(op);
    ReadsSame(First(op).value, NO_READS);
  }

  lemma InsertPattern(op: Op)
    ensures op.Create? == InsertEager(op).Create? && op.Merge? == InsertEager(op).Merge?
    ensures op.Create? || op.Merge? ==> InsertEager(op).pattern == op.pattern
  {
    hide CollectReads, Creates, Conflicts;
  }

  // ---------------------------------------------------------------- the optimizer passes

  /** `predicate_pushdown`: recurses through these operators and rebuilds each as it was. */
  function PredicatePushdown(op: Op): Op {
    match op
    case SingleRow => SingleRow
    case Filter(input, p) => Filter(PredicatePushdown(input), p)
    case Project(input, ps) => Project(PredicatePushdown(input), ps)
    case Sort(input, o) => Sort(PredicatePushdown(input), o)
    case Skip(input, n) => Skip(PredicatePushdown(input), n)
    case Limit(input, n) => Limit(PredicatePushdown(input), n)
    case Expand(input, d, ts, rv, ev, fv) => Expand(PredicatePushdown(input), d, ts, rv, ev, fv)
    case VarLenExpand(input, d, ts, rv, ev, fv, lo, hi) => VarLenExpand(PredicatePushdown(input), d, ts, rv, ev, fv, lo, hi)
    case Eager(input) => Eager(PredicatePushdown(input))
    case Aggregate(input, ks, aggs) => Aggregate(PredicatePushdown(input), ks, aggs)
    case _ => op
  }

  function LabelScanPreference(op: Op): Op {
    match op
    case SingleRow => SingleRow
    case Filter(input, p) => Filter(LabelScanPreference(input), p)
    case Project(input, ps) => Project(LabelScanPreference(input), ps)
    case Sort(input, o) => Sort(LabelScanPreference(input), o)
    case Skip(input, n) => Skip(LabelScanPreference(input), n)
    case Limit(input, n) => Limit(LabelScanPreference(input), n)
    case Expand(input, d, ts, rv, ev, fv) => Expand(LabelScanPreference(input), d, ts, rv, ev, fv)
    case VarLenExpand(input, d, ts, rv, ev, fv, lo, hi) => VarLenExpand(LabelScanPreference(input), d, ts, rv, ev, fv, lo, hi)
    case Aggregate(input, ks, aggs) => Aggregate(LabelScanPreference(input), ks, aggs)
    case Eager(input) => Eager(LabelScanPreference(input))
    case _ => op
  }

  function Optimize(op: Op): Op {
    LabelScanPreference(PredicatePushdown(op))
  }

  /** The optimizer passes keep every plan as it is, barriers included. */
  lemma {:induction false} OptimizeKeeps(op: Op)
    ensures PredicatePushdown(op) == op && LabelScanPreference(op) == op && Optimize(op) == op
  {
    if First(op).Some? {
      OptimizeKeeps(First(op).value);
    }
  }
}
