/** What grouping and the aggregate functions give (src/cypher/physical.rs:1843-1987), said of the rows. */
module Aggregates {
  import opened Frames
  import opened Ast
  import opened Plan
  import opened Graphs
  import opened Streams
  import opened Bindings
  import opened Sorting
  import opened Physical
  import opened Operators
  import opened Ordered
  import opened PlanLaws

  // ---------------------------------------------------------------- the values an aggregate is taken over

  /** `vs` are the values of the argument on the rows, in order, where it has one; a lone `*` counts every row. */
  ghost predicate ArgumentsAre(env: Env, argument: Expr, rows: seq<Row>, vs: seq<Value>, ix: seq<nat>) {
    && Places(ix, |rows|) && |vs| == |ix|
    && (forall k | 0 <= k < |ix| :: Contributes(env, argument, rows[ix[k]], vs[k]))
    && (forall i: nat | i < |rows| :: i in ix <==> argument.Wildcard? || env.eval(argument, rows[i]).Some?)
  }

  ghost predicate Contributes(env: Env, argument: Expr, row: Row, v: Value) {
    if argument.Wildcard? then v == Integer(1) else env.eval(argument, row) == Some(v)
  }

  lemma {:induction false} ArgumentsMean(env: Env, argument: Expr, rows: seq<Row>) returns (ix: seq<nat>)
    ensures ArgumentsAre(env, argument, rows, Arguments(env, argument, rows), ix)
    decreases |rows|
  {
    hide ArgumentsAre;
    if rows == [] {
      ix := NoArguments(env, argument);
    } else {
      var ix' := ArgumentsMean(env, argument, rows[1..]);
      var vs := Arguments(env, argument, rows);
      var keep := argument.Wildcard? || env.eval(argument, rows[0]).Some?;
      assert (if keep then vs[1..] else vs) == Arguments(env, argument, rows[1..]);
      ix := ArgumentsOn(env, argument, rows, vs, ix');
    }
  }

  lemma NoArguments(env: Env, argument: Expr) returns (ix: seq<nat>)
    ensures ArgumentsAre(env, argument, [], [], ix)
  {
    ix := [];
  }

  lemma ArgumentsOn(env: Env, argument: Expr, rows: seq<Row>, vs: seq<Value>, ix': seq<nat>) returns (ix: seq<nat>)
    requires rows != []
    requires if argument.Wildcard? || env.eval(argument, rows[0]).Some?
             then vs != [] && Contributes(env, argument, rows[0], vs[0]) && ArgumentsAre(env, argument, rows[1..], vs[1..], ix')
             else ArgumentsAre(env, argument, rows[1..], vs, ix')
    ensures ArgumentsAre(env, argument, rows, vs, ix)
  {
    hide Contributes;
    var keep := (row: Row) => argument.Wildcard? || env.eval(argument, row).Some?;
    var goes := (row: Row, v: Value) => Contributes(env, argument, row, v);
    ix := PickedOn(keep, goes, rows, vs, ix');
  }

  // ---------------------------------------------------------------- the functions

  /** `sums[k]` is `start` and the first `k` values added up, from the left. */
  ghost predicate Sums(env: Env, start: Value, vs: seq<Value>, sums: seq<Value>) {
    && |sums| == |vs| + 1 && sums[0] == start
    && forall k | 0 <= k < |vs| :: env.add(sums[k], vs[k]) == Some(sums[k + 1])
  }

  /** `v` is the sum, or there is none because some addition has none. */
  ghost predicate SumIs(env: Env, start: Value, vs: seq<Value>, v: Option<Value>) {
    match v
    case Some(sum) => exists sums :: Sums(env, start, vs, sums) && sums[|vs|] == sum
    case None => exists k: nat, sums :: Stops(env, start, vs, k, sums)
  }

  ghost predicate Stops(env: Env, start: Value, vs: seq<Value>, k: nat, sums: seq<Value>) {
    k < |vs| && Sums(env, start, vs[..k], sums) && env.add(sums[k], vs[k]).None?
  }

  lemma {:induction false} SumMeans(env: Env, start: Value, vs: seq<Value>)
    ensures SumIs(env, start, vs, SumOf(env, start, vs))
    decreases |vs|
  {
    if vs == [] {
      assert Sums(env, start, vs, [start]);
    } else {
      var next := env.add(start, vs[0]);
      if next.None? {
        assert vs[..0] == [] && Stops(env, start, vs, 0, [start]);
      } else {
        SumMeans(env, next.value, vs[1..]);
        SumOn(env, start, vs, next.value, SumOf(env, start, vs));
      }
    }
  }

  lemma SumOn(env: Env, start: Value, vs: seq<Value>, next: Value, v: Option<Value>)
    requires vs != [] && env.add(start, vs[0]) == Some(next) && SumIs(env, next, vs[1..], v)
    ensures SumIs(env, start, vs, v)
  {
    if v.Some? {
      var sums :| Sums(env, next, vs[1..], sums) && sums[|vs[1..]|] == v.value;
      SumsOn(env, start, vs, next, sums);
      assert ([start] + sums)[|vs|] == v.value;
    } else {
      var k: nat, sums :| Stops(env, next, vs[1..], k, sums);
      assert vs[..k + 1][1..] == vs[1..][..k];
      SumsOn(env, start, vs[..k + 1], next, sums);
      assert Stops(env, start, vs, k + 1, [start] + sums);
    }
  }

  lemma SumsOn(env: Env, start: Value, vs: seq<Value>, next: Value, sums: seq<Value>)
    requires vs != [] && env.add(start, vs[0]) == Some(next) && Sums(env, next, vs[1..], sums)
    ensures Sums(env, start, vs, [start] + sums)
  {
    var more := [start] + sums;
    forall k | 0 <= k < |vs| ensures env.add(more[k], vs[k]) == Some(more[k + 1]) {
      if k > 0 {
        assert vs[k] == vs[1..][k - 1] && more[k] == sums[k - 1] && more[k + 1] == sums[k - 1 + 1];
      }
    }
  }

  /** What an aggregate function makes of its values: COUNT their number, COLLECT their list, SUM their sum from 0,
      AVG their sum divided by their number, or null of none, MIN and MAX one of them that no other is less or
      greater than, or null of none. */
  ghost predicate Gives(env: Env, f: AggregateFunction, vs: seq<Value>, v: Option<Value>) {
    match f
    case Count => v == Some(Integer(|vs|))
    case Collect => v == Some(ListV(vs))
    case Sum => SumIs(env, Integer(0), vs, v)
    case Avg =>
      if vs == [] then v == Some(Null)
      else exists sum :: SumIs(env, Real(0.0), vs, sum) && v == if sum.Some? then env.div(sum.value, Integer(|vs|)) else None
    case Min => v.Some? && if vs == [] then v.value == Null else v.value in vs && forall w | w in vs :: !Below(w, v.value)
    case Max => v.Some? && if vs == [] then v.value == Null else v.value in vs && forall w | w in vs :: !Below(v.value, w)
  }

  /** Without DISTINCT an aggregate is its function of the values of its argument. */
  lemma AggregateMeans(env: Env, agg: Aggregation, rows: seq<Row>) returns (vs: seq<Value>, ix: seq<nat>)
    ensures ArgumentsAre(env, agg.argument, rows, vs, ix)
    ensures !agg.distinct ==> Gives(env, agg.function_, vs, ComputeAggregate(env, agg, rows))
    ensures agg.distinct ==> Gives(env, agg.function_, DistinctOf(vs), ComputeAggregate(env, agg, rows))
  {
    hide Gives, ArgumentsAre, Folded, DistinctOf;
    vs := Arguments(env, agg.argument, rows);
    ix := ArgumentsMean(env, agg.argument, rows);
    FoldedMeans(env, agg.function_, vs);
    FoldedMeans(env, agg.function_, DistinctOf(vs));
  }

  lemma FoldedMeans(env: Env, f: AggregateFunction, vs: seq<Value>)
    ensures Gives(env, f, vs, Folded(env, f, vs))
  {
    hide SumIs, SumOf, Extreme;
    SumMeans(env, Integer(0), vs);
    SumMeans(env, Real(0.0), vs);
    if vs != [] {
      ExtremeMeans(vs);
    }
  }

  lemma ExtremeMeans(vs: seq<Value>)
    requires vs != []
    ensures var r := Extreme(vs[0], vs[1..], Less); r in vs && forall w | w in vs :: !Below(w, r)
    ensures var r := Extreme(vs[0], vs[1..], Greater); r in vs && forall w | w in vs :: !Below(r, w)
  {
    hide Below;
    ExtremeIs(vs[0], vs[1..], Less);
    ExtremeIs(vs[0], vs[1..], Greater);
    var lo, hi := Extreme(vs[0], vs[1..], Less), Extreme(vs[0], vs[1..], Greater);
    forall w | w in vs ensures !Below(w, lo) && !Below(hi, w) {
      CompareMeans(w, lo);
      CompareMeans(w, hi);
      var i :| 0 <= i < |vs| && vs[i] == w;
      if i > 0 {
        assert vs[1..][i - 1] == w;
      }
    }
  }

  // ---------------------------------------------------------------- DISTINCT

  /** Neither is less than the other: the same for ORDER BY, or not to be compared. */
  ghost predicate Level(a: Value, b: Value) {
    !Below(a, b) && !Below(b, a)
  }

  /** Between two equal values stands another that is level with them. */
  ghost predicate Parted(vs: seq<Value>) {
    exists i, j, k :: PartedAt(vs, i, j, k)
  }

  ghost predicate PartedAt(vs: seq<Value>, i: int, j: int, k: int) {
    0 <= i < j < k < |vs| && vs[i] == vs[k] != vs[j] && Level(vs[i], vs[j])
  }

  ghost predicate NoneTwice(vs: seq<Value>) {
    forall i, j | 0 <= i < j < |vs| :: vs[i] != vs[j]
  }

  /** DISTINCT leaves every value at least once.  Where the values can be ordered, it leaves each exactly once if and
      only if no value stands between two equal ones that is level with them without being equal, such as `1.0`
      between two `1`. */
  lemma DistinctExactly(vs: seq<Value>)
    ensures forall v :: v in DistinctOf(vs) <==> v in vs
    ensures !Spoiled((v: Value) => v, vs) ==> (NoneTwice(DistinctOf(vs)) <==> !Parted(vs))
  {
    hide StableSort, TotalPreorder, Spoiled, Below, CypherCompare, Dedup, NoneTwice, Parted, Broken;
    var c := ByKey((v: Value) => v, true);
    var ys := StableSort(c, vs);
    var p := SortRearranges(c, vs);
    DedupSame(ys);
    SameValues(p, vs, ys);
    if !Spoiled((v: Value) => v, vs) {
      DedupOnce(ys);
      var q := SortsValues(vs);
      PartedIsBroken(vs, ys, q);
    }
  }

  /** So counting distinct values can count one twice: `1, 1.0, 1` and `1, 'a', 1` count as three. */
  lemma DistinctSlips(a: Value, b: Value)
    requires a != b && Level(a, b)
    ensures !Spoiled((v: Value) => v, [a, b, a]) && !NoneTwice(DistinctOf([a, b, a]))
  {
    hide DistinctOf, CypherCompare, Below;
    var vs := [a, b, a];
    CompareMeans(a, b);
    CompareMeans(a, a);
    CompareMeans(b, b);
    CompareReverse(a, a);
    CompareReverse(b, b);
    CompareReverse(a, b);
    assert forall x, y | x in vs && y in vs :: CypherCompare(x, y) != Some(Less);
    DistinctExactly(vs);
    assert PartedAt(vs, 0, 1, 2);
  }

  lemma SameValues(p: seq<nat>, xs: seq<Value>, ys: seq<Value>)
    requires Rearranges(p, xs, ys)
    ensures forall v :: v in ys <==> v in xs
  {
    forall v | v in xs ensures v in ys {
      var k :| 0 <= k < |xs| && xs[k] == v;
      assert k in p;
      var i :| 0 <= i < |p| && p[i] == k;
      assert ys[i] == v;
    }
  }

  lemma {:induction false} DedupSame(vs: seq<Value>)
    ensures forall v :: v in Dedup(vs) <==> v in vs
    ensures vs != [] ==> Dedup(vs) != [] && Dedup(vs)[0] == vs[0]
  {
    if |vs| >= 2 {
      DedupSame(vs[1..]);
      assert vs == [vs[0]] + vs[1..];
      assert forall v :: v in vs <==> v == vs[0] || v in vs[1..];
    }
  }

  /** Two equal values with another between them. */
  ghost predicate Broken(vs: seq<Value>) {
    exists i, j, k :: BrokenAt(vs, i, j, k)
  }

  ghost predicate BrokenAt(vs: seq<Value>, i: int, j: int, k: int) {
    0 <= i < j < k < |vs| && vs[i] == vs[k] != vs[j]
  }

  lemma {:induction false} DedupOnce(vs: seq<Value>)
    ensures NoneTwice(Dedup(vs)) <==> !Broken(vs)
  {
    if |vs| >= 2 {
      DedupOnce(vs[1..]);
      DedupSame(vs[1..]);
      var rest := Dedup(vs[1..]);
      BrokenOn(vs);
      if vs[0] != vs[1] {
        TwiceOn(vs[0], rest);
      }
    }
  }

  lemma TwiceOn(v: Value, rest: seq<Value>)
    ensures NoneTwice([v] + rest) <==> NoneTwice(rest) && v !in rest
  {
    var all := [v] + rest;
    if NoneTwice(all) {
      forall i, j | 0 <= i < j < |rest| ensures rest[i] != rest[j] {
        assert all[i + 1] != all[j + 1];
      }
      forall i | 0 <= i < |rest| ensures rest[i] != v {
        assert all[0] != all[i + 1];
      }
    }
  }

  lemma BrokenOn(vs: seq<Value>)
    requires |vs| >= 2
    ensures Broken(vs) <==> Broken(vs[1..]) || (vs[0] != vs[1] && vs[0] in vs[1..])
  {
    var rest := vs[1..];
    if Broken(rest) {
      var i, j, k :| BrokenAt(rest, i, j, k);
      assert BrokenAt(vs, i + 1, j + 1, k + 1);
    }
    if vs[0] != vs[1] && vs[0] in rest {
      var k :| 0 <= k < |rest| && rest[k] == vs[0];
      assert BrokenAt(vs, 0, 1, k + 1);
    }
    if Broken(vs) {
      var i, j, k :| BrokenAt(vs, i, j, k);
      if i > 0 {
        assert BrokenAt(rest, i - 1, j - 1, k - 1);
      } else {
        assert rest[k - 1] == vs[0];
        if vs[0] == vs[1] {
          assert BrokenAt(rest, 0, j - 1, k - 1);
        }
      }
    }
  }

  lemma LevelIs(a: Value, b: Value)
    ensures CompareValues(a, b, true) == Equal <==> Level(a, b)
  {
    hide CypherCompare, Below;
    CompareMeans(a, b);
  }

  /** What sorting values by themselves gives. */
  ghost predicate SortedAs(xs: seq<Value>, ys: seq<Value>, p: seq<nat>) {
    && Rearranges(p, xs, ys)
    && (forall i, j | 0 <= i < j < |ys| :: CompareValues(ys[i], ys[j], true) != Greater)
    && (forall i, j | 0 <= i < j < |ys| && CompareValues(ys[i], ys[j], true) == Equal :: p[i] < p[j])
    && (forall v, w | v in xs && w in xs :: CompareValues(w, v, true) == Reverse(CompareValues(v, w, true)))
  }

  lemma SortsValues(xs: seq<Value>) returns (p: seq<nat>)
    requires !Spoiled((v: Value) => v, xs)
    ensures SortedAs(xs, StableSort(ByKey((v: Value) => v, true), xs), p)
  {
    hide StableSort, CypherCompare, CompareValues, Spoiled;
    var c := ByKey((v: Value) => v, true);
    KeyOrdersExactly((v: Value) => v, true, xs);
    StableSortIs(c, xs);
    p := SortRearranges(c, xs);
    assert forall v, w :: c(v, w) == CompareValues(v, w, true);
  }

  /** Sorting brings equal values together unless another is level with them. */
  lemma PartedIsBroken(xs: seq<Value>, ys: seq<Value>, p: seq<nat>)
    requires SortedAs(xs, ys, p)
    ensures Broken(ys) <==> Parted(xs)
  {
    hide SortedAs, BrokenAt, PartedAt;
    if Broken(ys) {
      var i, j, k :| BrokenAt(ys, i, j, k);
      BrokenWasParted(xs, ys, p, i, j, k);
    }
    if Parted(xs) {
      var i, j, k :| PartedAt(xs, i, j, k);
      PartedIsBrokenAt(xs, ys, p, i, j, k);
    }
  }

  lemma BrokenWasParted(xs: seq<Value>, ys: seq<Value>, p: seq<nat>, i: int, j: int, k: int)
    requires SortedAs(xs, ys, p) && BrokenAt(ys, i, j, k)
    ensures Parted(xs)
  {
    hide CompareValues, Level;
    assert ys[i] in xs && ys[j] in xs;
    assert CompareValues(ys[j], ys[i], true) == Reverse(CompareValues(ys[i], ys[j], true));
    assert CompareValues(ys[j], ys[k], true) != Greater;
    LevelIs(ys[i], ys[j]);
    assert p[i] < p[j] < p[k];
    assert PartedAt(xs, p[i], p[j], p[k]);
  }

  lemma PartedIsBrokenAt(xs: seq<Value>, ys: seq<Value>, p: seq<nat>, i: int, j: int, k: int)
    requires SortedAs(xs, ys, p) && PartedAt(xs, i, j, k)
    ensures Broken(ys)
  {
    hide CompareValues, Level;
    LevelIs(xs[i], xs[j]);
    assert CompareValues(xs[j], xs[i], true) == Reverse(CompareValues(xs[i], xs[j], true));
    var a, b, d := PlaceOf(xs, ys, p, i), PlaceOf(xs, ys, p, j), PlaceOf(xs, ys, p, k);
    assert a < b < d;
    assert BrokenAt(ys, a, b, d);
  }

  ghost function PlaceOf(xs: seq<Value>, ys: seq<Value>, p: seq<nat>, k: nat): (i: nat)
    requires Rearranges(p, xs, ys) && k < |xs|
    ensures i < |ys| && p[i] == k && ys[i] == xs[k]
  {
    assert k in p;
    var i :| 0 <= i < |p| && p[i] == k;
    i
  }

  // ---------------------------------------------------------------- groups

  /** What a row is grouped by: the keys' values, null where one is an error. */
  ghost function KeyValue(env: Env, key: Expr, row: Row): Value {
    if env.eval(key, row).Some? then env.eval(key, row).value else Null
  }

  ghost predicate SameGroup(env: Env, keys: seq<Expr>, a: Row, b: Row) {
    forall m | 0 <= m < |keys| :: KeyValue(env, keys[m], a) == KeyValue(env, keys[m], b)
  }

  lemma GroupKeyMeans(env: Env, keys: seq<Expr>, a: Row, b: Row)
    ensures GroupKey(env, keys, a) == GroupKey(env, keys, b) <==> SameGroup(env, keys, a, b)
  {
    if GroupKey(env, keys, a) == GroupKey(env, keys, b) {
      forall m | 0 <= m < |keys| ensures KeyValue(env, keys[m], a) == KeyValue(env, keys[m], b) {
        assert GroupKey(env, keys, a)[m] == GroupKey(env, keys, b)[m];
      }
    }
  }

  /** The rows are shared out among `n` groups: `w` numbers them so that two rows are in the same group exactly if
      their keys have the same values, and the groups are numbered by first appearance. */
  ghost predicate SharedOut(env: Env, keys: seq<Expr>, rows: seq<Row>, w: seq<nat>, n: nat) {
    && |w| == |rows| && (forall i | 0 <= i < |w| :: w[i] < n)
    && (forall i, j | 0 <= i < |w| && 0 <= j < |w| :: SameGroup(env, keys, rows[i], rows[j]) <==> w[i] == w[j])
    && (forall k: nat | k < n :: Begins(w, k))
  }

  ghost predicate Begins(w: seq<nat>, k: nat) {
    exists i :: StartsAt(w, k, i)
  }

  /** Row `i` is the first of group `k`; those before it are in groups before. */
  ghost predicate StartsAt(w: seq<nat>, k: nat, i: int) {
    0 <= i < |w| && w[i] == k && forall j | 0 <= j < i :: w[j] < k
  }

  /** The rows of group `k`, in order. */
  ghost function Members(rows: seq<Row>, w: seq<nat>, k: nat): seq<Row>
    requires |w| == |rows|
  {
    if rows == [] then []
    else
      var n := |rows| - 1;
      Members(rows[..n], w[..n], k) + (if w[n] == k then [rows[n]] else [])
  }

  /** `groups` are those rows under their keys. */
  ghost predicate GroupsAre(env: Env, keys: seq<Expr>, rows: seq<Row>, w: seq<nat>, groups: seq<Group>)
    requires |w| == |rows| && forall i | 0 <= i < |w| :: w[i] < |groups|
  {
    && (forall k | 0 <= k < |groups| :: groups[k].rows == Members(rows, w, k))
    && (forall i | 0 <= i < |w| :: groups[w[i]].key == GroupKey(env, keys, rows[i]))
  }

  /** Grouping shares the rows out. */
  lemma {:induction false} GroupsShare(env: Env, keys: seq<Expr>, rows: seq<Row>) returns (w: seq<nat>)
    ensures SharedOut(env, keys, rows, w, |Groups(env, keys, rows)|) && GroupsAre(env, keys, rows, w, Groups(env, keys, rows))
    decreases |rows|
  {
    hide GroupKey, Groups, SameGroup, Members;
    w := [];
    if rows == [] {
      NoGroups(env, keys);
    } else {
      var n := |rows| - 1;
      var before, key := rows[..n], GroupKey(env, keys, rows[n]);
      assert rows == before + [rows[n]];
      var w' := GroupsShare(env, keys, before);
      var groups := Groups(env, keys, before);
      GroupsStep(env, keys, before, rows[n]);
      if k :| 0 <= k < |groups| && groups[k].key == key {
        w := w' + [k];
        ShareOne(env, keys, before, rows[n], w', groups, k);
      } else {
        w := w' + [|groups|];
        ShareNew(env, keys, before, rows[n], w', groups);
      }
    }
  }

  lemma MembersAppend(rows: seq<Row>, w: seq<nat>, row: Row, m: nat, k: nat)
    requires |w| == |rows|
    ensures Members(rows + [row], w + [m], k) == Members(rows, w, k) + (if m == k then [row] else [])
  {
    var all, w' := rows + [row], w + [m];
    assert all[..|all| - 1] == rows && w'[..|all| - 1] == w;
  }

  /** A row that joins group `k`, or starts it. */
  lemma Numbered(env: Env, keys: seq<Expr>, rows: seq<Row>, w: seq<nat>, n: nat, row: Row, k: nat, groups: seq<Group>)
    requires SharedOut(env, keys, rows, w, n) && k <= n == |groups| && GroupsAre(env, keys, rows, w, groups)
    requires if k < n then groups[k].key == GroupKey(env, keys, row)
             else forall j | 0 <= j < n :: groups[j].key != GroupKey(env, keys, row)
    ensures SharedOut(env, keys, rows + [row], w + [k], if k < n then n else n + 1)
  {
    hide GroupKey, Members, SameGroup;
    var all, w' := rows + [row], w + [k];
    forall i | 0 <= i < |w| ensures SameGroup(env, keys, rows[i], row) <==> w[i] == k {
      GroupKeyMeans(env, keys, rows[i], row);
      if w[i] != k && k < n {
        assert Begins(w, k);
        var j :| StartsAt(w, k, j);
        GroupKeyMeans(env, keys, rows[i], rows[j]);
      }
    }
    forall i, j | 0 <= i < |w'| && 0 <= j < |w'| ensures SameGroup(env, keys, all[i], all[j]) <==> w'[i] == w'[j] {
      GroupSwaps(env, keys, all[i], all[j]);
      if i == j {
        GroupSelf(env, keys, all[i]);
      }
    }
    forall m: nat | m < (if k < n then n else n + 1) ensures Begins(w', m) {
      if m < n {
        assert Begins(w, m);
        var i :| StartsAt(w, m, i);
        assert StartsAt(w', m, i);
      } else {
        assert StartsAt(w', m, |w|);
      }
    }
  }

  lemma GroupSelf(env: Env, keys: seq<Expr>, a: Row)
    ensures SameGroup(env, keys, a, a)
  {
  }

  lemma GroupSwaps(env: Env, keys: seq<Expr>, a: Row, b: Row)
    ensures SameGroup(env, keys, a, b) == SameGroup(env, keys, b, a)
  {
  }

  lemma ShareOne(env: Env, keys: seq<Expr>, rows: seq<Row>, row: Row, w: seq<nat>, groups: seq<Group>, k: nat)
    requires SharedOut(env, keys, rows, w, |groups|) && GroupsAre(env, keys, rows, w, groups)
    requires k < |groups| && groups[k].key == GroupKey(env, keys, row)
    ensures var after := groups[k := Group(groups[k].key, groups[k].rows + [row])];
            SharedOut(env, keys, rows + [row], w + [k], |after|) && GroupsAre(env, keys, rows + [row], w + [k], after)
  {
    hide GroupKey, Members, SameGroup;
    Numbered(env, keys, rows, w, |groups|, row, k, groups);
    forall m | 0 <= m < |groups|
      ensures groups[k := Group(groups[k].key, groups[k].rows + [row])][m].rows == Members(rows + [row], w + [k], m)
    {
      MembersAppend(rows, w, row, k, m);
    }
  }

  lemma ShareNew(env: Env, keys: seq<Expr>, rows: seq<Row>, row: Row, w: seq<nat>, groups: seq<Group>)
    requires SharedOut(env, keys, rows, w, |groups|) && GroupsAre(env, keys, rows, w, groups)
    requires forall k | 0 <= k < |groups| :: groups[k].key != GroupKey(env, keys, row)
    ensures var after := groups + [Group(GroupKey(env, keys, row), [row])];
            SharedOut(env, keys, rows + [row], w + [|groups|], |after|) && GroupsAre(env, keys, rows + [row], w + [|groups|], after)
  {
    hide GroupKey, Members, SameGroup;
    var n := |groups|;
    Numbered(env, keys, rows, w, n, row, n, groups);
    NoMembers(rows, w, n);
    forall m | 0 <= m < n + 1
      ensures (groups + [Group(GroupKey(env, keys, row), [row])])[m].rows == Members(rows + [row], w + [n], m)
    {
      MembersAppend(rows, w, row, n, m);
    }
  }

  lemma {:induction false} NoMembers(rows: seq<Row>, w: seq<nat>, k: nat)
    requires |w| == |rows| && forall i | 0 <= i < |w| :: w[i] != k
    ensures Members(rows, w, k) == []
    decreases |rows|
  {
    if rows != [] {
      NoMembers(rows[..|rows| - 1], w[..|rows| - 1], k);
    }
  }

  // ---------------------------------------------------------------- the plan operator

  /** The columns of an aggregation: the keys as written, then the aliases. */
  ghost function Columns(env: Env, keys: seq<Expr>, aggs: seq<Aggregation>): (r: seq<string>)
    ensures |r| == |keys| + |aggs| && (forall m | 0 <= m < |keys| :: r[m] == env.exprText(keys[m]))
    ensures forall m | 0 <= m < |aggs| :: r[|keys| + m] == aggs[m].alias
  {
    seq(|keys|, m requires 0 <= m < |keys| => env.exprText(keys[m])) + seq(|aggs|, m requires 0 <= m < |aggs| => aggs[m].alias)
  }

  /** `out` has a group's key values and its aggregates under their columns, and nothing else. */
  ghost predicate GroupRow(env: Env, keys: seq<Expr>, aggs: seq<Aggregation>, members: seq<Row>, out: Row) {
    exists values: seq<Value> :: GroupRowOf(env, keys, aggs, members, values, out)
  }

  ghost predicate GroupRowOf(env: Env, keys: seq<Expr>, aggs: seq<Aggregation>, members: seq<Row>, values: seq<Value>, out: Row) {
    && members != [] && |values| == |keys| + |aggs|
    && (forall m | 0 <= m < |keys| :: values[m] == KeyValue(env, keys[m], members[0]))
    && (forall m | 0 <= m < |aggs| :: ComputeAggregate(env, aggs[m], members) == Some(values[|keys| + m]))
    && Binds(Columns(env, keys, aggs), values, out)
  }

  ghost predicate AllAggregate(env: Env, aggs: seq<Aggregation>, members: seq<Row>) {
    forall m | 0 <= m < |aggs| :: ComputeAggregate(env, aggs[m], members).Some?
  }

  ghost function Texts(env: Env, keys: seq<Expr>): (r: seq<string>)
    ensures |r| == |keys| && forall m | 0 <= m < |keys| :: r[m] == env.exprText(keys[m])
  {
    seq(|keys|, m requires 0 <= m < |keys| => env.exprText(keys[m]))
  }

  ghost function Aliases(aggs: seq<Aggregation>): (r: seq<string>)
    ensures |r| == |aggs| && forall m | 0 <= m < |aggs| :: r[m] == aggs[m].alias
  {
    seq(|aggs|, m requires 0 <= m < |aggs| => aggs[m].alias)
  }

  lemma {:induction false} KeyRowBinds(env: Env, keys: seq<Expr>, key: seq<Value>, from: Row)
    requires |keys| == |key|
    ensures KeyRow(env, keys, key, from) == BindAll(Texts(env, keys), key, from)
    decreases |keys|
  {
    hide Texts;
    if keys != [] {
      assert Texts(env, keys)[1..] == Texts(env, keys[1..]);
      KeyRowBinds(env, keys[1..], key[1..], from[env.exprText(keys[0]) := key[0]]);
    }
  }

  lemma {:induction false} AggregatesBind(env: Env, aggs: seq<Aggregation>, members: seq<Row>, from: Row) returns (values: seq<Value>)
    ensures var out := AggregateInto(env, aggs, members, from);
            && (out.Some? <==> AllAggregate(env, aggs, members))
            && (out.Some? ==> && |values| == |aggs|
                              && (forall m | 0 <= m < |aggs| :: ComputeAggregate(env, aggs[m], members) == Some(values[m]))
                              && out.value == BindAll(Aliases(aggs), values, from))
    decreases |aggs|
  {
    hide ComputeAggregate, Aliases;
    values := [];
    if aggs != [] && ComputeAggregate(env, aggs[0], members).Some? {
      var v := ComputeAggregate(env, aggs[0], members).value;
      var rest := AggregatesBind(env, aggs[1..], members, from[aggs[0].alias := v]);
      values := [v] + rest;
      assert Aliases(aggs)[1..] == Aliases(aggs[1..]) && values[1..] == rest;
      assert forall m | 1 <= m < |aggs| :: aggs[m] == aggs[1..][m - 1];
    }
  }

  lemma OneGroupRow(env: Env, keys: seq<Expr>, aggs: seq<Aggregation>, group: Group)
    requires group.rows != [] && group.key == GroupKey(env, keys, group.rows[0])
    ensures var out := AggregateInto(env, aggs, group.rows, KeyRow(env, keys, group.key, map[]));
            (out.Some? <==> AllAggregate(env, aggs, group.rows)) && (out.Some? ==> GroupRow(env, keys, aggs, group.rows, out.value))
  {
    hide ComputeAggregate, KeyRow, AggregateInto, Binds, BindAll, AllAggregate, Texts, Aliases, Columns;
    KeyRowBinds(env, keys, group.key, map[]);
    var values := AggregatesBind(env, aggs, group.rows, KeyRow(env, keys, group.key, map[]));
    if AllAggregate(env, aggs, group.rows) {
      BindAppend(Texts(env, keys), group.key, Aliases(aggs), values, map[]);
      assert Columns(env, keys, aggs) == Texts(env, keys) + Aliases(aggs);
      BindAllMeans(Columns(env, keys, aggs), group.key + values);
      var out := AggregateInto(env, aggs, group.rows, KeyRow(env, keys, group.key, map[])).value;
      assert GroupRowOf(env, keys, aggs, group.rows, group.key + values, out);
    }
  }

  /** Every group is of its members, and has some. */
  ghost predicate Filled(env: Env, keys: seq<Expr>, groups: seq<Group>) {
    forall k | 0 <= k < |groups| :: groups[k].rows != [] && groups[k].key == GroupKey(env, keys, groups[k].rows[0])
  }

  lemma {:induction false} GroupRowsMean(env: Env, keys: seq<Expr>, aggs: seq<Aggregation>, groups: seq<Group>)
    requires Filled(env, keys, groups)
    ensures forall k | 0 <= k < |groups| :: |groups[k].key| == |keys|
    ensures var out := GroupRows(env, keys, aggs, groups);
            && (out.Some? <==> forall k | 0 <= k < |groups| :: AllAggregate(env, aggs, groups[k].rows))
            && (out.Some? ==> |out.value| == |groups|
                              && forall k | 0 <= k < |groups| :: GroupRow(env, keys, aggs, groups[k].rows, out.value[k]))
    decreases |groups|
  {
    hide AllAggregate, GroupRow, AggregateInto, KeyRow;
    if groups != [] {
      var rest := groups[1..];
      assert forall k | 1 <= k < |groups| :: groups[k] == rest[k - 1];
      GroupRowsMean(env, keys, aggs, rest);
      OneGroupRow(env, keys, aggs, groups[0]);
      if AllAggregate(env, aggs, groups[0].rows) && GroupRows(env, keys, aggs, rest).None? {
        var k :| 0 <= k < |rest| && !AllAggregate(env, aggs, rest[k].rows);
        assert groups[k + 1] == rest[k];
      }
    }
  }

  /** An aggregation gives one row for every group, in order of first appearance, with the keys' values and the
      aggregates of its rows; it fails exactly if its input does or some aggregate of some group has no value. */
  lemma AggregationMeans(input: Op, keys: seq<Expr>, aggs: seq<Aggregation>, g: Graph, env: Env) returns (w: seq<nat>, n: nat)
    requires ReadOnly(input)
    ensures AggregationOf(env, keys, aggs, Gather(Denote(input, g, env)), Gather(Denote(Aggregate(input, keys, aggs), g, env)), w, n)
  {
    hide AggregationOf, Gather, Breaking;
    w, n := AggregationStream(Aggregate(input, keys, aggs), env, Denote(input, g, env));
  }

  ghost predicate AggregationOf(env: Env, keys: seq<Expr>, aggs: seq<Aggregation>, rows: Option<seq<Row>>, out: Option<seq<Row>>, w: seq<nat>, n: nat) {
    && (rows.None? ==> out.None?)
    && (rows.Some? ==>
          && SharedOut(env, keys, rows.value, w, n)
          && (out.Some? <==> forall k: nat | k < n :: AllAggregate(env, aggs, Members(rows.value, w, k)))
          && (out.Some? ==> |out.value| == n
                            && forall k: nat | k < n :: GroupRow(env, keys, aggs, Members(rows.value, w, k), out.value[k])))
  }

  lemma AggregationStream(op: Op, env: Env, s: Stream) returns (w: seq<nat>, n: nat)
    requires op.Aggregate?
    ensures AggregationOf(env, op.groupingKeys, op.aggregations, Gather(s), Gather(Breaking(op, env, s, 0)), w, n)
  {
    hide SortPasses, GroupRows, Groups, GroupRow, AllAggregate, SharedOut, Members;
    w, n := [], 0;
    var rows := Gather(s);
    if rows.Some? {
      w := GroupsShare(env, op.groupingKeys, rows.value);
      var groups := Groups(env, op.groupingKeys, rows.value);
      n := |groups|;
      SharedFills(env, op.groupingKeys, rows.value, w, groups);
      GroupRowsMean(env, op.groupingKeys, op.aggregations, groups);
      var out := Breaks(op, env, rows.value);
      if out.Some? {
        assert Drop(out.value, 0) == out.value;
        GatherSeq(out.value);
      }
    }
  }

  lemma SharedFills(env: Env, keys: seq<Expr>, rows: seq<Row>, w: seq<nat>, groups: seq<Group>)
    requires SharedOut(env, keys, rows, w, |groups|) && GroupsAre(env, keys, rows, w, groups)
    ensures Filled(env, keys, groups)
  {
    hide GroupKey, Members, SameGroup;
    forall k: nat | k < |groups| ensures groups[k].rows != [] && groups[k].key == GroupKey(env, keys, groups[k].rows[0]) {
      assert Begins(w, k);
      var i :| StartsAt(w, k, i);
      FirstMember(rows, w, k, i);
    }
  }

  lemma {:induction false} FirstMember(rows: seq<Row>, w: seq<nat>, k: nat, i: nat)
    requires |w| == |rows| && StartsAt(w, k, i)
    ensures var ms := Members(rows, w, k); ms != [] && ms[0] == rows[i]
    decreases |rows|
  {
    var n := |rows| - 1;
    if i < n {
      assert StartsAt(w[..n], k, i);
      FirstMember(rows[..n], w[..n], k, i);
    } else {
      NoMembers(rows[..n], w[..n], k);
    }
  }
}
