/** Variable-length expansion (src/cypher/physical.rs:972-1042): walks without a repeated
    relationship, as the Uniqueness section of the openCypher 9 reference asks. */
module Trails {
  import opened Frames
  import opened Plan
  import opened Graphs

  /** Which edges an expansion follows. */
  datatype Look = Look(g: Graph, direction: Direction, types: seq<string>)

  function Adj(v: Look, n: nat): seq<(Edge, nat)> {
    Neighbours(v.g, n, v.direction, v.types)
  }

  /** A walk from the start, as the operator keeps it: its end node and its edges. */
  datatype Trail = Trail(node: nat, path: seq<Edge>)

  function Ids(path: seq<Edge>): set<nat> {
    set e | e in path :: e.id
  }

  /** `t` is a walk from `start` along followed edges, none of them twice. */
  ghost predicate IsTrail(v: Look, start: nat, t: Trail)
    decreases |t.path|
  {
    if t.path == [] then t.node == start
    else
      var n := |t.path| - 1;
      t.path[n].id !in Ids(t.path[..n])
      && exists prev :: IsTrail(v, start, Trail(prev, t.path[..n])) && (t.path[n], t.node) in Adj(v, prev)
  }

  predicate InBounds(k: nat, min: nat, max: Option<nat>) {
    min <= k && (max.Some? ==> k <= max.value)
  }

  // ---------------------------------------------------------------- level by level

  /** The one-edge extensions of `t` over the entries of `adj`. */
  function ExtendOver(t: Trail, adj: seq<(Edge, nat)>): seq<Trail> {
    if adj == [] then []
    else
      var rest := ExtendOver(t, adj[1..]);
      if adj[0].0.id in Ids(t.path) then rest else [Trail(adj[0].1, t.path + [adj[0].0])] + rest
  }

  function ExtendAll(v: Look, level: seq<Trail>): seq<Trail> {
    if level == [] then [] else ExtendOver(level[0], Adj(v, level[0].node)) + ExtendAll(v, level[1..])
  }

  /** Every edge id of the graph. */
  function EdgeIds(g: Graph): set<nat> {
    (set n, i | n in g.outgoing && 0 <= i < |g.outgoing[n]| :: g.outgoing[n][i].id)
    + (set n, i | n in g.incoming && 0 <= i < |g.incoming[n]| :: g.incoming[n][i].id)
  }

  /** The trails of a level have `k` edges, all different. */
  ghost predicate LevelOk(v: Look, level: seq<Trail>, k: nat) {
    forall t | t in level :: |t.path| == k && |Ids(t.path)| == k && Ids(t.path) <= EdgeIds(v.g)
  }

  /** From level `k` on, the trails within the bounds, in order of length. */
  function Levels(v: Look, level: seq<Trail>, k: nat, min: nat, max: Option<nat>): seq<Trail>
    requires LevelOk(v, level, k)
    decreases |EdgeIds(v.g)| + 1 - k
  {
    if level == [] then []
    else
      ExtendAllOk(v, level, k);
      LevelBound(v, level, k);
      (if k >= min then level else [])
      + (if max.Some? && k >= max.value then [] else Levels(v, ExtendAll(v, level), k + 1, min, max))
  }

  function TrailsFrom(v: Look, start: nat, min: nat, max: Option<nat>): seq<Trail> {
    Levels(v, [Trail(start, [])], 0, min, max)
  }

  lemma AdjInUniverse(v: Look, n: nat)
    ensures forall x | x in Adj(v, n) :: x.0.id in EdgeIds(v.g)
  {
    ScanFrom(OutEdges(v.g, n), v.types, true);
    ScanFrom(InEdges(v.g, n), v.types, false);
    forall x | x in Adj(v, n) ensures x.0.id in EdgeIds(v.g) {
      var out, inc := OutEdges(v.g, n), InEdges(v.g, n);
      if x.0 in out {
        var i :| 0 <= i < |out| && out[i] == x.0;
        assert v.g.outgoing[n][i].id in EdgeIds(v.g);
      } else {
        var i :| 0 <= i < |inc| && inc[i] == x.0;
        assert v.g.incoming[n][i].id in EdgeIds(v.g);
      }
    }
  }

  /** `u` is `t` and one more edge, a new one. */
  predicate Extends(t: Trail, u: Trail) {
    u.path != [] && u.path[..|u.path| - 1] == t.path && u.path[|u.path| - 1].id !in Ids(t.path)
  }

  lemma IdsAppend(path: seq<Edge>, e: Edge)
    ensures Ids(path + [e]) == Ids(path) + {e.id}
  {
    assert e in path + [e];
    assert forall x | x in path :: x in path + [e];
  }

  lemma {:induction false} ExtendOverIs(t: Trail, adj: seq<(Edge, nat)>)
    ensures forall u: Trail :: u in ExtendOver(t, adj) <==> Extends(t, u) && (u.path[|u.path| - 1], u.node) in adj
  {
    if adj != [] {
      ExtendOverIs(t, adj[1..]);
      assert adj == [adj[0]] + adj[1..];
      var w := Trail(adj[0].1, t.path + [adj[0].0]);
      assert w.path[..|w.path| - 1] == t.path;
      forall u: Trail | Extends(t, u) && (u.path[|u.path| - 1], u.node) == adj[0]
        ensures u == w
      {
        assert u.path == u.path[..|u.path| - 1] + [u.path[|u.path| - 1]];
      }
    }
  }

  lemma {:induction false} ExtendAllIs(v: Look, level: seq<Trail>)
    ensures forall u: Trail :: u in ExtendAll(v, level) <==>
              exists t: Trail :: t in level && u in ExtendOver(t, Adj(v, t.node))
  {
    if level != [] {
      ExtendAllIs(v, level[1..]);
      assert level == [level[0]] + level[1..];
    }
  }

  lemma ExtendOneOk(v: Look, t: Trail, u: Trail, k: nat)
    requires |t.path| == k && |Ids(t.path)| == k && Ids(t.path) <= EdgeIds(v.g) && u in ExtendOver(t, Adj(v, t.node))
    ensures |u.path| == k + 1 && |Ids(u.path)| == k + 1 && Ids(u.path) <= EdgeIds(v.g)
  {
    hide Ids, EdgeIds, Adj;
    ExtendOverIs(t, Adj(v, t.node));
    AdjInUniverse(v, t.node);
    var e := u.path[|u.path| - 1];
    assert u.path == t.path + [e];
    IdsAppend(t.path, e);
  }

  lemma ExtendAllOk(v: Look, level: seq<Trail>, k: nat)
    requires LevelOk(v, level, k)
    ensures LevelOk(v, ExtendAll(v, level), k + 1)
  {
    hide Ids, EdgeIds, Adj, ExtendAll, ExtendOver;
    ExtendAllIs(v, level);
    forall u | u in ExtendAll(v, level)
      ensures |u.path| == k + 1 && |Ids(u.path)| == k + 1 && Ids(u.path) <= EdgeIds(v.g)
    {
      var t :| t in level && u in ExtendOver(t, Adj(v, t.node));
      ExtendOneOk(v, t, u, k);
    }
  }

  /** Distinct edges run out. */
  lemma LevelBound(v: Look, level: seq<Trail>, k: nat)
    requires LevelOk(v, level, k) && level != []
    ensures k <= |EdgeIds(v.g)|
  {
    var s := Ids(level[0].path);
    assert level[0] in level;
    assert EdgeIds(v.g) == s + (EdgeIds(v.g) - s);
  }

  // ---------------------------------------------------------------- exactly the trails

  /** `level` holds exactly the trails from `start` with `k` edges. */
  ghost predicate LevelExact(v: Look, start: nat, level: seq<Trail>, k: nat) {
    forall t :: t in level <==> IsTrail(v, start, t) && |t.path| == k
  }

  lemma LevelExactStep(v: Look, start: nat, level: seq<Trail>, k: nat)
    requires LevelExact(v, start, level, k)
    ensures LevelExact(v, start, ExtendAll(v, level), k + 1)
  {
    ExtendAllIs(v, level);
    forall u
      ensures u in ExtendAll(v, level) <==> IsTrail(v, start, u) && |u.path| == k + 1
    {
      if u in ExtendAll(v, level) {
        var t :| t in level && u in ExtendOver(t, Adj(v, t.node));
        ExtendOverIs(t, Adj(v, t.node));
        assert IsTrail(v, start, Trail(t.node, u.path[..k]));
      } else if IsTrail(v, start, u) && |u.path| == k + 1 {
        var prev :| IsTrail(v, start, Trail(prev, u.path[..k])) && (u.path[k], u.node) in Adj(v, prev);
        var t := Trail(prev, u.path[..k]);
        assert t in level;
        ExtendOverIs(t, Adj(v, t.node));
      }
    }
  }

  lemma TrailBefore(v: Look, start: nat, t: Trail) returns (prev: nat)
    requires IsTrail(v, start, t) && t.path != []
    ensures var n := |t.path| - 1; IsTrail(v, start, Trail(prev, t.path[..n])) && (t.path[n], t.node) in Adj(v, prev)
  {
    hide Ids, Adj;
    var n := |t.path| - 1;
    prev :| IsTrail(v, start, Trail(prev, t.path[..n])) && (t.path[n], t.node) in Adj(v, prev);
  }

  /** A trail's prefixes are trails. */
  lemma {:induction false} TrailPrefix(v: Look, start: nat, t: Trail, k: nat) returns (u: Trail)
    requires IsTrail(v, start, t) && k <= |t.path|
    ensures IsTrail(v, start, u) && u.path == t.path[..k]
    decreases |t.path|
  {
    hide IsTrail;
    if k == |t.path| {
      u := t;
    } else {
      var n := |t.path| - 1;
      var prev := TrailBefore(v, start, t);
      u := TrailPrefix(v, start, Trail(prev, t.path[..n]), k);
      assert t.path[..n][..k] == t.path[..k];
    }
  }

  /** Level `k` is emitted if it is long enough, then the longer ones follow unless the bound is reached. */
  lemma LevelsUnfold(v: Look, level: seq<Trail>, k: nat, min: nat, max: Option<nat>)
    requires LevelOk(v, level, k) && level != []
    ensures k <= |EdgeIds(v.g)| && LevelOk(v, ExtendAll(v, level), k + 1)
    ensures Levels(v, level, k, min, max) ==
            (if k >= min then level else [])
            + (if max.Some? && k >= max.value then [] else Levels(v, ExtendAll(v, level), k + 1, min, max))
  {
    ExtendAllOk(v, level, k);
    LevelBound(v, level, k);
  }

  lemma {:induction false} LevelsExact(v: Look, start: nat, level: seq<Trail>, k: nat, min: nat, max: Option<nat>)
    requires LevelOk(v, level, k) && LevelExact(v, start, level, k) && (max.Some? ==> k <= max.value)
    ensures forall t :: t in Levels(v, level, k, min, max) <==>
              IsTrail(v, start, t) && k <= |t.path| && InBounds(|t.path|, min, max)
    decreases |EdgeIds(v.g)| + 1 - k
  {
    hide IsTrail, LevelOk, ExtendAll;
    if level == [] {
      forall t ensures !(IsTrail(v, start, t) && k <= |t.path|) {
        if IsTrail(v, start, t) && k <= |t.path| {
          var u := TrailPrefix(v, start, t, k);
        }
      }
    } else {
      LevelsUnfold(v, level, k, min, max);
      LevelExactStep(v, start, level, k);
      if !(max.Some? && k >= max.value) {
        LevelsExact(v, start, ExtendAll(v, level), k + 1, min, max);
      }
    }
  }

  /** The result holds exactly the trails within the hop bounds. */
  lemma TrailsExact(v: Look, start: nat, min: nat, max: Option<nat>)
    ensures forall t :: t in TrailsFrom(v, start, min, max) <==> IsTrail(v, start, t) && InBounds(|t.path|, min, max)
  {
    var level := [Trail(start, [])];
    assert LevelExact(v, start, level, 0);
    LevelsExact(v, start, level, 0, min, max);
  }

  // ---------------------------------------------------------------- in order, each once

  ghost predicate ByLength(ts: seq<Trail>) {
    forall i, j | 0 <= i < j < |ts| :: |ts[i].path| <= |ts[j].path|
  }

  ghost predicate PathsDistinct(ts: seq<Trail>) {
    forall i, j | 0 <= i < j < |ts| :: ts[i].path != ts[j].path
  }

  /** No node has the same edge twice among its followed edges. */
  ghost predicate AdjDistinct(v: Look) {
    forall n: nat :: EntriesDistinct(Adj(v, n))
  }

  lemma {:induction false} ExtendOverDistinct(t: Trail, adj: seq<(Edge, nat)>)
    requires EntriesDistinct(adj)
    ensures PathsDistinct(ExtendOver(t, adj))
  {
    if adj != [] {
      var rest := ExtendOver(t, adj[1..]);
      assert EntriesDistinct(adj[1..]);
      ExtendOverDistinct(t, adj[1..]);
      ExtendOverIs(t, adj[1..]);
      forall j | 0 <= j < |rest| ensures rest[j].path != t.path + [adj[0].0] {
        var e := rest[j].path[|rest[j].path| - 1];
        assert rest[j] in rest;
        assert (e, rest[j].node) in adj[1..];
        assert e.id != adj[0].0.id;
        if rest[j].path == t.path + [adj[0].0] {
          assert false;
        }
      }
    }
  }

  lemma {:induction false} ExtendAllDistinct(v: Look, level: seq<Trail>)
    requires PathsDistinct(level) && AdjDistinct(v)
    ensures PathsDistinct(ExtendAll(v, level))
  {
    if level != [] {
      var t, a, b := level[0], ExtendOver(level[0], Adj(v, level[0].node)), ExtendAll(v, level[1..]);
      ExtendAllDistinct(v, level[1..]);
      ExtendOverDistinct(t, Adj(v, t.node));
      ExtendOverIs(t, Adj(v, t.node));
      ExtendAllIs(v, level[1..]);
      forall i, j | 0 <= i < |a| && 0 <= j < |b| ensures a[i].path != b[j].path {
        assert a[i] in a && b[j] in b;
        var u :| u in level[1..] && b[j] in ExtendOver(u, Adj(v, u.node));
        ExtendOverIs(u, Adj(v, u.node));
        assert u.path != t.path;
      }
    }
  }

  lemma LevelLengths(v: Look, level: seq<Trail>, k: nat)
    requires LevelOk(v, level, k)
    ensures forall i | 0 <= i < |level| :: |level[i].path| == k
  {
    assert forall i | 0 <= i < |level| :: level[i] in level;
  }

  lemma {:induction false} LevelsOrdered(v: Look, level: seq<Trail>, k: nat, min: nat, max: Option<nat>)
    requires LevelOk(v, level, k)
    ensures ByLength(Levels(v, level, k, min, max))
    ensures forall i | 0 <= i < |Levels(v, level, k, min, max)| :: k <= |Levels(v, level, k, min, max)[i].path|
    decreases |EdgeIds(v.g)| + 1 - k
  {
    hide ExtendAll, LevelOk, EdgeIds;
    if level != [] {
      LevelsUnfold(v, level, k, min, max);
      LevelLengths(v, level, k);
      if !(max.Some? && k >= max.value) {
        LevelsOrdered(v, ExtendAll(v, level), k + 1, min, max);
      }
    }
  }

  lemma {:induction false} LevelsDistinct(v: Look, level: seq<Trail>, k: nat, min: nat, max: Option<nat>)
    requires LevelOk(v, level, k) && PathsDistinct(level) && AdjDistinct(v)
    ensures PathsDistinct(Levels(v, level, k, min, max))
    decreases |EdgeIds(v.g)| + 1 - k
  {
    hide ExtendAll, AdjDistinct, LevelOk, EdgeIds;
    if level != [] {
      LevelsUnfold(v, level, k, min, max);
      if !(max.Some? && k >= max.value) {
        var next := ExtendAll(v, level);
        ExtendAllDistinct(v, level);
        LevelsDistinct(v, next, k + 1, min, max);
        LevelsOrdered(v, next, k + 1, min, max);
        LevelLengths(v, level, k);
      }
    }
  }

  /** The result is in order of length; and no path comes twice, unless some node has an edge twice. */
  lemma TrailsOrderedOnce(v: Look, start: nat, min: nat, max: Option<nat>)
    ensures ByLength(TrailsFrom(v, start, min, max))
    ensures AdjDistinct(v) ==> PathsDistinct(TrailsFrom(v, start, min, max))
  {
    LevelsOrdered(v, [Trail(start, [])], 0, min, max);
    if AdjDistinct(v) {
      LevelsDistinct(v, [Trail(start, [])], 0, min, max);
    }
  }

  /** One-directional expansion never has an edge twice at a node. */
  lemma OneWayDistinct(v: Look)
    requires WellFormed(v.g) && v.direction != Both
    ensures AdjDistinct(v)
  {
    forall n: nat ensures EntriesDistinct(Adj(v, n)) {
      assert DistinctIds(OutEdges(v.g, n)) && DistinctIds(InEdges(v.g, n));
      ScanDistinct(OutEdges(v.g, n), v.types, true);
      ScanDistinct(InEdges(v.g, n), v.types, false);
    }
  }

  /** Some node has a followed edge that comes back to it. */
  ghost predicate HasSelfLoop(v: Look) {
    exists n: nat, e :: e in OutEdges(v.g, n) && e.target == n && TypeMatches(v.types, e)
  }

  /** Following both directions, an edge is twice at a node exactly if it is a self-loop. */
  lemma BothDistinctIff(v: Look)
    requires WellFormed(v.g) && v.direction == Both
    ensures AdjDistinct(v) <==> !HasSelfLoop(v)
  {
    if HasSelfLoop(v) {
      var n: nat, e :| e in OutEdges(v.g, n) && e.target == n && TypeMatches(v.types, e);
      LoopTwiceAt(v, n, e);
    } else {
      forall n: nat ensures EntriesDistinct(Adj(v, n)) {
        NoLoopOnceAt(v, n);
      }
    }
  }

  /** An outgoing edge of `n` is also among the incoming ones exactly if it is a self-loop. */
  lemma LoopBothWays(g: Graph, n: nat, e: Edge)
    requires WellFormed(g) && e in OutEdges(g, n)
    ensures e.source == n && HasOut(g, e) && (e in InEdges(g, n) <==> e.target == n)
  {
    assert HasOut(g, e) && HasIn(g, e);
  }

  lemma LoopTwiceAt(v: Look, n: nat, e: Edge)
    requires WellFormed(v.g) && v.direction == Both
    requires e in OutEdges(v.g, n) && e.target == n && TypeMatches(v.types, e)
    ensures !EntriesDistinct(Adj(v, n))
  {
    var out, inc := Scan(OutEdges(v.g, n), v.types, true), Scan(InEdges(v.g, n), v.types, false);
    LoopBothWays(v.g, n, e);
    ScanFrom(OutEdges(v.g, n), v.types, true);
    ScanFrom(InEdges(v.g, n), v.types, false);
    var i :| 0 <= i < |out| && out[i] == (e, n);
    var j :| 0 <= j < |inc| && inc[j] == (e, n);
    assert Adj(v, n)[i].0.id == Adj(v, n)[|out| + j].0.id;
  }

  lemma NoLoopOnceAt(v: Look, n: nat)
    requires WellFormed(v.g) && v.direction == Both && !HasSelfLoop(v)
    ensures EntriesDistinct(Adj(v, n))
  {
    var out, inc := Scan(OutEdges(v.g, n), v.types, true), Scan(InEdges(v.g, n), v.types, false);
    NoneTwice(v.g, n);
    ScanDistinct(OutEdges(v.g, n), v.types, true);
    ScanDistinct(InEdges(v.g, n), v.types, false);
    ScanFrom(OutEdges(v.g, n), v.types, true);
    ScanFrom(InEdges(v.g, n), v.types, false);
    forall i, j | 0 <= i < |out| && 0 <= j < |inc| ensures out[i].0.id != inc[j].0.id {
      var e, f := out[i].0, inc[j].0;
      assert out[i] in out && inc[j] in inc;
      SameIdLoops(v.g, n, e, f);
    }
  }

  lemma NoneTwice(g: Graph, n: nat)
    requires WellFormed(g)
    ensures DistinctIds(OutEdges(g, n)) && DistinctIds(InEdges(g, n))
  {
  }

  lemma SameIdLoops(g: Graph, n: nat, e: Edge, f: Edge)
    requires WellFormed(g) && e in OutEdges(g, n) && f in InEdges(g, n)
    ensures e.id == f.id ==> e == f && e.target == n
  {
    assert HasIn(g, f) && HasOut(g, f) && HasOut(g, e);
  }

  /** On a well-formed graph, followed in both directions, no path comes twice from any start exactly
      if no followed edge is a self-loop; the repetition shows at one hop already. */
  lemma BothOnceIff(v: Look, min: nat, max: Option<nat>)
    requires WellFormed(v.g) && v.direction == Both && InBounds(1, min, max)
    ensures (forall start: nat :: PathsDistinct(TrailsFrom(v, start, min, max))) <==> !HasSelfLoop(v)
    ensures !HasSelfLoop(v) ==> forall start: nat, m: nat, n: Option<nat> :: PathsDistinct(TrailsFrom(v, start, m, n))
  {
    hide WellFormed, PathsDistinct;
    BothDistinctIff(v);
    if HasSelfLoop(v) {
      var n: nat, e :| e in OutEdges(v.g, n) && e.target == n && TypeMatches(v.types, e);
      LoopBothWays(v.g, n, e);
      SelfLoopTwice(v, n, e, min, max);
    } else {
      forall start: nat, m: nat, n: Option<nat> ensures PathsDistinct(TrailsFrom(v, start, m, n)) {
        TrailsOrderedOnce(v, start, m, n);
      }
    }
  }

  /** Following both directions, a walk over a self-loop of its start comes twice. */
  lemma SelfLoopTwice(v: Look, start: nat, e: Edge, min: nat, max: Option<nat>)
    requires WellFormed(v.g) && v.direction == Both && TypeMatches(v.types, e)
    requires e in OutEdges(v.g, start) && e in InEdges(v.g, start) && InBounds(1, min, max)
    ensures !PathsDistinct(TrailsFrom(v, start, min, max))
  {
    hide WellFormed, TrailsFrom, Adj;
    var i, j := LoopInLevel(v, start, e);
    var level := ExtendOver(Trail(start, []), Adj(v, start));
    SecondLevelShown(v, start, level, min, max);
    var r, k := TrailsFrom(v, start, min, max), 1 - min;
    assert r[k..][i] == level[i] && r[k..][j] == level[j];
    assert r[k + i].path == r[k + j].path;
  }

  /** The walk over the loop is twice among the one-edge walks: as an outgoing and as an incoming edge. */
  lemma LoopInLevel(v: Look, start: nat, e: Edge) returns (i: nat, j: nat)
    requires WellFormed(v.g) && v.direction == Both && TypeMatches(v.types, e)
    requires e in OutEdges(v.g, start) && e in InEdges(v.g, start)
    ensures var level := ExtendOver(Trail(start, []), Adj(v, start));
            i < j < |level| && level[i] == level[j] == Trail(start, [e])
  {
    hide WellFormed, Scan;
    var out, inc := Scan(OutEdges(v.g, start), v.types, true), Scan(InEdges(v.g, start), v.types, false);
    var t, u := Trail(start, []), Trail(start, [e]);
    var a, b := ExtendOver(t, out), ExtendOver(t, inc);
    assert u in a && u in b by {
      ScanFrom(OutEdges(v.g, start), v.types, true);
      ScanFrom(InEdges(v.g, start), v.types, false);
      ScanEnds(v.g, start, e);
      ExtendOverIs(t, out);
      ExtendOverIs(t, inc);
      assert u.path[..0] == t.path;
    }
    ExtendOverAppend(t, out, inc);
    var m, n :| 0 <= m < |a| && a[m] == u && 0 <= n < |b| && b[n] == u;
    i, j := m, |a| + n;
  }

  lemma ScanEnds(g: Graph, n: nat, e: Edge)
    requires WellFormed(g) && e in OutEdges(g, n) && e in InEdges(g, n)
    ensures e.source == n && e.target == n
  {
    var i :| 0 <= i < |g.outgoing[n]| && g.outgoing[n][i] == e;
    var j :| 0 <= j < |g.incoming[n]| && g.incoming[n][j] == e;
  }

  /** The one-edge trails come first, after the empty one if that is within the bounds. */
  lemma SecondLevelShown(v: Look, start: nat, level: seq<Trail>, min: nat, max: Option<nat>)
    requires level == ExtendOver(Trail(start, []), Adj(v, start)) && level != [] && InBounds(1, min, max)
    ensures var r := TrailsFrom(v, start, min, max); 1 - min <= |r| && level <= r[1 - min..]
  {
    var t := Trail(start, []);
    assert ExtendAll(v, [t]) == level;
    LevelsUnfold(v, [t], 0, min, max);
    LevelsUnfold(v, level, 1, min, max);
  }

  lemma {:induction false} ExtendOverAppend(t: Trail, xs: seq<(Edge, nat)>, ys: seq<(Edge, nat)>)
    ensures ExtendOver(t, xs + ys) == ExtendOver(t, xs) + ExtendOver(t, ys)
  {
    if xs == [] {
      assert xs + ys == ys;
    } else {
      assert (xs + ys)[1..] == xs[1..] + ys;
      ExtendOverAppend(t, xs[1..], ys);
    }
  }

  // ---------------------------------------------------------------- the queue

  /** A queue entry: the walk so far, and the ids of its edges. */
  datatype Entry = Entry(node: nat, path: seq<Edge>, visited: set<nat>)

  function EntryOf(t: Trail): Entry {
    Entry(t.node, t.path, Ids(t.path))
  }

  function Entries(ts: seq<Trail>): seq<Entry> {
    seq(|ts|, i requires 0 <= i < |ts| => EntryOf(ts[i]))
  }

  /** What is still to come when `a` is left of level `k` and `b` is level `k + 1` so far. */
  ghost function ToCome(v: Look, a: seq<Trail>, b: seq<Trail>, k: nat, min: nat, max: Option<nat>): seq<Trail>
    requires LevelOk(v, a, k) && LevelOk(v, b, k + 1)
  {
    ExtendAllOk(v, a, k);
    (if k >= min then a else [])
    + (if max.Some? && k >= max.value then [] else Levels(v, b + ExtendAll(v, a), k + 1, min, max))
  }

  lemma LevelOkParts(v: Look, a: seq<Trail>, b: seq<Trail>, k: nat)
    ensures LevelOk(v, a + b, k) <==> LevelOk(v, a, k) && LevelOk(v, b, k)
    ensures LevelOk(v, [], k)
  {
    assert forall t: Trail :: t in a + b <==> t in a || t in b;
  }

  lemma Begins(v: Look, start: nat, min: nat, max: Option<nat>)
    ensures var a := [Trail(start, [])];
            LevelOk(v, a, 0) && LevelOk(v, [], 1) && ToCome(v, a, [], 0, min, max) == TrailsFrom(v, start, min, max)
  {
    var a := [Trail(start, [])];
    LevelsUnfold(v, a, 0, min, max);
    assert [] + ExtendAll(v, a) == ExtendAll(v, a);
  }

  lemma BeginsQueue(start: nat)
    ensures [Entry(start, [], {})] == Entries([Trail(start, [])] + [])
  {
    assert EntryOf(Trail(start, [])) == Entry(start, [], {});
  }

  lemma NothingLeft(v: Look, k: nat, min: nat, max: Option<nat>)
    ensures LevelOk(v, [], k) && LevelOk(v, [], k + 1) && ToCome(v, [], [], k, min, max) == []
  {
    assert [] + ExtendAll(v, []) == [];
  }

  lemma NoExtensions(v: Look)
    ensures ExtendAll(v, []) == []
  {
  }

  lemma EntriesFirst(a: seq<Trail>, b: seq<Trail>)
    requires a != []
    ensures Entries(a + b) != [] && Entries(a + b)[0] == EntryOf(a[0]) && Entries(a + b)[1..] == Entries(a[1..] + b)
  {
  }

  lemma EntriesLast(a: seq<Trail>, b: seq<Trail>, c: seq<Trail>)
    ensures Entries(a + b) + Entries(c) == Entries(a + (b + c))
  {
  }

  lemma Emitted(results: seq<Trail>, t: Trail, long: bool, left: seq<Trail>)
    ensures results + ((if long then [t] else []) + left) == (if long then results + [t] else results) + left
  {
  }

  lemma EntriesNone(a: seq<Trail>, b: seq<Trail>)
    ensures Entries(a + b) == [] <==> a == [] && b == []
    ensures a == [] ==> Entries(a + b) == Entries(b + [])
  {
    assert a == [] ==> a + b == b + [];
  }

  /** Level `k` is used up: level `k + 1` takes its place. */
  lemma NextLevel(v: Look, b: seq<Trail>, k: nat, min: nat, max: Option<nat>)
    requires LevelOk(v, b, k + 1) && b != [] && !(max.Some? && k >= max.value)
    ensures k + 1 <= |EdgeIds(v.g)| && LevelOk(v, [], k) && LevelOk(v, [], k + 2)
    ensures ToCome(v, [], b, k, min, max) == ToCome(v, b, [], k + 1, min, max)
  {
    hide LevelOk, EdgeIds, Levels, ExtendAll;
    LevelOkParts(v, [], [], k);
    LevelOkParts(v, [], [], k + 2);
    LevelsUnfold(v, b, k + 1, min, max);
    NoExtensions(v);
    assert b + [] == b;
    assert [] + ExtendAll(v, b) == ExtendAll(v, b);
  }

  /** The first trail of level `k` is emitted if it is long enough, and extended unless the bound is reached. */
  lemma TakeOne(v: Look, a: seq<Trail>, b: seq<Trail>, k: nat, min: nat, max: Option<nat>)
    requires LevelOk(v, a, k) && LevelOk(v, b, k + 1) && a != []
    ensures k <= |EdgeIds(v.g)| && |a[0].path| == k && LevelOk(v, a[1..], k)
    ensures var b' := if max.Some? && k >= max.value then b else b + ExtendOver(a[0], Adj(v, a[0].node));
            LevelOk(v, b', k + 1)
            && ToCome(v, a, b, k, min, max) == (if k >= min then [a[0]] else []) + ToCome(v, a[1..], b', k, min, max)
  {
    hide LevelOk, EdgeIds, Levels, ExtendOver;
    LevelBound(v, a, k);
    LevelLengths(v, a, k);
    ExtendAllOk(v, a, k);
    var x, y := ExtendOver(a[0], Adj(v, a[0].node)), ExtendAll(v, a[1..]);
    assert a == [a[0]] + a[1..];
    LevelOkParts(v, [a[0]], a[1..], k);
    LevelOkParts(v, x, y, k + 1);
    LevelOkParts(v, b, x, k + 1);
    assert b + ExtendAll(v, a) == (b + x) + y;
  }

  /** The inner loop of `bfs`: queue every extension of `entry` by an edge it has not visited. */
  method QueueExtensions(v: Look, queue: seq<Entry>, ghost t: Trail, entry: Entry, adj: seq<(Edge, nat)>) returns (q: seq<Entry>)
    requires entry == EntryOf(t)
    ensures q == queue + Entries(ExtendOver(t, adj))
  {
    q := queue;
    for i := 0 to |adj|
      invariant q == queue + Entries(ExtendOver(t, adj[..i]))
    {
      assert adj[..i + 1] == adj[..i] + [adj[i]];
      ExtendOverAppend(t, adj[..i], [adj[i]]);
      IdsAppend(entry.path, adj[i].0);
      if adj[i].0.id !in entry.visited {
        q := q + [Entry(adj[i].1, entry.path + [adj[i].0], entry.visited + {adj[i].0.id})];
      }
    }
    assert adj[..|adj|] == adj;
  }

  /** `bfs` ends, bound or no bound, with the trails level by level. */
  method Bfs(v: Look, start: nat, min: nat, max: Option<nat>) returns (results: seq<Trail>)
    ensures results == TrailsFrom(v, start, min, max)
  {
    hide LevelOk, Levels, EdgeIds, Adj, ExtendOver, ExtendAll, ToCome, Entries, Ids;
    var queue := [Entry(start, [], {})];
    results := [];
    ghost var a, b, k: nat := [Trail(start, [])], [], 0;
    Begins(v, start, min, max);
    BeginsQueue(start);
    while queue != []
      invariant LevelOk(v, a, k) && LevelOk(v, b, k + 1)
      invariant queue == Entries(a + b)
      invariant max.Some? && k >= max.value ==> b == []
      invariant results + ToCome(v, a, b, k, min, max) == TrailsFrom(v, start, min, max)
      decreases |EdgeIds(v.g)| + 1 - k, |a|
    {
      EntriesNone(a, b);
      if a == [] {
        NextLevel(v, b, k, min, max);
        a, b, k := b, [], k + 1;
      }
      TakeOne(v, a, b, k, min, max);
      EntriesFirst(a, b);
      var entry := queue[0];
      queue := queue[1..];
      ghost var t := a[0];
      ghost var done := max.Some? && k >= max.value;
      ghost var b' := if done then b else b + ExtendOver(t, Adj(v, t.node));
      Emitted(results, t, k >= min, ToCome(v, a[1..], b', k, min, max));
      a := a[1..];
      if max.Some? && |entry.path| >= max.value {
        if |entry.path| >= min {
          results := results + [Trail(entry.node, entry.path)];
        }
      } else {
        if |entry.path| >= min {
          results := results + [Trail(entry.node, entry.path)];
        }
        queue := QueueExtensions(v, queue, t, entry, Adj(v, entry.node));
        EntriesLast(a, b, ExtendOver(t, Adj(v, t.node)));
        b := b';
      }
    }
    EntriesNone(a, b);
    NothingLeft(v, k, min, max);
  }
}
