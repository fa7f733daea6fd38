/** Binding names one after the other: what is bound in the end. */
module Bindings {
  import opened Frames
  import opened Graphs

  function BindAll(names: seq<string>, values: seq<Value>, from: Row): Row
    requires |names| == |values|
  {
    if names == [] then from else BindAll(names[1..], values[1..], from[names[0] := values[0]])
  }

  /** No later name is the same as the `i`-th. */
  ghost predicate LastNamed(names: seq<string>, i: nat)
    requires i < |names|
  {
    forall j | i < j < |names| :: names[j] != names[i]
  }

  /** `out` binds those names and no others, each to its last value. */
  ghost predicate Binds(names: seq<string>, values: seq<Value>, out: Row)
    requires |names| == |values|
  {
    && (forall x :: x in out <==> x in names)
    && (forall i | 0 <= i < |names| && LastNamed(names, i) :: names[i] in out && out[names[i]] == values[i])
  }

  lemma BindAllMeans(names: seq<string>, values: seq<Value>)
    requires |names| == |values|
    ensures Binds(names, values, BindAll(names, values, map[]))
  {
    BindKeys(names, values, map[]);
    forall i | 0 <= i < |names| && LastNamed(names, i)
      ensures var out := BindAll(names, values, map[]); names[i] in out && out[names[i]] == values[i]
    {
      BindLast(names, values, map[], i);
    }
  }

  lemma {:induction false} BindKeys(names: seq<string>, values: seq<Value>, from: Row)
    requires |names| == |values|
    ensures var out := BindAll(names, values, from);
            && (forall x :: x in out <==> x in from || x in names)
            && (forall x | x in from && x !in names :: out[x] == from[x])
    decreases |names|
  {
    if names != [] {
      var from', out := from[names[0] := values[0]], BindAll(names, values, from);
      BindKeys(names[1..], values[1..], from');
      assert names == [names[0]] + names[1..];
      forall x ensures x in out <==> x in from || x in names {
        assert x in out <==> x in from' || x in names[1..];
      }
      forall x | x in from && x !in names ensures out[x] == from[x] {
        assert x in from' && x !in names[1..];
      }
    }
  }

  lemma {:induction false} BindLast(names: seq<string>, values: seq<Value>, from: Row, i: nat)
    requires |names| == |values| && i < |names| && LastNamed(names, i)
    ensures var out := BindAll(names, values, from); names[i] in out && out[names[i]] == values[i]
    decreases |names|
  {
    var from' := from[names[0] := values[0]];
    if i > 0 {
      BindLast(names[1..], values[1..], from', i - 1);
    } else {
      assert names[0] !in names[1..];
      BindKeys(names[1..], values[1..], from');
    }
  }

  lemma {:induction false} BindAppend(a: seq<string>, v: seq<Value>, b: seq<string>, w: seq<Value>, from: Row)
    requires |a| == |v| && |b| == |w|
    ensures BindAll(a + b, v + w, from) == BindAll(b, w, BindAll(a, v, from))
    decreases |a|
  {
    if a == [] {
      assert a + b == b && v + w == w;
    } else {
      assert (a + b)[1..] == a[1..] + b && (v + w)[1..] == v[1..] + w;
      BindAppend(a[1..], v[1..], b, w, from[a[0] := v[0]]);
    }
  }
}
