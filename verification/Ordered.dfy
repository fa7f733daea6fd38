/** What comparing values and ORDER BY mean (src/cypher/value.rs:389-421, src/cypher/physical.rs:545-563,
    2130-2133), said of the values and rows themselves. */
module Ordered {
  import opened Frames
  import opened Ast
  import opened Plan
  import opened Graphs
  import opened Sorting
  import opened Streams
  import opened Physical
  import opened Operators

  // ---------------------------------------------------------------- strings

  /** `a` comes before `b` in the dictionary: at the first place where they differ it has the smaller
      character, or it ends there. */
  ghost predicate DictionaryBefore(a: string, b: string) {
    exists k: nat :: DiffersAt(a, b, k)
  }

  ghost predicate DiffersAt(a: string, b: string, k: nat) {
    k <= |a| && k < |b| && a[..k] == b[..k] && (k < |a| ==> a[k] < b[k])
  }

  /** Strings compare as in a dictionary. */
  lemma {:induction false} StringsCompare(a: string, b: string)
    ensures CompareStrings(a, b) == Equal <==> a == b
    ensures CompareStrings(a, b) == Less <==> DictionaryBefore(a, b)
    ensures CompareStrings(a, b) == Greater <==> DictionaryBefore(b, a)
  {
    if a == [] || b == [] || a[0] != b[0] {
      FirstDiffers(a, b);
      FirstDiffers(b, a);
    } else {
      StringsCompare(a[1..], b[1..]);
      assert a == [a[0]] + a[1..] && b == [b[0]] + b[1..];
      OneOn(a, b);
      OneOn(b, a);
    }
  }

  lemma FirstDiffers(a: string, b: string)
    requires a == [] || b == [] || a[0] != b[0]
    ensures DictionaryBefore(a, b) <==> b != [] && (a == [] || a[0] < b[0])
  {
    if b != [] && (a == [] || a[0] < b[0]) {
      assert DiffersAt(a, b, 0);
    }
    if DictionaryBefore(a, b) {
      var k: nat :| DiffersAt(a, b, k);
      if k > 0 {
        assert a[..k][0] == b[..k][0];
      }
    }
  }

  lemma OneOn(a: string, b: string)
    requires a != [] && b != [] && a[0] == b[0]
    ensures DictionaryBefore(a, b) <==> DictionaryBefore(a[1..], b[1..])
  {
    if DictionaryBefore(a, b) {
      var k: nat :| DiffersAt(a, b, k);
      assert k > 0;
      assert a[1..][..k - 1] == a[..k][1..] && b[1..][..k - 1] == b[..k][1..];
      assert DiffersAt(a[1..], b[1..], k - 1);
    }
    if DictionaryBefore(a[1..], b[1..]) {
      var k: nat :| DiffersAt(a[1..], b[1..], k);
      assert a[..k + 1] == [a[0]] + a[1..][..k] && b[..k + 1] == [b[0]] + b[1..][..k];
      assert DiffersAt(a, b, k + 1);
    }
  }

  // ---------------------------------------------------------------- values

  predicate IsNumber(v: Value) {
    v.Integer? || v.Real?
  }

  function NumberOf(v: Value): real
    requires IsNumber(v)
  {
    if v.Integer? then v.i as real else v.r
  }

  /** Two values that ORDER BY does not tell apart: the same number, string or truth value, nulls, or lists
      of the same length with such elements. */
  ghost predicate Alike(a: Value, b: Value)
    decreases a
  {
    || (a.Null? && b.Null?)
    || (IsNumber(a) && IsNumber(b) && NumberOf(a) == NumberOf(b))
    || (a.Str? && b.Str? && a.s == b.s)
    || (a.Boolean? && b.Boolean? && a.b == b.b)
    || (a.ListV? && b.ListV? && |a.items| == |b.items| && forall i | 0 <= i < |a.items| :: Alike(a.items[i], b.items[i]))
  }

  /** The first place where two lists differ, or where one of them ends. */
  ghost function FirstUnlike(x: seq<Value>, y: seq<Value>): (k: nat)
    ensures k <= |x| && k <= |y| && forall i | 0 <= i < k :: Alike(x[i], y[i])
    ensures k < |x| && k < |y| ==> !Alike(x[k], y[k])
  {
    if x == [] || y == [] || !Alike(x[0], y[0]) then 0 else 1 + FirstUnlike(x[1..], y[1..])
  }

  /** `a` is less than `b`: null comes last, false before true, numbers by size, strings as in a dictionary,
      lists by their first elements that differ, then by length. */
  ghost predicate Below(a: Value, b: Value)
    decreases a
  {
    || (!a.Null? && b.Null?)
    || (IsNumber(a) && IsNumber(b) && NumberOf(a) < NumberOf(b))
    || (a.Str? && b.Str? && DictionaryBefore(a.s, b.s))
    || (a.Boolean? && b.Boolean? && !a.b && b.b)
    || (a.ListV? && b.ListV?
        && var k := FirstUnlike(a.items, b.items);
           k < |b.items| && (k < |a.items| ==> Below(a.items[k], b.items[k])))
  }

  /** The comparison of values is that order, for all values. */
  lemma {:induction false} CompareMeans(a: Value, b: Value)
    ensures CypherCompare(a, b) == Some(Equal) <==> Alike(a, b)
    ensures CypherCompare(a, b) == Some(Less) <==> Below(a, b)
    ensures CypherCompare(a, b) == Some(Greater) <==> Below(b, a)
    decreases a
  {
    if a.Str? && b.Str? {
      StringsCompare(a.s, b.s);
    } else if a.ListV? && b.ListV? {
      ListsCompare(a.items, b.items);
    }
  }

  /** Elements from the front on, as far as they are alike. */
  lemma {:induction false} ListsCompare(x: seq<Value>, y: seq<Value>)
    ensures CompareLists(x, y) == Some(Equal) <==> Alike(ListV(x), ListV(y))
    ensures CompareLists(x, y) == Some(Less) <==> Below(ListV(x), ListV(y))
    ensures CompareLists(x, y) == Some(Greater) <==> Below(ListV(y), ListV(x))
    decreases x
  {
    hide CypherCompare;
    if x == [] || y == [] {
      ListsEnd(x, y);
      ListsEnd(y, x);
    } else {
      CompareMeans(x[0], y[0]);
      ListsOn(x, y);
      ListsOn(y, x);
      AlikeSwaps(x[0], y[0]);
      if Alike(x[0], y[0]) {
        ListsCompare(x[1..], y[1..]);
      }
    }
  }

  lemma ListsEnd(x: seq<Value>, y: seq<Value>)
    requires x == [] || y == []
    ensures Alike(ListV(x), ListV(y)) <==> |x| == |y|
    ensures Below(ListV(x), ListV(y)) <==> |x| < |y|
  {
  }

  lemma AlikeSwaps(a: Value, b: Value)
    ensures Alike(a, b) == Alike(b, a)
    decreases a
  {
    if a.ListV? && b.ListV? && |a.items| == |b.items| {
      forall i | 0 <= i < |a.items| ensures Alike(a.items[i], b.items[i]) == Alike(b.items[i], a.items[i]) {
        AlikeSwaps(a.items[i], b.items[i]);
      }
    }
  }

  lemma ListsOn(x: seq<Value>, y: seq<Value>)
    requires x != [] && y != []
    ensures Alike(ListV(x), ListV(y)) <==> Alike(x[0], y[0]) && Alike(ListV(x[1..]), ListV(y[1..]))
    ensures Below(ListV(x), ListV(y)) <==> Below(x[0], y[0]) || (Alike(x[0], y[0]) && Below(ListV(x[1..]), ListV(y[1..])))
  {
    AlikeOn(x, y);
    if Alike(x[0], y[0]) {
      var k := FirstUnlike(x[1..], y[1..]);
      assert FirstUnlike(x, y) == k + 1;
    } else {
      assert FirstUnlike(x, y) == 0;
    }
  }

  lemma AlikeOn(x: seq<Value>, y: seq<Value>)
    requires x != [] && y != []
    ensures Alike(ListV(x), ListV(y)) <==> Alike(x[0], y[0]) && Alike(ListV(x[1..]), ListV(y[1..]))
  {
    if |x| == |y| && Alike(x[0], y[0]) && Alike(ListV(x[1..]), ListV(y[1..])) {
      forall i | 0 <= i < |x| ensures Alike(x[i], y[i]) {
        if i > 0 {
          assert Alike(x[1..][i - 1], y[1..][i - 1]);
        }
      }
    }
    if Alike(ListV(x), ListV(y)) {
      forall i | 0 <= i < |x| - 1 ensures Alike(x[1..][i], y[1..][i]) {
        assert Alike(x[i + 1], y[i + 1]);
      }
    }
  }

  // ---------------------------------------------------------------- sorting

  /** `p` takes the places of a list to those of another, each once. */
  ghost predicate Rearranges<T>(p: seq<nat>, xs: seq<T>, ys: seq<T>) {
    && |p| == |ys| == |xs|
    && (forall i | 0 <= i < |p| :: p[i] < |xs| && ys[i] == xs[p[i]])
    && (forall i, j | 0 <= i < j < |p| :: p[i] != p[j])
    && (forall k: nat | k < |xs| :: k in p)
  }

  /** Sorting rearranges the list, and elements that compare equal keep their order. */
  lemma {:induction false} SortRearranges<T>(c: Cmp<T>, xs: seq<T>) returns (p: seq<nat>)
    ensures Rearranges(p, xs, StableSort(c, xs))
    ensures forall i, j | 0 <= i < j < |p| && c(xs[p[i]], xs[p[j]]) == Equal :: p[i] < p[j]
  {
    p := [];
    if xs != [] {
      var p' := SortRearranges(c, xs[1..]);
      var ys := StableSort(c, xs[1..]);
      var n := Place(c, xs[0], ys);
      p := Inserted(xs, ys, p', n);
      InsertedKeeps(c, xs, ys, p', n, p);
    }
  }

  /** The first element goes to place `n`, the others move on. */
  lemma Inserted<T>(xs: seq<T>, ys: seq<T>, p': seq<nat>, n: nat) returns (p: seq<nat>)
    requires xs != [] && Rearranges(p', xs[1..], ys) && n <= |ys|
    ensures Rearranges(p, xs, ys[..n] + [xs[0]] + ys[n..])
    ensures |p| == |p'| + 1 && p[n] == 0
    ensures forall i | 0 <= i < |p'| :: p[if i < n then i else i + 1] == p'[i] + 1
  {
    p := seq(|ys| + 1, i requires 0 <= i < |ys| + 1 => if i < n then p'[i] + 1 else if i == n then 0 else p'[i - 1] + 1);
    AllPlaced(p', n, p);
    InsertedAt(xs, ys, p', n, p);
  }

  lemma InsertedAt<T>(xs: seq<T>, ys: seq<T>, p': seq<nat>, n: nat, p: seq<nat>)
    requires xs != [] && |p'| == |ys| == |xs| - 1 && n <= |ys|
    requires forall i | 0 <= i < |p'| :: p'[i] < |p'| && ys[i] == xs[1..][p'[i]]
    requires |p| == |p'| + 1 && p[n] == 0
    requires forall i | 0 <= i < |p| && i != n :: p[i] == p'[if i < n then i else i - 1] + 1
    ensures forall i | 0 <= i < |p| :: p[i] < |xs| && (ys[..n] + [xs[0]] + ys[n..])[i] == xs[p[i]]
  {
    forall i | 0 <= i < |p| ensures p[i] < |xs| && (ys[..n] + [xs[0]] + ys[n..])[i] == xs[p[i]] {
      if i != n {
        var j := if i < n then i else i - 1;
        assert ys[j] == xs[1..][p'[j]] && xs[1..][p'[j]] == xs[p'[j] + 1];
      }
    }
  }

  lemma AllPlaced(p': seq<nat>, n: nat, p: seq<nat>)
    requires |p| == |p'| + 1 && n < |p| && p[n] == 0
    requires forall i | 0 <= i < |p'| :: p[if i < n then i else i + 1] == p'[i] + 1
    requires forall k: nat | k < |p'| :: k in p'
    ensures forall k: nat | k < |p| :: k in p
  {
    forall k: nat | 0 < k < |p| ensures k in p {
      assert k - 1 in p';
      var i :| 0 <= i < |p'| && p'[i] == k - 1;
      assert p[if i < n then i else i + 1] == k;
    }
  }

  lemma InsertedKeeps<T>(c: Cmp<T>, xs: seq<T>, ys: seq<T>, p': seq<nat>, n: nat, p: seq<nat>)
    requires xs != [] && Rearranges(p', xs[1..], ys) && n <= |ys| && Rearranges(p, xs, ys[..n] + [xs[0]] + ys[n..])
    requires |p| == |p'| + 1 && p[n] == 0 && forall i | 0 <= i < |p'| :: p[if i < n then i else i + 1] == p'[i] + 1
    requires forall i, j | 0 <= i < j < |p'| && c(xs[1..][p'[i]], xs[1..][p'[j]]) == Equal :: p'[i] < p'[j]
    requires forall i | 0 <= i < n :: c(ys[i], xs[0]) == Less
    ensures forall i, j | 0 <= i < j < |p| && c(xs[p[i]], xs[p[j]]) == Equal :: p[i] < p[j]
  {
    forall i, j | 0 <= i < j < |p| && c(xs[p[i]], xs[p[j]]) == Equal ensures p[i] < p[j] {
      if j != n {
        MovedOn(xs, p', n, p, j);
        if i != n {
          MovedOn(xs, p', n, p, i);
        }
      }
    }
  }

  lemma MovedOn<T>(xs: seq<T>, p': seq<nat>, n: nat, p: seq<nat>, i: nat)
    requires i < |p| == |p'| + 1 && i != n && n < |p| && xs != []
    requires forall k | 0 <= k < |p'| :: p[if k < n then k else k + 1] == p'[k] + 1 && p'[k] < |xs| - 1
    ensures var i' := if i < n then i else i - 1; p[i] == p'[i'] + 1 && xs[1..][p'[i']] == xs[p[i]]
  {
    var i' := if i < n then i else i - 1;
    assert p[if i' < n then i' else i' + 1] == p'[i'] + 1;
  }

  /** Where an element is inserted: after those that are less. */
  lemma {:induction false} Place<T>(c: Cmp<T>, x: T, ys: seq<T>) returns (n: nat)
    ensures n <= |ys| && Insert(c, x, ys) == ys[..n] + [x] + ys[n..]
    ensures forall i | 0 <= i < n :: c(ys[i], x) == Less
  {
    n := 0;
    if ys != [] && c(ys[0], x) == Less {
      var m := Place(c, x, ys[1..]);
      n := m + 1;
      assert ys[..n] == [ys[0]] + ys[1..][..m] && ys[n..] == ys[1..][m..];
    }
  }

  /** By an ORDER BY item, row `b` should stand before row `a`. */
  ghost predicate Misplaced(env: Env, item: OrderItem, a: Row, b: Row) {
    var v, w := SortValue(env, item, a), SortValue(env, item, b);
    if item.ascending then Below(w, v) else Below(v, w)
  }

  /** What an item sorts a row by: its expression, or null where that is an error. */
  ghost function SortValue(env: Env, item: OrderItem, row: Row): Value {
    if env.eval(item.expression, row).Some? then env.eval(item.expression, row).value else Null
  }

  /** The first `k` items do not tell the rows apart. */
  ghost predicate Tied(env: Env, orderBy: seq<OrderItem>, k: nat, a: Row, b: Row)
    requires k <= |orderBy|
  {
    forall m | 0 <= m < k :: !Misplaced(env, orderBy[m], a, b) && !Misplaced(env, orderBy[m], b, a)
  }

  lemma KeyMeans(env: Env, item: OrderItem, a: Row, b: Row)
    ensures SortKey(env, item)(a, b) == Greater <==> Misplaced(env, item, a, b)
    ensures SortKey(env, item)(a, b) == Less <==> Misplaced(env, item, b, a)
  {
    hide CypherCompare, Below;
    CompareMeans(ItemValue(env, item)(a), ItemValue(env, item)(b));
  }

  lemma {:induction false} KeysMean(env: Env, orderBy: seq<OrderItem>, k: nat, a: Row, b: Row)
    requires k < |orderBy| && Tied(env, orderBy, k, a, b)
    ensures Misplaced(env, orderBy[k], a, b) ==> Lexicographic(SortKeys(env, orderBy))(a, b) == Greater
    decreases |orderBy|
  {
    hide Misplaced, SortKey;
    var keys := SortKeys(env, orderBy);
    assert keys[0] == SortKey(env, orderBy[0]);
    assert keys[1..] == SortKeys(env, orderBy[1..]);
    KeyMeans(env, orderBy[0], a, b);
    if k > 0 {
      assert !Misplaced(env, orderBy[0], a, b);
      assert Tied(env, orderBy[1..], k - 1, a, b);
      KeysMean(env, orderBy[1..], k - 1, a, b);
    }
  }

  lemma {:induction false} AllTied(env: Env, orderBy: seq<OrderItem>, a: Row, b: Row)
    requires Tied(env, orderBy, |orderBy|, a, b)
    ensures Lexicographic(SortKeys(env, orderBy))(a, b) == Equal
    decreases |orderBy|
  {
    hide Misplaced, SortKey;
    if orderBy != [] {
      var keys := SortKeys(env, orderBy);
      assert keys[0] == SortKey(env, orderBy[0]);
      assert keys[1..] == SortKeys(env, orderBy[1..]);
      KeyMeans(env, orderBy[0], a, b);
      assert !Misplaced(env, orderBy[0], a, b);
      AllTied(env, orderBy[1..], a, b);
    }
  }

  /** ORDER BY rearranges the rows at hand so that of two rows, by the first item that tells them apart, the
      lesser comes first, or the greater if the item is descending; and if none does, they keep their order.
      Its items order the rows as `OrderByItem` says. */
  lemma OrderByRanks(orderBy: seq<OrderItem>, input: Op, env: Env, rows: seq<Row>) returns (p: seq<nat>)
    requires forall i | 0 <= i < |orderBy| :: TotalPreorder(SortKey(env, orderBy[i]), rows)
    ensures var out := Breaks(Sort(input, orderBy), env, rows);
            && out.Some? && Rearranges(p, rows, out.value)
            && (forall i, j, k | 0 <= i < j < |p| && 0 <= k < |orderBy| && Tied(env, orderBy, k, rows[p[i]], rows[p[j]]) ::
                  !Misplaced(env, orderBy[k], rows[p[i]], rows[p[j]]))
            && (forall i, j | 0 <= i < j < |p| && Tied(env, orderBy, |orderBy|, rows[p[i]], rows[p[j]]) :: p[i] < p[j])
  {
    hide Tied, Misplaced, TotalPreorder, StableSort, Lexicographic, SortKeys;
    OrderByMeans(orderBy, input, env, rows);
    var c := Lexicographic(SortKeys(env, orderBy));
    var out := StableSort(c, rows);
    p := SortRearranges(c, rows);
    forall i, j, k | 0 <= i < j < |p| && 0 <= k < |orderBy| && Tied(env, orderBy, k, rows[p[i]], rows[p[j]])
      ensures !Misplaced(env, orderBy[k], rows[p[i]], rows[p[j]])
    {
      assert out[i] == rows[p[i]] && out[j] == rows[p[j]];
      KeysMean(env, orderBy, k, rows[p[i]], rows[p[j]]);
    }
    forall i, j | 0 <= i < j < |p| && Tied(env, orderBy, |orderBy|, rows[p[i]], rows[p[j]]) ensures p[i] < p[j] {
      AllTied(env, orderBy, rows[p[i]], rows[p[j]]);
    }
  }

  /** So `ORDER BY x` over a column of strings gives the strings as in a dictionary, or backwards. */
  lemma StringColumn(item: OrderItem, input: Op, env: Env, rows: seq<Row>)
    requires forall row | row in rows :: SortValue(env, item, row).Str?
    ensures var out := Breaks(Sort(input, [item]), env, rows);
            && out.Some? && |out.value| == |rows|
            && forall i, j | 0 <= i < j < |rows| ::
                 var v, w := SortValue(env, item, out.value[i]), SortValue(env, item, out.value[j]);
                 && v.Str? && w.Str?
                 && (v == w || if item.ascending then DictionaryBefore(v.s, w.s) else DictionaryBefore(w.s, v.s))
  {
    hide TotalPreorder, Breaks;
    FamilyPreorder(ItemValue(env, item), item.ascending, Strings, rows);
    var orderBy := [item];
    var p := OrderByRanks(orderBy, input, env, rows);
    var out := Breaks(Sort(input, orderBy), env, rows).value;
    forall i, j | 0 <= i < j < |rows|
      ensures var v, w := SortValue(env, item, out[i]), SortValue(env, item, out[j]);
              v.Str? && w.Str? && (v == w || if item.ascending then DictionaryBefore(v.s, w.s) else DictionaryBefore(w.s, v.s))
    {
      assert Tied(env, orderBy, 0, rows[p[i]], rows[p[j]]);
      assert !Misplaced(env, orderBy[0], rows[p[i]], rows[p[j]]);
      assert rows[p[i]] in rows && rows[p[j]] in rows;
      StringsCompare(SortValue(env, item, rows[p[i]]).s, SortValue(env, item, rows[p[j]]).s);
    }
  }
}
