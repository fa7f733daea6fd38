/** ORDER BY (src/cypher/physical.rs:545-563, 2130-2133): one stable sort per key, from the last key
    to the first, against one stable sort under the lexicographic order of all keys. */
module Sorting {
  import opened Frames
  import opened Graphs

  datatype Ordering = Less | Equal | Greater

  function Reverse(o: Ordering): Ordering {
    match o
    case Less => Greater
    case Equal => Equal
    case Greater => Less
  }

  type Cmp<!T> = (T, T) -> Ordering

  /** Every two elements of the list compare, consistently. */
  ghost predicate TotalPreorder<T>(c: Cmp<T>, xs: seq<T>) {
    && (forall a, b | a in xs && b in xs :: c(b, a) == Reverse(c(a, b)))
    && (forall a, b, d | a in xs && b in xs && d in xs :: c(a, b) != Greater && c(b, d) != Greater ==> c(a, d) != Greater)
  }

  ghost predicate Within<T>(ys: seq<T>, xs: seq<T>) {
    forall y | y in ys :: y in xs
  }

  // ---------------------------------------------------------------- what a stable sort is

  ghost predicate Sorted<T>(c: Cmp<T>, xs: seq<T>) {
    forall i, j | 0 <= i < j < |xs| :: c(xs[i], xs[j]) != Greater
  }

  /** The elements that compare equal to `x`, in their order. */
  function Class<T>(c: Cmp<T>, xs: seq<T>, x: T): seq<T> {
    if xs == [] then []
    else (if c(xs[0], x) == Equal then [xs[0]] else []) + Class(c, xs[1..], x)
  }

  /** `ys` has the elements of `xs` in order, and equal elements keep the order they have in `xs`. */
  ghost predicate IsStableSort<T>(c: Cmp<T>, xs: seq<T>, ys: seq<T>) {
    Sorted(c, ys) && multiset(ys) == multiset(xs) && forall x | x in xs :: Class(c, ys, x) == Class(c, xs, x)
  }

  function Insert<T>(c: Cmp<T>, x: T, ys: seq<T>): seq<T> {
    if ys == [] || c(ys[0], x) != Less then [x] + ys else [ys[0]] + Insert(c, x, ys[1..])
  }

  /** `sort_by`, by insertion; where the comparison orders the list, any stable sort gives the same
      (`StableSortUnique`). */
  function StableSort<T>(c: Cmp<T>, xs: seq<T>): seq<T> {
    if xs == [] then [] else Insert(c, xs[0], StableSort(c, xs[1..]))
  }

  lemma {:induction false} InsertPermutes<T>(c: Cmp<T>, x: T, ys: seq<T>)
    ensures multiset(Insert(c, x, ys)) == multiset{x} + multiset(ys)
  {
    if ys != [] && c(ys[0], x) == Less {
      InsertPermutes(c, x, ys[1..]);
      assert ys == [ys[0]] + ys[1..];
    }
  }

  /** The sort rearranges, whatever the comparison. */
  lemma {:induction false} StableSortPermutes<T>(c: Cmp<T>, xs: seq<T>)
    ensures multiset(StableSort(c, xs)) == multiset(xs)
  {
    if xs != [] {
      StableSortPermutes(c, xs[1..]);
      InsertPermutes(c, xs[0], StableSort(c, xs[1..]));
      assert xs == [xs[0]] + xs[1..];
    }
  }

  /** The same elements, so in the same lists. */
  lemma PermutedWithin<T>(ys: seq<T>, xs: seq<T>)
    requires multiset(ys) == multiset(xs)
    ensures Within(ys, xs) && Within(xs, ys)
  {
    forall y | y in ys ensures y in xs {
      assert y in multiset(ys);
    }
    forall x | x in xs ensures x in ys {
      assert x in multiset(xs);
    }
  }

  lemma Reversed<T>(c: Cmp<T>, all: seq<T>, a: T, b: T)
    requires TotalPreorder(c, all) && a in all && b in all
    ensures c(b, a) == Reverse(c(a, b)) && c(a, a) == Equal
  {
    assert c(a, a) == Reverse(c(a, a));
  }

  lemma Transitive<T>(c: Cmp<T>, all: seq<T>, a: T, b: T, d: T)
    requires TotalPreorder(c, all) && a in all && b in all && d in all && c(a, b) != Greater && c(b, d) != Greater
    ensures c(a, d) != Greater
  {
  }

  lemma WithinAt<T>(ys: seq<T>, xs: seq<T>, i: nat)
    requires Within(ys, xs) && i < |ys|
    ensures ys[i] in xs && Within(ys[1..], xs)
  {
    assert ys[i] in ys;
  }

  lemma {:induction false} InsertSorted<T>(c: Cmp<T>, all: seq<T>, x: T, ys: seq<T>)
    requires TotalPreorder(c, all) && x in all && Within(ys, all) && Sorted(c, ys)
    ensures Sorted(c, Insert(c, x, ys))
    ensures forall y | y in Insert(c, x, ys) :: y == x || y in ys
  {
    hide TotalPreorder, Within;
    if ys != [] && c(ys[0], x) == Less {
      WithinAt(ys, all, 0);
      SortedTail(c, ys);
      InsertSorted(c, all, x, ys[1..]);
      var rest := Insert(c, x, ys[1..]);
      assert forall j | 0 <= j < |rest| :: rest[j] in rest;
    } else {
      forall j | 0 <= j < |ys| ensures c(x, ys[j]) != Greater {
        WithinAt(ys, all, 0);
        WithinAt(ys, all, j);
        Reversed(c, all, ys[0], x);
        if j > 0 {
          Transitive(c, all, x, ys[0], ys[j]);
        }
      }
    }
  }

  lemma {:induction false} InsertClass<T>(c: Cmp<T>, all: seq<T>, x: T, ys: seq<T>, z: T)
    requires TotalPreorder(c, all) && x in all && z in all && Within(ys, all)
    ensures Class(c, Insert(c, x, ys), z) == (if c(x, z) == Equal then [x] else []) + Class(c, ys, z)
  {
    hide TotalPreorder, Within;
    var r := Insert(c, x, ys);
    if ys != [] && c(ys[0], x) == Less {
      WithinAt(ys, all, 0);
      InsertClass(c, all, x, ys[1..], z);
      assert r[1..] == Insert(c, x, ys[1..]);
      EqualCongruent(c, all, x, z, ys[0]);
    } else {
      assert r[1..] == ys;
    }
  }

  /** Elements equal to the same element compare alike. */
  lemma EqualCongruent<T>(c: Cmp<T>, all: seq<T>, a: T, b: T, d: T)
    requires TotalPreorder(c, all) && a in all && b in all && d in all
    ensures c(a, b) == Equal ==> c(d, a) == c(d, b) && c(a, d) == c(b, d)
  {
    hide TotalPreorder;
    Reversed(c, all, a, b);
    Reversed(c, all, a, d);
    Reversed(c, all, b, d);
    if c(a, b) == Equal {
      if c(a, d) != Greater {
        Transitive(c, all, b, a, d);
      }
      if c(b, d) != Greater {
        Transitive(c, all, a, b, d);
      }
      if c(d, a) != Greater {
        Transitive(c, all, d, a, b);
      }
      if c(d, b) != Greater {
        Transitive(c, all, d, b, a);
      }
    }
  }

  /** On a list that the comparison orders, the sort is a stable sort. */
  lemma StableSortIs<T>(c: Cmp<T>, xs: seq<T>)
    requires TotalPreorder(c, xs)
    ensures IsStableSort(c, xs, StableSort(c, xs))
  {
    StableSortPermutes(c, xs);
    SortsWithin(c, xs, xs);
  }

  lemma {:induction false} SortsWithin<T>(c: Cmp<T>, all: seq<T>, xs: seq<T>)
    requires TotalPreorder(c, all) && Within(xs, all)
    ensures Sorted(c, StableSort(c, xs)) && forall x | x in all :: Class(c, StableSort(c, xs), x) == Class(c, xs, x)
  {
    if xs != [] {
      var rest := StableSort(c, xs[1..]);
      assert Within(xs[1..], all);
      SortsWithin(c, all, xs[1..]);
      StableSortPermutes(c, xs[1..]);
      PermutedWithin(rest, xs[1..]);
      InsertSorted(c, all, xs[0], rest);
      forall x | x in all ensures Class(c, StableSort(c, xs), x) == Class(c, xs, x) {
        InsertClass(c, all, xs[0], rest, x);
      }
    }
  }

  lemma {:induction false} ClassMembers<T>(c: Cmp<T>, xs: seq<T>, x: T)
    ensures forall y :: y in Class(c, xs, x) ==> y in xs && c(y, x) == Equal
    ensures forall y | y in xs && c(y, x) == Equal :: y in Class(c, xs, x)
  {
    if xs != [] {
      ClassMembers(c, xs[1..], x);
      assert xs == [xs[0]] + xs[1..];
    }
  }

  /** If `xs` starts a sorted list with the classes of `ys`, its head is no greater than that of `ys`. */
  lemma HeadLeast<T>(c: Cmp<T>, all: seq<T>, xs: seq<T>, ys: seq<T>)
    requires TotalPreorder(c, all) && Within(xs, all) && Within(ys, all) && Sorted(c, xs) && ys != []
    requires forall x | x in all :: Class(c, xs, x) == Class(c, ys, x)
    ensures xs != [] && c(xs[0], ys[0]) != Greater
  {
    hide TotalPreorder, Within, Class;
    WithinAt(ys, all, 0);
    ClassMembers(c, ys, ys[0]);
    ClassMembers(c, xs, ys[0]);
    Reversed(c, all, ys[0], ys[0]);
    assert ys[0] in ys && ys[0] in Class(c, ys, ys[0]);
    var j :| 0 <= j < |xs| && xs[j] == ys[0];
    WithinAt(xs, all, 0);
    Reversed(c, all, xs[0], xs[0]);
  }

  /** There is only one stable sort of a list that the comparison orders. */
  lemma StableSortUnique<T>(c: Cmp<T>, xs: seq<T>, ys: seq<T>, zs: seq<T>)
    requires TotalPreorder(c, xs) && IsStableSort(c, xs, ys) && IsStableSort(c, xs, zs)
    ensures ys == zs
  {
    PermutedWithin(ys, xs);
    PermutedWithin(zs, xs);
    ClassesDetermine(c, xs, ys, zs);
  }

  lemma ClassHead<T>(c: Cmp<T>, xs: seq<T>, x: T)
    requires xs != [] && c(xs[0], x) == Equal
    ensures Class(c, xs, x) != [] && Class(c, xs, x)[0] == xs[0]
  {
  }

  lemma ClassTail<T>(c: Cmp<T>, xs: seq<T>, ys: seq<T>, z: T)
    requires xs != [] && ys != [] && xs[0] == ys[0] && Class(c, xs, z) == Class(c, ys, z)
    ensures Class(c, xs[1..], z) == Class(c, ys[1..], z)
  {
    var h := if c(xs[0], z) == Equal then [xs[0]] else [];
    assert (h + Class(c, xs[1..], z))[|h|..] == Class(c, xs[1..], z);
    assert (h + Class(c, ys[1..], z))[|h|..] == Class(c, ys[1..], z);
  }

  lemma SortedTail<T>(c: Cmp<T>, xs: seq<T>)
    requires Sorted(c, xs) && xs != []
    ensures Sorted(c, xs[1..])
  {
  }

  /** A sorted list is determined by its classes. */
  lemma {:induction false} ClassesDetermine<T>(c: Cmp<T>, all: seq<T>, xs: seq<T>, ys: seq<T>)
    requires TotalPreorder(c, all) && Within(xs, all) && Within(ys, all) && Sorted(c, xs) && Sorted(c, ys)
    requires forall x | x in all :: Class(c, xs, x) == Class(c, ys, x)
    ensures xs == ys
  {
    hide TotalPreorder, Within, Sorted, Class;
    if ys == [] {
      if xs != [] {
        HeadLeast(c, all, ys, xs);
      }
    } else {
      HeadLeast(c, all, xs, ys);
      HeadLeast(c, all, ys, xs);
      WithinAt(xs, all, 0);
      WithinAt(ys, all, 0);
      var x, y := xs[0], ys[0];
      Reversed(c, all, x, y);
      ClassHead(c, xs, x);
      ClassHead(c, ys, x);
      forall z | z in all ensures Class(c, xs[1..], z) == Class(c, ys[1..], z) {
        ClassTail(c, xs, ys, z);
      }
      SortedTail(c, xs);
      SortedTail(c, ys);
      ClassesDetermine(c, all, xs[1..], ys[1..]);
      assert xs == [x] + xs[1..] && ys == [y] + ys[1..];
    }
  }

  // ---------------------------------------------------------------- several keys

  /** By `a`, and by `b` where `a` does not decide. */
  function Then<T>(a: Cmp<T>, b: Cmp<T>): Cmp<T> {
    (x, y) => if a(x, y) == Equal then b(x, y) else a(x, y)
  }

  /** By the first key that decides. */
  function Lexicographic<T>(keys: seq<Cmp<T>>): Cmp<T> {
    if keys == [] then (x, y) => Equal else Then(keys[0], Lexicographic(keys[1..]))
  }

  /** The source's loop: stable sorts by the keys from last to first. */
  function SortPasses<T>(keys: seq<Cmp<T>>, xs: seq<T>): seq<T> {
    if keys == [] then xs else StableSort(keys[0], SortPasses(keys[1..], xs))
  }

  lemma ThenPreorder<T>(a: Cmp<T>, b: Cmp<T>, xs: seq<T>)
    requires TotalPreorder(a, xs) && TotalPreorder(b, xs)
    ensures TotalPreorder(Then(a, b), xs)
  {
    var c := Then(a, b);
    forall x, y | x in xs && y in xs ensures c(y, x) == Reverse(c(x, y)) {
      assert a(y, x) == Reverse(a(x, y)) && b(y, x) == Reverse(b(x, y));
    }
    forall x, y, z | x in xs && y in xs && z in xs && c(x, y) != Greater && c(y, z) != Greater
      ensures c(x, z) != Greater
    {
      assert a(x, z) != Greater;
      EqualCongruent(a, xs, x, y, z);
      EqualCongruent(a, xs, y, z, x);
      if a(x, z) == Equal {
        EqualCongruent(a, xs, x, z, y);
        assert a(y, z) == Reverse(a(z, y)) && a(x, y) == Reverse(a(y, x));
      }
    }
  }

  lemma {:induction false} LexicographicPreorder<T>(keys: seq<Cmp<T>>, xs: seq<T>)
    requires forall i | 0 <= i < |keys| :: TotalPreorder(keys[i], xs)
    ensures TotalPreorder(Lexicographic(keys), xs)
  {
    if keys != [] {
      LexicographicPreorder(keys[1..], xs);
      ThenPreorder(keys[0], Lexicographic(keys[1..]), xs);
    }
  }

  lemma {:induction false} ClassOfThen<T>(a: Cmp<T>, b: Cmp<T>, xs: seq<T>, x: T)
    ensures Class(Then(a, b), xs, x) == Class(b, Class(a, xs, x), x)
    ensures Class(Then(a, b), xs, x) == Class(a, Class(b, xs, x), x)
  {
    if xs != [] {
      var h, p, q := xs[0], Class(a, xs[1..], x), Class(b, xs[1..], x);
      ClassOfThen(a, b, xs[1..], x);
      assert a(h, x) == Equal ==> ([h] + p)[1..] == p;
      assert b(h, x) == Equal ==> ([h] + q)[1..] == q;
      assert [] + p == p && [] + q == q;
    }
  }

  lemma {:induction false} ClassSorted<T>(a: Cmp<T>, b: Cmp<T>, xs: seq<T>, x: T)
    requires Sorted(b, xs)
    ensures Sorted(b, Class(a, xs, x))
  {
    if xs != [] {
      ClassSorted(a, b, xs[1..], x);
      ClassMembers(a, xs[1..], x);
      var rest := Class(a, xs[1..], x);
      forall j | 0 <= j < |rest| ensures b(xs[0], rest[j]) != Greater {
        assert rest[j] in rest;
      }
    }
  }

  /** In order by `a`, and by `b` within each class of `a`: in order by both. */
  lemma {:induction false} SortedWithin<T>(a: Cmp<T>, b: Cmp<T>, all: seq<T>, zs: seq<T>)
    requires TotalPreorder(a, all) && Within(zs, all) && Sorted(a, zs)
    requires forall x | x in all :: Sorted(b, Class(a, zs, x))
    ensures Sorted(Then(a, b), zs)
  {
    if zs != [] {
      var h, rest := zs[0], zs[1..];
      assert h in zs && Within(rest, all);
      forall x | x in all ensures Sorted(b, Class(a, rest, x)) {
        var k := if a(h, x) == Equal then 1 else 0;
        assert Class(a, zs, x)[k..] == Class(a, rest, x);
      }
      SortedTail(a, zs);
      SortedWithin(a, b, all, rest);
      hide TotalPreorder, Class, Within;
      forall j | 0 <= j < |rest| ensures Then(a, b)(h, rest[j]) != Greater {
        assert rest[j] == zs[j + 1];
        HeadBefore(a, b, all, zs, j + 1);
      }
    }
  }

  lemma HeadBefore<T>(a: Cmp<T>, b: Cmp<T>, all: seq<T>, zs: seq<T>, j: nat)
    requires TotalPreorder(a, all) && Within(zs, all) && Sorted(a, zs) && 0 < j < |zs| && Sorted(b, Class(a, zs, zs[0]))
    ensures Then(a, b)(zs[0], zs[j]) != Greater
  {
    var h, x := zs[0], zs[j];
    hide TotalPreorder, Within;
    WithinAt(zs, all, 0);
    WithinAt(zs, all, j);
    Reversed(a, all, h, x);
    assert a(h, x) != Greater;
    if a(h, x) == Equal {
      var tail := Class(a, zs[1..], h);
      ClassMembers(a, zs[1..], h);
      assert zs[1..][j - 1] == x && x in tail;
      var i :| 0 <= i < |tail| && tail[i] == x;
      assert Class(a, zs, h)[0] == h && Class(a, zs, h)[i + 1] == x;
    }
  }

  /** A stable sort by `a` of a stable sort by `b` is a stable sort by `a`, then `b`. */
  lemma SortTwice<T>(a: Cmp<T>, b: Cmp<T>, xs: seq<T>, ys: seq<T>, zs: seq<T>)
    requires TotalPreorder(a, xs) && IsStableSort(b, xs, ys) && IsStableSort(a, ys, zs)
    ensures IsStableSort(Then(a, b), xs, zs)
  {
    PermutedWithin(ys, xs);
    PermutedWithin(zs, xs);
    forall x | x in xs ensures Sorted(b, Class(a, zs, x)) {
      ClassSorted(a, b, ys, x);
    }
    SortedWithin(a, b, xs, zs);
    forall x | x in xs ensures Class(Then(a, b), zs, x) == Class(Then(a, b), xs, x) {
      ClassOfThen(a, b, zs, x);
      ClassOfThen(a, b, ys, x);
      ClassOfThen(a, b, xs, x);
    }
  }

  lemma PreorderPermuted<T>(c: Cmp<T>, xs: seq<T>, ys: seq<T>)
    requires TotalPreorder(c, xs) && multiset(ys) == multiset(xs)
    ensures TotalPreorder(c, ys)
  {
    PermutedWithin(ys, xs);
  }

  /** Where every key orders the rows at hand, the passes are one stable sort of them under the
      lexicographic order of the keys. */
  lemma {:induction false} PassesAreLexicographic<T>(keys: seq<Cmp<T>>, xs: seq<T>)
    requires forall i | 0 <= i < |keys| :: TotalPreorder(keys[i], xs)
    ensures IsStableSort(Lexicographic(keys), xs, SortPasses(keys, xs))
    ensures SortPasses(keys, xs) == StableSort(Lexicographic(keys), xs)
  {
    LexicographicPreorder(keys, xs);
    if keys != [] {
      var ys := SortPasses(keys[1..], xs);
      PassesAreLexicographic(keys[1..], xs);
      PreorderPermuted(keys[0], xs, ys);
      StableSortIs(keys[0], ys);
      SortTwice(keys[0], Lexicographic(keys[1..]), xs, ys, SortPasses(keys, xs));
    }
    StableSortIs(Lexicographic(keys), xs);
    StableSortUnique(Lexicographic(keys), xs, SortPasses(keys, xs), StableSort(Lexicographic(keys), xs));
  }

  // ---------------------------------------------------------------- the comparison of values

  function CompareReals(a: real, b: real): Ordering {
    if a < b then Less else if a == b then Equal else Greater
  }

  function CompareStrings(a: string, b: string): Ordering {
    if a == [] || b == [] then CompareReals(|a| as real, |b| as real)
    else if a[0] == b[0] then CompareStrings(a[1..], b[1..])
    else if a[0] < b[0] then Less else Greater
  }

  /** `cypher_compare`; floats are reals. */
  function CypherCompare(a: Value, b: Value): Option<Ordering>
    decreases a
  {
    match (a, b)
    case (Null, Null) => Some(Equal)
    case (Null, _) => Some(Greater)
    case (_, Null) => Some(Less)
    case (Integer(x), Integer(y)) => Some(CompareReals(x as real, y as real))
    case (Real(x), Real(y)) => Some(CompareReals(x, y))
    case (Integer(x), Real(y)) => Some(CompareReals(x as real, y))
    case (Real(x), Integer(y)) => Some(CompareReals(x, y as real))
    case (Str(x), Str(y)) => Some(CompareStrings(x, y))
    case (Boolean(x), Boolean(y)) => Some(if x == y then Equal else if y then Less else Greater)
    case (ListV(x), ListV(y)) => CompareLists(x, y)
    case _ => None
  }

  function CompareLists(x: seq<Value>, y: seq<Value>): Option<Ordering>
    decreases x
  {
    if x == [] || y == [] then Some(CompareReals(|x| as real, |y| as real))
    else
      var first := CypherCompare(x[0], y[0]);
      if first == Some(Equal) then CompareLists(x[1..], y[1..]) else first
  }

  /** `compare_values`: undefined comparisons count as equal. */
  function CompareValues(a: Value, b: Value, ascending: bool): Ordering {
    var o := match CypherCompare(a, b) case Some(o) => o case None => Equal;
    if ascending then o else Reverse(o)
  }

  /** What is comparable with what, null aside; nodes, relationships and maps with nothing. */
  datatype Family = Numbers | Strings | Booleans | Others

  predicate InFamily(f: Family, v: Value) {
    || v.Null?
    || (f.Numbers? && (v.Integer? || v.Real?))
    || (f.Strings? && v.Str?)
    || (f.Booleans? && v.Boolean?)
    || (f.Others? && (v.MapV? || v.NodeV? || v.RelV?))
  }

  /** The comparison by one ORDER BY item. */
  function ByKey<T>(value: T -> Value, ascending: bool): Cmp<T> {
    (x, y) => CompareValues(value(x), value(y), ascending)
  }

  lemma {:induction false} StringsReverse(a: string, b: string)
    ensures CompareStrings(b, a) == Reverse(CompareStrings(a, b))
  {
    if a != [] && b != [] && a[0] == b[0] {
      StringsReverse(a[1..], b[1..]);
    }
  }

  lemma {:induction false} StringsTransitive(a: string, b: string, d: string)
    requires CompareStrings(a, b) != Greater && CompareStrings(b, d) != Greater
    ensures CompareStrings(a, d) != Greater
  {
    if a != [] && b != [] && d != [] && a[0] == b[0] == d[0] {
      StringsTransitive(a[1..], b[1..], d[1..]);
    }
  }

  lemma FamilyReverse(f: Family, a: Value, b: Value)
    requires InFamily(f, a) && InFamily(f, b)
    ensures CompareValues(b, a, true) == Reverse(CompareValues(a, b, true))
  {
    if a.Str? && b.Str? {
      StringsReverse(a.s, b.s);
    }
  }

  /** A key that has values of one family on the rows at hand, nulls allowed, orders them, ascending
      or descending. */
  lemma FamilyPreorder<T>(value: T -> Value, ascending: bool, f: Family, xs: seq<T>)
    requires forall x | x in xs :: InFamily(f, value(x))
    ensures TotalPreorder(ByKey(value, ascending), xs)
  {
    var c := ByKey(value, ascending);
    forall x, y | x in xs && y in xs ensures c(y, x) == Reverse(c(x, y)) {
      FamilyReverse(f, value(x), value(y));
    }
    forall x, y, z | x in xs && y in xs && z in xs && c(x, y) != Greater && c(y, z) != Greater
      ensures c(x, z) != Greater
    {
      FamilyTransitive(f, if ascending then value(x) else value(z), value(y), if ascending then value(z) else value(x));
    }
  }

  lemma FamilyTransitive(f: Family, a: Value, b: Value, d: Value)
    requires InFamily(f, a) && InFamily(f, b) && InFamily(f, d)
    requires CompareValues(a, b, true) != Greater && CompareValues(b, d, true) != Greater
    ensures CompareValues(a, d, true) != Greater
  {
    if a.Str? && b.Str? && d.Str? {
      StringsTransitive(a.s, b.s, d.s);
    }
  }

  // ---------------------------------------------------------------- all values, lists included

  function ReverseOption(o: Option<Ordering>): Option<Ordering> {
    if o.Some? then Some(Reverse(o.value)) else None
  }

  /** Comparing the other way round gives the other answer, or none either. */
  lemma {:induction false} CompareReverse(a: Value, b: Value)
    ensures CypherCompare(b, a) == ReverseOption(CypherCompare(a, b))
    decreases a
  {
    if a.Str? && b.Str? {
      StringsReverse(a.s, b.s);
    } else if a.ListV? && b.ListV? {
      ListsReverse(a.items, b.items);
    }
  }

  lemma {:induction false} ListsReverse(x: seq<Value>, y: seq<Value>)
    ensures CompareLists(y, x) == ReverseOption(CompareLists(x, y))
    decreases x
  {
    hide CypherCompare;
    if x != [] && y != [] {
      CompareReverse(x[0], y[0]);
      ListsReverse(x[1..], y[1..]);
    }
  }

  /** One of two answers, or both equal. */
  predicate Either(c: Option<Ordering>, o: Ordering) {
    c == Some(o) || c == Some(Equal)
  }

  function Both(c: Option<Ordering>, d: Option<Ordering>): Option<Ordering> {
    if c == Some(Equal) then d else c
  }

  lemma {:induction false} StringsChain(a: string, b: string, d: string, o: Ordering)
    requires o != Equal && Either(Some(CompareStrings(a, b)), o) && Either(Some(CompareStrings(b, d)), o)
    ensures Some(CompareStrings(a, d)) == Both(Some(CompareStrings(a, b)), Some(CompareStrings(b, d)))
  {
    if a != [] && b != [] && d != [] && a[0] == b[0] == d[0] {
      StringsChain(a[1..], b[1..], d[1..], o);
    }
  }

  /** Comparisons that have an answer go on: less and less is less, of lists too. */
  lemma {:induction false} CompareChain(a: Value, b: Value, d: Value, o: Ordering)
    requires o != Equal && Either(CypherCompare(a, b), o) && Either(CypherCompare(b, d), o)
    ensures CypherCompare(a, d) == Both(CypherCompare(a, b), CypherCompare(b, d))
    decreases a
  {
    if a.Str? && b.Str? && d.Str? {
      StringsChain(a.s, b.s, d.s, o);
    } else if a.ListV? && b.ListV? && d.ListV? {
      ListsChain(a.items, b.items, d.items, o);
    }
  }

  lemma {:induction false} ListsChain(x: seq<Value>, y: seq<Value>, z: seq<Value>, o: Ordering)
    requires o != Equal && Either(CompareLists(x, y), o) && Either(CompareLists(y, z), o)
    ensures CompareLists(x, z) == Both(CompareLists(x, y), CompareLists(y, z))
    decreases x
  {
    hide CypherCompare;
    if x != [] && y != [] && z != [] {
      CompareChain(x[0], y[0], z[0], o);
      if CypherCompare(x[0], y[0]) == Some(Equal) && CypherCompare(y[0], z[0]) == Some(Equal) {
        ListsChain(x[1..], y[1..], z[1..], o);
      }
    }
  }

  /** Some value can be compared with neither of two that differ. */
  ghost predicate Spoiled<T>(value: T -> Value, xs: seq<T>) {
    exists x, y, z | x in xs && y in xs && z in xs ::
      && CypherCompare(value(x), value(y)) == Some(Less)
      && CypherCompare(value(x), value(z)).None? && CypherCompare(value(z), value(y)).None?
  }

  /** Whatever the values, lists included, a key orders the rows at hand exactly unless some value can
      be compared with neither of two that differ. */
  lemma KeyOrdersExactly<T>(value: T -> Value, ascending: bool, xs: seq<T>)
    ensures TotalPreorder(ByKey(value, ascending), xs) <==> !Spoiled(value, xs)
  {
    hide CypherCompare;
    var c := ByKey(value, ascending);
    if Spoiled(value, xs) {
      var x, y, z :| x in xs && y in xs && z in xs
                     && CypherCompare(value(x), value(y)) == Some(Less)
                     && CypherCompare(value(x), value(z)).None? && CypherCompare(value(z), value(y)).None?;
      CompareReverse(value(x), value(y));
      CompareReverse(value(x), value(z));
      CompareReverse(value(z), value(y));
      assert c(x, z) == Equal && c(z, y) == Equal && c(y, z) == Equal && c(z, x) == Equal;
      assert c(x, y) == Greater || c(y, x) == Greater;
    } else {
      forall x, y | x in xs && y in xs ensures c(y, x) == Reverse(c(x, y)) {
        CompareReverse(value(x), value(y));
      }
      forall x, y, z | x in xs && y in xs && z in xs && c(x, z) != Greater && c(z, y) != Greater
        ensures c(x, y) != Greater
      {
        var u, w := if ascending then value(x) else value(y), if ascending then value(y) else value(x);
        assert !(CypherCompare(w, u) == Some(Less) && CypherCompare(w, value(z)).None? && CypherCompare(value(z), u).None?);
        Unspoiled(u, value(z), w);
      }
    }
  }

  /** The middle value is compared with one of the ends at least. */
  lemma Unspoiled(a: Value, b: Value, d: Value)
    requires CypherCompare(a, b) != Some(Greater) && CypherCompare(b, d) != Some(Greater)
    requires !(CypherCompare(d, a) == Some(Less) && CypherCompare(d, b).None? && CypherCompare(b, a).None?)
    ensures CypherCompare(a, d) != Some(Greater)
  {
    hide CypherCompare;
    CompareReverse(a, b);
    CompareReverse(b, d);
    CompareReverse(a, d);
    if CypherCompare(a, d) == Some(Greater) {
      if CypherCompare(a, b).Some? {
        CompareChain(d, a, b, Less);
      } else if CypherCompare(b, d).Some? {
        CompareChain(b, d, a, Less);
      }
    }
  }

  /** Values that can all be compared: of one comparable family, or lists of such, nulls allowed. */
  datatype Kind = Plain(family: Family) | ListsOf(kind: Kind)

  predicate InKind(k: Kind, v: Value)
    decreases k
  {
    match k
    case Plain(f) => !f.Others? && InFamily(f, v)
    case ListsOf(kind) => v.Null? || (v.ListV? && forall i | 0 <= i < |v.items| :: InKind(kind, v.items[i]))
  }

  lemma {:induction false} KindCompares(k: Kind, a: Value, b: Value)
    requires InKind(k, a) && InKind(k, b)
    ensures CypherCompare(a, b).Some?
    decreases k, 1
  {
    if a.ListV? && b.ListV? {
      ListsCompare(k.kind, a.items, b.items);
    }
  }

  lemma {:induction false} ListsCompare(k: Kind, x: seq<Value>, y: seq<Value>)
    requires (forall i | 0 <= i < |x| :: InKind(k, x[i])) && (forall i | 0 <= i < |y| :: InKind(k, y[i]))
    ensures CompareLists(x, y).Some?
    decreases k, 2, |x|
  {
    hide CypherCompare, InKind;
    if x != [] && y != [] {
      KindCompares(k, x[0], y[0]);
      ListsCompare(k, x[1..], y[1..]);
    }
  }

  /** A key whose values on the rows at hand are of one kind, lists of any depth included, orders them. */
  lemma KindOrders<T>(value: T -> Value, ascending: bool, k: Kind, xs: seq<T>)
    requires forall x | x in xs :: InKind(k, value(x))
    ensures TotalPreorder(ByKey(value, ascending), xs)
  {
    hide CypherCompare, InKind, TotalPreorder;
    forall x, y | x in xs && y in xs ensures CypherCompare(value(x), value(y)).Some? {
      KindCompares(k, value(x), value(y));
    }
    KeyOrdersExactly(value, ascending, xs);
  }

  // ---------------------------------------------------------------- values other than lists

  /** All the values are of one family, nulls allowed. */
  ghost predicate OneFamily<T>(value: T -> Value, xs: seq<T>) {
    exists f :: AllIn(f, value, xs)
  }

  ghost predicate AllIn<T>(f: Family, value: T -> Value, xs: seq<T>) {
    forall x | x in xs :: InFamily(f, value(x))
  }

  /** No two values that can be compared differ. */
  ghost predicate NoneDiffer<T>(value: T -> Value, xs: seq<T>) {
    forall x, y | x in xs && y in xs && !value(x).Null? && !value(y).Null? ::
      CompareValues(value(x), value(y), true) == Equal
  }

  /** Where no value is a list, a key orders the rows at hand exactly if its values on them are of one
      family or no two of them that can be compared differ. */
  lemma KeyOrdersIff<T>(value: T -> Value, ascending: bool, xs: seq<T>)
    requires forall x | x in xs :: !value(x).ListV?
    ensures TotalPreorder(ByKey(value, ascending), xs) <==> OneFamily(value, xs) || NoneDiffer(value, xs)
  {
    hide TotalPreorder, CompareValues, CypherCompare;
    if OneFamily(value, xs) {
      var f :| AllIn(f, value, xs);
      FamilyPreorder(value, ascending, f, xs);
    } else if NoneDiffer(value, xs) {
      EqualPreorder(value, ascending, xs);
    } else {
      var x, y :| x in xs && y in xs && !value(x).Null? && !value(y).Null?
                  && CompareValues(value(x), value(y), true) != Equal;
      var f := FamilyOf(value(x));
      SameFamily(value(x), value(y));
      assert !AllIn(f, value, xs);
      var z :| z in xs && !InFamily(f, value(z));
      StrangerSpoils(value, ascending, xs, x, y, z);
    }
  }

  lemma EqualPreorder<T>(value: T -> Value, ascending: bool, xs: seq<T>)
    requires NoneDiffer(value, xs)
    ensures TotalPreorder(ByKey(value, ascending), xs)
  {
    hide CypherCompare;
    forall x, y | x in xs && y in xs
      ensures CompareValues(value(x), value(y), true) ==
              if value(x).Null? == value(y).Null? then Equal else if value(x).Null? then Greater else Less
    {
      if value(x).Null? || value(y).Null? {
        NullLast(value(x), value(y));
      }
    }
  }

  /** Null comes after everything else. */
  lemma NullLast(a: Value, b: Value)
    requires a.Null? || b.Null?
    ensures CompareValues(a, b, true) == if a == b then Equal else if a.Null? then Greater else Less
  {
  }

  function FamilyOf(v: Value): (f: Family)
    requires !v.Null? && !v.ListV?
    ensures InFamily(f, v) && forall g | InFamily(g, v) :: g == f
  {
    match v
    case Boolean(_) => Booleans
    case Integer(_) => Numbers
    case Real(_) => Numbers
    case Str(_) => Strings
    case MapV(_) => Others
    case NodeV(_, _, _) => Others
    case RelV(_, _, _, _, _) => Others
  }

  /** Values that do not compare equal can be compared. */
  lemma SameFamily(a: Value, b: Value)
    requires !a.Null? && !b.Null? && !a.ListV? && !b.ListV? && CompareValues(a, b, true) != Equal
    ensures FamilyOf(a) == FamilyOf(b)
  {
  }

  /** A value that cannot be compared with two that differ stands "equal" to both. */
  lemma StrangerSpoils<T>(value: T -> Value, ascending: bool, xs: seq<T>, x: T, y: T, z: T)
    requires x in xs && y in xs && z in xs && !value(x).Null? && !value(y).Null? && !value(x).ListV? && !value(y).ListV?
    requires CompareValues(value(x), value(y), true) != Equal && FamilyOf(value(x)) == FamilyOf(value(y))
    requires !value(z).ListV? && !InFamily(FamilyOf(value(x)), value(z))
    ensures !TotalPreorder(ByKey(value, ascending), xs)
  {
    var c := ByKey(value, ascending);
    assert c(x, z) == Equal && c(z, x) == Equal && c(y, z) == Equal && c(z, y) == Equal;
    FamilyReverse(FamilyOf(value(x)), value(x), value(y));
    assert c(x, y) == Greater || c(y, x) == Greater;
  }

  lemma IntegersCompare(m: int, n: int)
    ensures CompareValues(Integer(m), Integer(n), true) == if m < n then Less else if m == n then Equal else Greater
  {
    assert m < n <==> m as real < n as real;
  }

  function FirstOf(row: (Value, Value)): Value { row.0 }

  function SecondOf(row: (Value, Value)): Value { row.1 }

  lemma LexicographicOfTwo<T>(a: Cmp<T>, b: Cmp<T>, x: T, y: T)
    ensures Lexicographic([a, b])(x, y) == if a(x, y) == Equal then b(x, y) else a(x, y)
  {
    assert [a, b][1..] == [b] && [b][1..] == [];
    assert Lexicographic([b])(x, y) == b(x, y);
    assert Lexicographic([a, b]) == Then(a, Lexicographic([b]));
  }

  lemma KeysCompare(x: (Value, Value), y: (Value, Value))
    ensures ByKey(FirstOf, true)(x, y) == CompareValues(x.0, y.0, true)
    ensures ByKey(SecondOf, true)(x, y) == CompareValues(x.1, y.1, true)
  {
    assert FirstOf(x) == x.0 && FirstOf(y) == y.0 && SecondOf(x) == x.1 && SecondOf(y) == y.1;
  }

  /** Where a key does not order the rows, the passes need not be the lexicographic sort: here the
      first key is two numbers and a string. */
  lemma MixedKeysDiffer(m: int, n: int, s: string)
    requires m < n
    ensures var rows := [(Integer(m), Integer(n)), (Integer(n), Integer(m)), (Str(s), Integer(m))];
            var keys := [ByKey(FirstOf, true), ByKey(SecondOf, true)];
            SortPasses(keys, rows) == [rows[1], rows[2], rows[0]] && StableSort(Lexicographic(keys), rows) == rows
  {
    hide StableSort, Insert;
    var a, b, d := (Integer(m), Integer(n)), (Integer(n), Integer(m)), (Str(s), Integer(m));
    var first, second := ByKey(FirstOf, true), ByKey(SecondOf, true);
    var keys, last := [first, second], [second];
    IntegersCompare(m, m);
    IntegersCompare(m, n);
    IntegersCompare(n, m);
    hide ByKey;
    forall x, y ensures first(x, y) == CompareValues(x.0, y.0, true) && second(x, y) == CompareValues(x.1, y.1, true) {
      KeysCompare(x, y);
    }
    assert second(d, b) == Equal && second(b, a) == Less && second(d, a) == Less;
    SortThree(second, a, b, d);
    assert first(a, d) == Equal && first(d, b) == Equal && first(a, b) == Less;
    SortThree(first, b, d, a);
    assert keys[1..] == last && last[1..] == [];
    assert SortPasses(last[1..], [a, b, d]) == [a, b, d];
    assert SortPasses(last, [a, b, d]) == [b, d, a];
    var both := Lexicographic(keys);
    LexicographicOfTwo(first, second, d, b);
    LexicographicOfTwo(first, second, b, a);
    SortThree(both, a, b, d);
  }

  /** The sort of three elements, said without recursion. */
  lemma SortThree<T>(c: Cmp<T>, x: T, y: T, z: T)
    ensures var two := if c(z, y) != Less then [y, z] else [z, y];
            StableSort(c, [x, y, z]) ==
            if c(two[0], x) != Less then [x] + two
            else if c(two[1], x) != Less then [two[0], x, two[1]]
            else two + [x]
  {
    assert [x, y, z][1..] == [y, z] && [y, z][1..] == [z] && [z][1..] == [];
    var two := if c(z, y) != Less then [y, z] else [z, y];
    assert StableSort(c, [z]) == [z];
    assert StableSort(c, [y, z]) == two by {
      assert StableSort(c, [y, z]) == Insert(c, y, [z]);
      assert Insert(c, y, []) == [y];
    }
    assert two[1..] == [two[1]] && [two[1]][1..] == [];
    assert Insert(c, x, []) == [x];
    assert Insert(c, x, [two[1]]) == if c(two[1], x) != Less then [x, two[1]] else [two[1], x];
  }
}
