/** What the evaluator gives (src/cypher/interpreter.rs:103-533), said through what the parts of an expression give:
    which operation is applied to which values, which alternative of a CASE is taken, which items a comprehension
    keeps.  `Scope.Evaluate` runs it. */
module EvalLaws {
  import opened Frames
  import opened Ast
  import opened Graphs
  import opened Bindings
  import opened PlanLaws
  import opened Scope

  // ---------------------------------------------------------------- parts in order

  /** The expressions all have values, and these are `vs`. */
  ghost predicate AllGive(ops: Ops, es: seq<Expr>, ctx: Row, vs: seq<Value>) {
    |vs| == |es| && forall i | 0 <= i < |es| :: Eval(ops, es[i], ctx) == Ok(vs[i])
  }

  /** The first of the expressions without a value fails with `err`. */
  ghost predicate FirstFails(ops: Ops, es: seq<Expr>, ctx: Row, err: EvalError) {
    exists i :: FailsAt(ops, es, ctx, err, i)
  }

  ghost predicate FailsAt(ops: Ops, es: seq<Expr>, ctx: Row, err: EvalError, i: int) {
    0 <= i < |es| && Eval(ops, es[i], ctx) == Err(err) && forall j | 0 <= j < i :: Eval(ops, es[j], ctx).Ok?
  }

  lemma {:induction false} ItemsGive(ops: Ops, es: seq<Expr>, ctx: Row)
    ensures var r := EvalItems(ops, es, ctx);
            (r.Ok? ==> AllGive(ops, es, ctx, r.value)) && (r.Err? ==> FirstFails(ops, es, ctx, r.error))
    decreases |es|
  {
    hide Eval;
    if es != [] {
      ItemsGive(ops, es[1..], ctx);
      assert forall i | 1 <= i < |es| :: es[i] == es[1..][i - 1];
      var first, rest := Eval(ops, es[0], ctx), EvalItems(ops, es[1..], ctx);
      if first.Err? {
        assert FailsAt(ops, es, ctx, first.error, 0);
      } else if rest.Err? {
        var i :| FailsAt(ops, es[1..], ctx, rest.error, i);
        assert FailsAt(ops, es, ctx, rest.error, i + 1);
      }
    }
  }

  /** The parts of an expression that all have to have a value, in the order in which they are looked at. */
  function Parts(e: Expr): seq<Expr>
    requires !Scoped(e)
  {
    match e
    case Prop(base, _) => [base]
    case Index(base, index) => [base, index]
    case Slice(base, from, to) => [base] + (if from.Some? then [from.value] else []) + (if to.Some? then [to.value] else [])
    case Infix(_, l, r) => [l, r]
    case Unary(_, x) => [x]
    case Not(x) => [x]
    case IsNull(x) => [x]
    case IsNotNull(x) => [x]
    case ListOf(items) => items
    case MapOf(entries) => seq(|entries|, i requires 0 <= i < |entries| => entries[i].1)
    case Call(_, args, _) => args
    case _ => []
  }

  ghost function EntryNames(entries: seq<(string, Expr)>): (r: seq<string>)
    ensures |r| == |entries| && forall i | 0 <= i < |entries| :: r[i] == entries[i].0
  {
    seq(|entries|, i requires 0 <= i < |entries| => entries[i].0)
  }

  /** An operation's value, or an error other than an undefined variable where it has none. */
  ghost predicate Outcome(o: Option<Value>, r: Eval_) {
    match o
    case Some(v) => r == Ok(v)
    case None => r == Err(OtherError)
  }

  /** What an expression gives once its parts have given `vs`: its operation is applied to them, left to right. */
  ghost predicate Applies(ops: Ops, e: Expr, ctx: Row, vs: seq<Value>, r: Eval_)
    requires !Scoped(e) && |vs| == |Parts(e)|
  {
    match e
    case Lit(l) => r == Ok(ops.literal(l))
    case Var(name) => r == if name in ctx then Ok(ctx[name]) else Err(Undefined(name))
    case Param(name) => Outcome(ops.parameter(name), r)
    case Prop(_, key) => Outcome(ops.property(vs[0], key), r)
    case Index(_, _) => Outcome(ops.index(vs[0], vs[1]), r)
    case Slice(_, from, to) =>
      var f := if from.Some? then Some(vs[1]) else None;
      var t := if to.None? then None else if from.Some? then Some(vs[2]) else Some(vs[1]);
      Outcome(ops.slice(vs[0], f, t), r)
    case Infix(op, _, _) => Outcome(ops.infix(op, vs[0], vs[1]), r)
    case Unary(op, _) => Outcome(ops.negate(op, vs[0]), r)
    case Not(_) => Outcome(ops.complement(vs[0]), r)
    case IsNull(_) => r == Ok(Boolean(vs[0].Null?))
    case IsNotNull(_) => r == Ok(Boolean(!vs[0].Null?))
    case ListOf(_) => r == Ok(ListV(vs))
    case MapOf(entries) => r.Ok? && r.value.MapV? && Binds(EntryNames(entries), vs, r.value.entries)
    case Call(name, _, _) => Outcome(ops.call(name, vs), r)
    case Wildcard => r == Err(OtherError)
    case PatternComprehension(_, _, _) => r == Ok(ListV([]))
    case Exists => r == Ok(Null)
  }

  /** An expression without alternatives or binders gives what its operation makes of the values of its parts, and
      fails with the first part that fails. */
  lemma OperationLaw(ops: Ops, e: Expr, ctx: Row)
    requires !Scoped(e)
    ensures forall vs | AllGive(ops, Parts(e), ctx, vs) :: Applies(ops, e, ctx, vs, Eval(ops, e, ctx))
    ensures forall err | FirstFails(ops, Parts(e), ctx, err) :: Eval(ops, e, ctx) == Err(err)
    ensures (exists vs :: AllGive(ops, Parts(e), ctx, vs)) || (exists err :: FirstFails(ops, Parts(e), ctx, err))
  {
    ItemsGive(ops, Parts(e), ctx);
    forall vs | AllGive(ops, Parts(e), ctx, vs) ensures Applies(ops, e, ctx, vs, Eval(ops, e, ctx)) {
      ValueLaw(ops, e, ctx, vs);
    }
    forall err | FirstFails(ops, Parts(e), ctx, err) ensures Eval(ops, e, ctx) == Err(err) {
      var i :| FailsAt(ops, Parts(e), ctx, err, i);
      ErrorLaw(ops, e, ctx, err, i);
    }
  }

  lemma ValueLaw(ops: Ops, e: Expr, ctx: Row, vs: seq<Value>)
    requires !Scoped(e) && AllGive(ops, Parts(e), ctx, vs)
    ensures Applies(ops, e, ctx, vs, Eval(ops, e, ctx))
  {
    if e.ListOf? || e.Call? {
      ItemsValue(ops, Parts(e), ctx, vs);
    } else if e.MapOf? {
      EntriesValue(ops, e.entries, ctx, map[], vs);
      BindAllMeans(EntryNames(e.entries), vs);
    } else if e.Slice? {
      SliceValue(ops, e, ctx, vs);
    } else {
      OneTwoValue(ops, e, ctx, vs);
    }
  }

  lemma OneTwoValue(ops: Ops, e: Expr, ctx: Row, vs: seq<Value>)
    requires !Scoped(e) && !e.ListOf? && !e.MapOf? && !e.Call? && !e.Slice? && AllGive(ops, Parts(e), ctx, vs)
    ensures Applies(ops, e, ctx, vs, Eval(ops, e, ctx))
  {
    match e
    case Prop(base, _) => assert Parts(e)[0] == base;
    case Index(base, index) => assert Parts(e)[0] == base && Parts(e)[1] == index;
    case Infix(_, l, r) => assert Parts(e)[0] == l && Parts(e)[1] == r;
    case Unary(_, x) => assert Parts(e)[0] == x;
    case Not(x) => assert Parts(e)[0] == x;
    case IsNull(x) => assert Parts(e)[0] == x;
    case IsNotNull(x) => assert Parts(e)[0] == x;
    case _ =>
  }

  lemma SliceValue(ops: Ops, e: Expr, ctx: Row, vs: seq<Value>)
    requires e.Slice? && AllGive(ops, Parts(e), ctx, vs)
    ensures Applies(ops, e, ctx, vs, Eval(ops, e, ctx))
  {
    var ps := Parts(e);
    assert ps[0] == e.base;
    assert e.from.Some? ==> ps[1] == e.from.value;
    assert e.to.Some? ==> ps[if e.from.Some? then 2 else 1] == e.to.value;
  }

  lemma {:induction false} ItemsValue(ops: Ops, es: seq<Expr>, ctx: Row, vs: seq<Value>)
    requires AllGive(ops, es, ctx, vs)
    ensures EvalItems(ops, es, ctx) == Ok(vs)
    decreases |es|
  {
    hide Eval;
    if es != [] {
      assert AllGive(ops, es[1..], ctx, vs[1..]);
      ItemsValue(ops, es[1..], ctx, vs[1..]);
      assert vs == [vs[0]] + vs[1..];
    }
  }

  lemma {:induction false} EntriesValue(ops: Ops, entries: seq<(string, Expr)>, ctx: Row, out: Row, vs: seq<Value>)
    requires |vs| == |entries| && forall i | 0 <= i < |entries| :: Eval(ops, entries[i].1, ctx) == Ok(vs[i])
    ensures EvalEntries(ops, entries, ctx, out) == Ok(BindAll(EntryNames(entries), vs, out))
    decreases |entries|
  {
    hide Eval, EntryNames;
    if entries != [] {
      assert forall i | 0 <= i < |entries| - 1 :: entries[1..][i] == entries[i + 1];
      EntriesValue(ops, entries[1..], ctx, out[entries[0].0 := vs[0]], vs[1..]);
      assert EntryNames(entries)[1..] == EntryNames(entries[1..]);
      assert EvalEntry(ops, entries[0], ctx) == Ok(vs[0]);
    }
  }

  lemma ErrorLaw(ops: Ops, e: Expr, ctx: Row, err: EvalError, i: int)
    requires !Scoped(e) && FailsAt(ops, Parts(e), ctx, err, i)
    ensures Eval(ops, e, ctx) == Err(err)
  {
    if e.ListOf? || e.Call? {
      ItemsError(ops, Parts(e), ctx, err, i);
    } else if e.MapOf? {
      assert forall j | 0 <= j < |e.entries| :: Parts(e)[j] == e.entries[j].1;
      EntriesError(ops, e.entries, ctx, map[], err, i);
    } else if e.Slice? {
      SliceError(ops, e, ctx, err, i);
    } else {
      OneTwoError(ops, e, ctx, err, i);
    }
  }

  lemma OneTwoError(ops: Ops, e: Expr, ctx: Row, err: EvalError, i: int)
    requires !Scoped(e) && !e.ListOf? && !e.MapOf? && !e.Call? && !e.Slice? && FailsAt(ops, Parts(e), ctx, err, i)
    ensures Eval(ops, e, ctx) == Err(err)
  {
    var ps := Parts(e);
    match e
    case Prop(base, _) => assert ps[0] == base;
    case Index(base, index) => assert ps[0] == base && ps[1] == index;
    case Infix(_, l, r) => assert ps[0] == l && ps[1] == r;
    case Unary(_, x) => assert ps[0] == x;
    case Not(x) => assert ps[0] == x;
    case IsNull(x) => assert ps[0] == x;
    case IsNotNull(x) => assert ps[0] == x;
    case _ =>
  }

  lemma SliceError(ops: Ops, e: Expr, ctx: Row, err: EvalError, i: int)
    requires e.Slice? && FailsAt(ops, Parts(e), ctx, err, i)
    ensures Eval(ops, e, ctx) == Err(err)
  {
    var ps := Parts(e);
    assert ps[0] == e.base;
    assert e.from.Some? ==> ps[1] == e.from.value;
    assert e.to.Some? ==> ps[if e.from.Some? then 2 else 1] == e.to.value;
  }

  lemma {:induction false} ItemsError(ops: Ops, es: seq<Expr>, ctx: Row, err: EvalError, i: int)
    requires FailsAt(ops, es, ctx, err, i)
    ensures EvalItems(ops, es, ctx) == Err(err)
    decreases |es|
  {
    hide Eval;
    if i > 0 {
      assert FailsAt(ops, es[1..], ctx, err, i - 1);
      ItemsError(ops, es[1..], ctx, err, i - 1);
      assert Eval(ops, es[0], ctx).Ok?;
    }
  }

  lemma {:induction false} EntriesError(ops: Ops, entries: seq<(string, Expr)>, ctx: Row, out: Row, err: EvalError, i: int)
    requires 0 <= i < |entries| && Eval(ops, entries[i].1, ctx) == Err(err) && forall j | 0 <= j < i :: Eval(ops, entries[j].1, ctx).Ok?
    ensures EvalEntries(ops, entries, ctx, out) == Err(err)
    decreases |entries|
  {
    hide Eval;
    if i > 0 {
      var v := Eval(ops, entries[0].1, ctx);
      assert forall j | 0 <= j < |entries| - 1 :: entries[1..][j] == entries[j + 1];
      EntriesError(ops, entries[1..], ctx, out[entries[0].0 := v.value], err, i - 1);
      assert EvalEntry(ops, entries[0], ctx) == v;
    }
  }

  // ---------------------------------------------------------------- CASE

  /** An alternative's condition holds: it equals the subject, or is true if there is none. */
  ghost predicate Holds(ops: Ops, alternative: (Expr, Expr), subject: Option<Value>, ctx: Row) {
    var v := Eval(ops, alternative.0, ctx);
    v.Ok? && if subject.Some? then ops.same(subject.value, v.value) else v.value == Boolean(true)
  }

  /** ... or it is passed over: it has another value, and without a subject that is false or null. */
  ghost predicate PassedOver(ops: Ops, alternative: (Expr, Expr), subject: Option<Value>, ctx: Row) {
    var v := Eval(ops, alternative.0, ctx);
    v.Ok? && if subject.Some? then !ops.same(subject.value, v.value) else v.value == Boolean(false) || v.value == Null
  }

  /** CASE gives the result of the first alternative whose condition holds. */
  lemma CaseTakes(ops: Ops, e: Expr, ctx: Row, subject: Option<Value>, k: nat)
    requires e.Case? && SubjectIs(ops, e, ctx, subject) && k < |e.alternatives|
    requires Holds(ops, e.alternatives[k], subject, ctx) && forall i | 0 <= i < k :: PassedOver(ops, e.alternatives[i], subject, ctx)
    ensures Eval(ops, e, ctx) == Eval(ops, e.alternatives[k].1, ctx)
  {
    hide EvalAlternatives;
    AlternativesTake(ops, e.alternatives, subject, ctx, k);
  }

  ghost predicate SubjectIs(ops: Ops, e: Expr, ctx: Row, subject: Option<Value>)
    requires e.Case?
  {
    match e.subject
    case None => subject == None
    case Some(x) => subject.Some? && Eval(ops, x, ctx) == Ok(subject.value)
  }

  lemma {:induction false} AlternativesTake(ops: Ops, alternatives: seq<(Expr, Expr)>, subject: Option<Value>, ctx: Row, k: nat)
    requires k < |alternatives|
    requires Holds(ops, alternatives[k], subject, ctx) && forall i | 0 <= i < k :: PassedOver(ops, alternatives[i], subject, ctx)
    ensures EvalAlternatives(ops, alternatives, subject, ctx) ==
            match Eval(ops, alternatives[k].1, ctx) case Ok(v) => Ok(Some(v)) case Err(err) => Err(err)
    decreases |alternatives|
  {
    hide Eval;
    if k > 0 {
      assert PassedOver(ops, alternatives[0], subject, ctx);
      assert forall i | 0 <= i < |alternatives| - 1 :: alternatives[1..][i] == alternatives[i + 1];
      AlternativesTake(ops, alternatives[1..], subject, ctx, k - 1);
    }
  }

  /** ... and the default, or null without one, only if none does. */
  lemma CaseDefaults(ops: Ops, e: Expr, ctx: Row, subject: Option<Value>)
    requires e.Case? && SubjectIs(ops, e, ctx, subject)
    requires forall i | 0 <= i < |e.alternatives| :: PassedOver(ops, e.alternatives[i], subject, ctx)
    ensures Eval(ops, e, ctx) == if e.default.Some? then Eval(ops, e.default.value, ctx) else Ok(Null)
  {
    hide EvalAlternatives;
    AlternativesPass(ops, e.alternatives, subject, ctx);
  }

  lemma {:induction false} AlternativesPass(ops: Ops, alternatives: seq<(Expr, Expr)>, subject: Option<Value>, ctx: Row)
    requires forall i | 0 <= i < |alternatives| :: PassedOver(ops, alternatives[i], subject, ctx)
    ensures EvalAlternatives(ops, alternatives, subject, ctx) == Ok(None)
    decreases |alternatives|
  {
    hide Eval;
    if alternatives != [] {
      assert PassedOver(ops, alternatives[0], subject, ctx);
      AlternativesPass(ops, alternatives[1..], subject, ctx);
    }
  }

  /** Where the subject fails, or a condition does or is neither a truth value nor null, so does CASE. */
  lemma CaseFails(ops: Ops, e: Expr, ctx: Row, subject: Option<Value>, k: nat)
    requires e.Case?
    ensures e.subject.Some? && Eval(ops, e.subject.value, ctx).Err? ==> Eval(ops, e, ctx) == Eval(ops, e.subject.value, ctx)
    ensures SubjectIs(ops, e, ctx, subject) && k < |e.alternatives|
            && !Holds(ops, e.alternatives[k], subject, ctx) && !PassedOver(ops, e.alternatives[k], subject, ctx)
            && (forall i | 0 <= i < k :: PassedOver(ops, e.alternatives[i], subject, ctx)) ==>
              Eval(ops, e, ctx) == Err(var v := Eval(ops, e.alternatives[k].0, ctx); if v.Err? then v.error else OtherError)
  {
    hide EvalAlternatives, Holds, PassedOver;
    if SubjectIs(ops, e, ctx, subject) && k < |e.alternatives|
       && !Holds(ops, e.alternatives[k], subject, ctx) && !PassedOver(ops, e.alternatives[k], subject, ctx)
       && (forall i | 0 <= i < k :: PassedOver(ops, e.alternatives[i], subject, ctx))
    {
      AlternativesFail(ops, e.alternatives, subject, ctx, k);
    }
  }

  lemma {:induction false} AlternativesFail(ops: Ops, alternatives: seq<(Expr, Expr)>, subject: Option<Value>, ctx: Row, k: nat)
    requires k < |alternatives| && !Holds(ops, alternatives[k], subject, ctx) && !PassedOver(ops, alternatives[k], subject, ctx)
    requires forall i | 0 <= i < k :: PassedOver(ops, alternatives[i], subject, ctx)
    ensures EvalAlternatives(ops, alternatives, subject, ctx) ==
            Err(var v := Eval(ops, alternatives[k].0, ctx); if v.Err? then v.error else OtherError)
    decreases |alternatives|
  {
    hide Eval;
    if k > 0 {
      assert PassedOver(ops, alternatives[0], subject, ctx);
      assert forall i | 0 <= i < |alternatives| - 1 :: alternatives[1..][i] == alternatives[i + 1];
      AlternativesFail(ops, alternatives[1..], subject, ctx, k - 1);
    }
  }

  // ---------------------------------------------------------------- comprehensions

  /** The context in which a binder's parts are evaluated for an item. */
  ghost function With(ctx: Row, x: string, item: Value): Row {
    ctx[x := item]
  }

  /** The filter keeps an item: it is neither false nor null there. */
  ghost predicate Keeps(ops: Ops, e: Expr, ctx: Row, item: Value)
    requires e.Comprehension?
  {
    e.filter.Some? ==>
      var v := Eval(ops, e.filter.value, With(ctx, e.variable, item));
      v.Ok? && v.value != Boolean(false) && v.value != Null
  }

  /** What an item becomes: the projection there, or itself. */
  ghost predicate Becomes(ops: Ops, e: Expr, ctx: Row, item: Value, v: Value)
    requires e.Comprehension?
  {
    if e.projection.Some? then Eval(ops, e.projection.value, With(ctx, e.variable, item)) == Ok(v) else v == item
  }

  /** The item does not fail. */
  ghost predicate Succeeds(ops: Ops, e: Expr, ctx: Row, item: Value)
    requires e.Comprehension?
  {
    && (e.filter.Some? ==> Eval(ops, e.filter.value, With(ctx, e.variable, item)).Ok?)
    && (Keeps(ops, e, ctx, item) && e.projection.Some? ==> Eval(ops, e.projection.value, With(ctx, e.variable, item)).Ok?)
  }

  /** `out` lists, in order, what exactly the kept items become. */
  ghost predicate Lists(ops: Ops, e: Expr, ctx: Row, items: seq<Value>, out: seq<Value>, ix: seq<nat>)
    requires e.Comprehension?
  {
    && Places(ix, |items|) && |out| == |ix| && (forall k | 0 <= k < |ix| :: Becomes(ops, e, ctx, items[ix[k]], out[k]))
    && forall i: nat | i < |items| :: i in ix <==> Keeps(ops, e, ctx, items[i])
  }

  /** A comprehension over a list gives the projections of exactly the items that its filter keeps, in order; it
      fails exactly if some item does.  Over null it is null, and over anything else it fails. */
  lemma ComprehensionLaw(ops: Ops, e: Expr, ctx: Row) returns (ix: seq<nat>)
    requires e.Comprehension? && Eval(ops, e.source, ctx).Ok?
    ensures var v, r := Eval(ops, e.source, ctx).value, Eval(ops, e, ctx);
            && (v.Null? ==> r == Ok(Null)) && (!v.Null? && !v.ListV? ==> r == Err(OtherError))
            && (v.ListV? ==>
                  && (r.Ok? <==> forall i | 0 <= i < |v.items| :: Succeeds(ops, e, ctx, v.items[i]))
                  && (r.Ok? ==> r.value.ListV? && Lists(ops, e, ctx, v.items, r.value.items, ix)))
  {
    hide Comprehend, Lists, Succeeds;
    ix := [];
    var v := Eval(ops, e.source, ctx).value;
    if v.ListV? {
      ix := ComprehendLaw(ops, e, ctx, v.items);
    }
  }

  lemma OneItem(ops: Ops, e: Expr, ctx: Row, item: Value)
    requires e.Comprehension?
    ensures var r := ComprehendOne(ops, e, item, ctx[e.variable := item]);
            && (r.Ok? <==> Succeeds(ops, e, ctx, item))
            && (r.Ok? ==> (r.value.Some? <==> Keeps(ops, e, ctx, item)))
            && (r.Ok? && r.value.Some? ==> Becomes(ops, e, ctx, item, r.value.value))
  {
    hide Eval;
  }

  lemma {:induction false} ComprehendLaw(ops: Ops, e: Expr, ctx: Row, items: seq<Value>) returns (ix: seq<nat>)
    requires e.Comprehension?
    ensures var r := Comprehend(ops, e, items, ctx);
            && (r.Ok? <==> forall i | 0 <= i < |items| :: Succeeds(ops, e, ctx, items[i]))
            && (r.Ok? ==> Lists(ops, e, ctx, items, r.value, ix))
    decreases |items|
  {
    hide ComprehendOne, Succeeds, Keeps, Becomes, Lists;
    ix := [];
    if items == [] {
      NoneListed(ops, e, ctx);
    } else {
      var rest := items[1..];
      var ix' := ComprehendLaw(ops, e, ctx, rest);
      assert forall i | 1 <= i < |items| :: items[i] == rest[i - 1];
      OneItem(ops, e, ctx, items[0]);
      var r := Comprehend(ops, e, items, ctx);
      if r.Ok? {
        var more := Comprehend(ops, e, rest, ctx).value;
        assert (if Keeps(ops, e, ctx, items[0]) then r.value[1..] else r.value) == more;
        ix := ListsOn(ops, e, ctx, items, r.value, ix');
      } else if Succeeds(ops, e, ctx, items[0]) {
        var i :| 0 <= i < |rest| && !Succeeds(ops, e, ctx, rest[i]);
        assert items[i + 1] == rest[i];
      }
    }
  }

  lemma NoneListed(ops: Ops, e: Expr, ctx: Row)
    requires e.Comprehension?
    ensures Lists(ops, e, ctx, [], [], [])
  {
  }

  lemma ListsOn(ops: Ops, e: Expr, ctx: Row, items: seq<Value>, out: seq<Value>, ix': seq<nat>) returns (ix: seq<nat>)
    requires e.Comprehension? && items != []
    requires if Keeps(ops, e, ctx, items[0])
             then out != [] && Becomes(ops, e, ctx, items[0], out[0]) && Lists(ops, e, ctx, items[1..], out[1..], ix')
             else Lists(ops, e, ctx, items[1..], out, ix')
    ensures Lists(ops, e, ctx, items, out, ix)
  {
    hide Keeps, Becomes;
    var keep := (item: Value) => Keeps(ops, e, ctx, item);
    var goes := (item: Value, v: Value) => Becomes(ops, e, ctx, item, v);
    ix := PickedOn(keep, goes, items, out, ix');
  }

  // ---------------------------------------------------------------- reduce

  /** `accs[i]` is the accumulator after the first `i` items: each turn evaluates the body with the item and the
      accumulator so far bound, the accumulator last. */
  ghost predicate Folds(ops: Ops, e: Expr, ctx: Row, start: Value, items: seq<Value>, accs: seq<Value>)
    requires e.Reduce?
  {
    && |accs| == |items| + 1 && accs[0] == start
    && forall i | 0 <= i < |items| :: Eval(ops, e.body, With(With(ctx, e.variable, items[i]), e.accumulator, accs[i])) == Ok(accs[i + 1])
  }

  /** A reduce is the left fold of its body; over null it is null. */
  lemma ReduceLaw(ops: Ops, e: Expr, ctx: Row, start: Value, items: seq<Value>, accs: seq<Value>)
    requires e.Reduce? && Eval(ops, e.init, ctx) == Ok(start)
    ensures Eval(ops, e.source, ctx) == Ok(ListV(items)) && Folds(ops, e, ctx, start, items, accs) ==> Eval(ops, e, ctx) == Ok(accs[|items|])
    ensures Eval(ops, e.source, ctx) == Ok(Null) ==> Eval(ops, e, ctx) == Ok(Null)
  {
    hide Fold, Folds;
    if Eval(ops, e.source, ctx) == Ok(ListV(items)) && Folds(ops, e, ctx, start, items, accs) {
      FoldLaw(ops, e, ctx, start, items, accs);
    }
  }

  lemma {:induction false} FoldLaw(ops: Ops, e: Expr, ctx: Row, start: Value, items: seq<Value>, accs: seq<Value>)
    requires e.Reduce? && Folds(ops, e, ctx, start, items, accs)
    ensures Fold(ops, e, start, items, ctx) == Ok(accs[|items|])
    decreases |items|
  {
    hide Eval;
    if items != [] {
      forall i | 0 <= i < |items| - 1
        ensures Eval(ops, e.body, With(With(ctx, e.variable, items[1..][i]), e.accumulator, accs[1..][i])) == Ok(accs[1..][i + 1])
      {
        assert items[1..][i] == items[i + 1];
      }
      assert Eval(ops, e.body, With(With(ctx, e.variable, items[0]), e.accumulator, accs[0])) == Ok(accs[0 + 1]);
      FoldLaw(ops, e, ctx, accs[1], items[1..], accs[1..]);
    }
  }

  /** ... and fails with the first turn that fails. */
  lemma {:induction false} ReduceFails(ops: Ops, e: Expr, ctx: Row, start: Value, items: seq<Value>, accs: seq<Value>, k: nat, err: EvalError)
    requires e.Reduce? && k < |items| && Folds(ops, e, ctx, start, items[..k], accs)
    requires Eval(ops, e.body, With(With(ctx, e.variable, items[k]), e.accumulator, accs[k])) == Err(err)
    ensures Fold(ops, e, start, items, ctx) == Err(err)
    ensures Eval(ops, e.init, ctx) == Ok(start) && Eval(ops, e.source, ctx) == Ok(ListV(items)) ==> Eval(ops, e, ctx) == Err(err)
    decreases |items|
  {
    FoldFails(ops, e, ctx, start, items, accs, k, err);
    hide Fold, Folds;
  }

  lemma {:induction false} FoldFails(ops: Ops, e: Expr, ctx: Row, start: Value, items: seq<Value>, accs: seq<Value>, k: nat, err: EvalError)
    requires e.Reduce? && k < |items| && Folds(ops, e, ctx, start, items[..k], accs)
    requires Eval(ops, e.body, With(With(ctx, e.variable, items[k]), e.accumulator, accs[k])) == Err(err)
    ensures Fold(ops, e, start, items, ctx) == Err(err)
    decreases |items|
  {
    hide Eval;
    if k > 0 {
      var done := items[..k];
      forall i | 0 <= i < k - 1
        ensures Eval(ops, e.body, With(With(ctx, e.variable, items[1..][..k - 1][i]), e.accumulator, accs[1..][i])) == Ok(accs[1..][i + 1])
      {
        assert items[1..][..k - 1][i] == done[i + 1];
      }
      assert Eval(ops, e.body, With(With(ctx, e.variable, done[0]), e.accumulator, accs[0])) == Ok(accs[0 + 1]);
      FoldFails(ops, e, ctx, accs[1], items[1..], accs[1..], k - 1, err);
    }
  }

  // ---------------------------------------------------------------- quantifiers

  /** With nulls among the conditions: ALL is true if all are true, ANY if one is, NONE false if one is; SINGLE is
      true with exactly one true and no null, false with more than one true; otherwise a null makes them null. */
  lemma QuantifierLaw(ops: Ops, e: Expr, items: seq<Value>, ctx: Row, vs: seq<Value>)
    requires e.Quantifier? && Eval(ops, e.source, ctx) == Ok(ListV(items)) && Conditions(ops, e, items, ctx, vs)
    ensures var yes, unknown := Boolean(true) in vs, Null in vs;
            var one := exists i :: IsOnly(vs, Boolean(true), i);
            Eval(ops, e, ctx) == Ok(
              match e.kind
              case All =>
                if forall i | 0 <= i < |vs| :: vs[i] == Boolean(true) then Boolean(true) else if unknown then Null else Boolean(false)
              case Any => if yes then Boolean(true) else if unknown then Null else Boolean(false)
              case NoneOf => if yes then Boolean(false) else if unknown then Null else Boolean(true)
              case Single =>
                if yes && !one then Boolean(false) else if unknown then Null else Boolean(one))
  {
    hide Conditions, CountItems, IsOnly, Occurrences;
    CountItemsIs(ops, e, items, ctx, vs);
    OccurrencesAre(vs, Boolean(true));
    OccurrencesAre(vs, Null);
    SameLength(ops, e, items, ctx, vs);
  }

  /** They fail with the first condition that fails. */
  lemma QuantifierFails(ops: Ops, e: Expr, items: seq<Value>, ctx: Row, vs: seq<Value>, k: nat, err: EvalError)
    requires e.Quantifier? && Eval(ops, e.source, ctx) == Ok(ListV(items))
    requires k < |items| && Conditions(ops, e, items[..k], ctx, vs) && Eval(ops, e.condition, ctx[e.variable := items[k]]) == Err(err)
    ensures Eval(ops, e, ctx) == Err(err)
  {
    CountFails(ops, e, items, ctx, vs, k, err);
    hide CountItems, Conditions;
  }

  lemma {:induction false} CountFails(ops: Ops, e: Expr, items: seq<Value>, ctx: Row, vs: seq<Value>, k: nat, err: EvalError)
    requires e.Quantifier? && k < |items| && Conditions(ops, e, items[..k], ctx, vs)
    requires Eval(ops, e.condition, ctx[e.variable := items[k]]) == Err(err)
    ensures CountItems(ops, e, items, ctx) == Err(err)
    decreases |items|
  {
    hide Eval;
    if k > 0 {
      assert items[..k][1..] == items[1..][..k - 1] && items[..k][0] == items[0];
      CountFails(ops, e, items[1..], ctx, vs[1..], k - 1, err);
    }
  }

  /** Whatever binds a variable fails with its start value or its source, is null over null, and fails over anything
      else that is not a list. */
  lemma SourceLaw(ops: Ops, e: Expr, ctx: Row)
    requires e.Quantifier? || e.Comprehension? || e.Reduce?
    ensures e.Reduce? && Eval(ops, e.init, ctx).Err? ==> Eval(ops, e, ctx) == Eval(ops, e.init, ctx)
    ensures (e.Reduce? ==> Eval(ops, e.init, ctx).Ok?) ==>
              var s := Eval(ops, e.source, ctx);
              && (s.Err? ==> Eval(ops, e, ctx) == s)
              && (s.Ok? && !s.value.ListV? ==> Eval(ops, e, ctx) == if s.value.Null? then s else Err(OtherError))
  {
  }
}
