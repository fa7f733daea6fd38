/** The scope checker (src/cypher/semantic.rs:224-316) and the evaluator
    (src/cypher/interpreter.rs:103-533). */
module Scope {
  import opened Frames
  import opened Ast
  import opened Graphs

  // ---------------------------------------------------------------- the checker

  /** `check_expression_variables`: it does not look into the index of a dynamic access. */
  predicate Check(e: Expr, scope: set<string>)
    decreases e
  {
    match e
    case Lit(_) => true
    case Var(name) => name in scope
    case Param(_) => true
    case Prop(base, _) => Check(base, scope)
    case Index(base, _) => Check(base, scope)
    case Slice(base, from, to) =>
      Check(base, scope) && (from.Some? ==> Check(from.value, scope)) && (to.Some? ==> Check(to.value, scope))
    case Infix(_, l, r) => Check(l, scope) && Check(r, scope)
    case Unary(_, x) => Check(x, scope)
    case Not(x) => Check(x, scope)
    case IsNull(x) => Check(x, scope)
    case IsNotNull(x) => Check(x, scope)
    case ListOf(items) => forall i | 0 <= i < |items| :: Check(items[i], scope)
    case MapOf(entries) => forall i | 0 <= i < |entries| :: Check(entries[i].1, scope)
    case Call(_, args, _) => forall i | 0 <= i < |args| :: Check(args[i], scope)
    case Wildcard => true
    case Case(subject, alternatives, default) =>
      && (subject.Some? ==> Check(subject.value, scope))
      && (forall i | 0 <= i < |alternatives| :: Check(alternatives[i].0, scope) && Check(alternatives[i].1, scope))
      && (default.Some? ==> Check(default.value, scope))
    case Comprehension(x, source, filter, projection) =>
      && Check(source, scope)
      && (filter.Some? ==> Check(filter.value, scope + {x}))
      && (projection.Some? ==> Check(projection.value, scope + {x}))
    case PatternComprehension(x, filter, result) =>
      var inner := if x.Some? then scope + {x.value} else scope;
      (filter.Some? ==> Check(filter.value, inner)) && Check(result, inner)
    case Reduce(acc, init, x, source, body) =>
      Check(init, scope) && Check(source, scope) && Check(body, scope + {acc, x})
    case Quantifier(_, x, source, condition) => Check(source, scope) && Check(condition, scope + {x})
    case Exists => true
  }

  /** Every dynamic index is in scope where it stands. */
  predicate IndicesInScope(e: Expr, scope: set<string>)
    decreases e
  {
    match e
    case Lit(_) => true
    case Var(_) => true
    case Param(_) => true
    case Prop(base, _) => IndicesInScope(base, scope)
    case Index(base, index) => IndicesInScope(base, scope) && Check(index, scope) && IndicesInScope(index, scope)
    case Slice(base, from, to) =>
      IndicesInScope(base, scope) && (from.Some? ==> IndicesInScope(from.value, scope)) && (to.Some? ==> IndicesInScope(to.value, scope))
    case Infix(_, l, r) => IndicesInScope(l, scope) && IndicesInScope(r, scope)
    case Unary(_, x) => IndicesInScope(x, scope)
    case Not(x) => IndicesInScope(x, scope)
    case IsNull(x) => IndicesInScope(x, scope)
    case IsNotNull(x) => IndicesInScope(x, scope)
    case ListOf(items) => forall i | 0 <= i < |items| :: IndicesInScope(items[i], scope)
    case MapOf(entries) => forall i | 0 <= i < |entries| :: IndicesInScope(entries[i].1, scope)
    case Call(_, args, _) => forall i | 0 <= i < |args| :: IndicesInScope(args[i], scope)
    case Wildcard => true
    case Case(subject, alternatives, default) =>
      && (subject.Some? ==> IndicesInScope(subject.value, scope))
      && (forall i | 0 <= i < |alternatives| :: IndicesInScope(alternatives[i].0, scope) && IndicesInScope(alternatives[i].1, scope))
      && (default.Some? ==> IndicesInScope(default.value, scope))
    case Comprehension(x, source, filter, projection) =>
      && IndicesInScope(source, scope)
      && (filter.Some? ==> IndicesInScope(filter.value, scope + {x}))
      && (projection.Some? ==> IndicesInScope(projection.value, scope + {x}))
    case PatternComprehension(x, filter, result) => true
    case Reduce(acc, init, x, source, body) =>
      IndicesInScope(init, scope) && IndicesInScope(source, scope) && IndicesInScope(body, scope + {acc, x})
    case Quantifier(_, x, source, condition) => IndicesInScope(source, scope) && IndicesInScope(condition, scope + {x})
    case Exists => true
  }

  // ---------------------------------------------------------------- the evaluator

  datatype EvalError = Undefined(name: string) | OtherError

  type Eval_ = Result<Value, EvalError>

  /** The operations on values; where one does not apply, it is another error. */
  datatype Ops = Ops(
    literal: Literal -> Value,
    parameter: string -> Option<Value>,
    property: (Value, string) -> Option<Value>,
    index: (Value, Value) -> Option<Value>,
    slice: (Value, Option<Value>, Option<Value>) -> Option<Value>,
    infix: (InfixOp, Value, Value) -> Option<Value>,
    negate: (UnaryOp, Value) -> Option<Value>,
    complement: Value -> Option<Value>,
    call: (string, seq<Value>) -> Option<Value>,
    same: (Value, Value) -> bool)

  function OrError(v: Option<Value>): Eval_ {
    match v
    case Some(value) => Ok(value)
    case None => Err(OtherError)
  }

  function EvalOption(ops: Ops, e: Option<Expr>, ctx: Row): Result<Option<Value>, EvalError>
    decreases e, 2, 0
  {
    match e
    case None => Ok(None)
    case Some(x) => match Eval(ops, x, ctx) case Ok(v) => Ok(Some(v)) case Err(err) => Err(err)
  }

  function EvalItems(ops: Ops, items: seq<Expr>, ctx: Row): Result<seq<Value>, EvalError>
    decreases items, 2, 0
  {
    if items == [] then Ok([])
    else
      match Eval(ops, items[0], ctx)
      case Err(err) => Err(err)
      case Ok(v) =>
        match EvalItems(ops, items[1..], ctx)
        case Err(err) => Err(err)
        case Ok(vs) => Ok([v] + vs)
  }

  function EvalEntry(ops: Ops, entry: (string, Expr), ctx: Row): Eval_
    decreases entry, 2, 0
  {
    Eval(ops, entry.1, ctx)
  }

  function EvalEntries(ops: Ops, entries: seq<(string, Expr)>, ctx: Row, out: Row): Result<Row, EvalError>
    decreases entries, 2, 0
  {
    if entries == [] then Ok(out)
    else
      match EvalEntry(ops, entries[0], ctx)
      case Err(err) => Err(err)
      case Ok(v) => EvalEntries(ops, entries[1..], ctx, out[entries[0].0 := v])
  }

  /** A CASE alternative: its result if its condition holds. */
  function EvalAlternative(ops: Ops, alternative: (Expr, Expr), subject: Option<Value>, ctx: Row): Result<Option<Value>, EvalError>
    decreases alternative, 2, 0
  {
    match Eval(ops, alternative.0, ctx)
    case Err(err) => Err(err)
    case Ok(v) =>
      if subject.None? && !v.Boolean? && !v.Null? then Err(OtherError)
      else
        var holds := if subject.Some? then ops.same(subject.value, v) else v == Boolean(true);
        if !holds then Ok(None)
        else match Eval(ops, alternative.1, ctx) case Ok(result) => Ok(Some(result)) case Err(err) => Err(err)
  }

  function EvalAlternatives(ops: Ops, alternatives: seq<(Expr, Expr)>, subject: Option<Value>, ctx: Row): Result<Option<Value>, EvalError>
    decreases alternatives, 2, 0
  {
    if alternatives == [] then Ok(None)
    else
      match EvalAlternative(ops, alternatives[0], subject, ctx)
      case Err(err) => Err(err)
      case Ok(Some(v)) => Ok(Some(v))
      case Ok(None) => EvalAlternatives(ops, alternatives[1..], subject, ctx)
  }

  /** A comprehension over the items left. */
  function Comprehend(ops: Ops, e: Expr, items: seq<Value>, ctx: Row): Result<seq<Value>, EvalError>
    requires e.Comprehension?
    decreases e, 0, |items|
  {
    if items == [] then Ok([])
    else
      match ComprehendOne(ops, e, items[0], ctx[e.variable := items[0]])
      case Err(err) => Err(err)
      case Ok(v) =>
        match Comprehend(ops, e, items[1..], ctx)
        case Err(err) => Err(err)
        case Ok(vs) => Ok((if v.Some? then [v.value] else []) + vs)
  }

  /** One item: left out by the filter, or projected. */
  function ComprehendOne(ops: Ops, e: Expr, item: Value, inner: Row): Result<Option<Value>, EvalError>
    requires e.Comprehension?
    decreases e, 0, 0
  {
    match EvalOption(ops, e.filter, inner)
    case Err(err) => Err(err)
    case Ok(keep) =>
      if keep == Some(Boolean(false)) || keep == Some(Null) then Ok(None)
      else
        match EvalOption(ops, e.projection, inner)
        case Err(err) => Err(err)
        case Ok(out) => Ok(Some(if out.Some? then out.value else item))
  }

  function Fold(ops: Ops, e: Expr, acc: Value, items: seq<Value>, ctx: Row): Eval_
    requires e.Reduce?
    decreases e, 0, |items|
  {
    if items == [] then Ok(acc)
    else
      match Eval(ops, e.body, ctx[e.variable := items[0]][e.accumulator := acc])
      case Err(err) => Err(err)
      case Ok(acc') => Fold(ops, e, acc', items[1..], ctx)
  }

  /** How many items satisfy the condition, and for how many it is null. */
  function CountItems(ops: Ops, e: Expr, items: seq<Value>, ctx: Row): Result<(nat, nat), EvalError>
    requires e.Quantifier?
    decreases e, 0, |items|
  {
    if items == [] then Ok((0, 0))
    else
      match Eval(ops, e.condition, ctx[e.variable := items[0]])
      case Err(err) => Err(err)
      case Ok(v) =>
        match CountItems(ops, e, items[1..], ctx)
        case Err(err) => Err(err)
        case Ok((trues, nulls)) =>
          Ok((trues + (if v == Boolean(true) then 1 else 0), nulls + (if v == Null then 1 else 0)))
  }

  function Quantified(kind: QuantifierKind, trues: nat, nulls: nat, total: nat): Value {
    match kind
    case All => if trues == total then Boolean(true) else if nulls > 0 then Null else Boolean(false)
    case Any => if trues > 0 then Boolean(true) else if nulls > 0 then Null else Boolean(false)
    case NoneOf => if trues > 0 then Boolean(false) else if nulls > 0 then Null else Boolean(true)
    case Single =>
      if trues == 1 && nulls == 0 then Boolean(true)
      else if trues > 1 then Boolean(false)
      else if nulls > 0 then Null else Boolean(false)
  }

  /** `evaluate` */
  function Eval(ops: Ops, e: Expr, ctx: Row): Eval_
    decreases e, 1, 0
  {
    match e
    case Lit(l) => Ok(ops.literal(l))
    case Var(name) => if name in ctx then Ok(ctx[name]) else Err(Undefined(name))
    case Param(name) => OrError(ops.parameter(name))
    case Prop(base, key) =>
      (match Eval(ops, base, ctx) case Err(err) => Err(err) case Ok(b) => OrError(ops.property(b, key)))
    case Index(base, index) =>
      (match Eval(ops, base, ctx)
       case Err(err) => Err(err)
       case Ok(b) => match Eval(ops, index, ctx) case Err(err) => Err(err) case Ok(i) => OrError(ops.index(b, i)))
    case Slice(base, from, to) =>
      (match Eval(ops, base, ctx)
       case Err(err) => Err(err)
       case Ok(b) =>
         match EvalOption(ops, from, ctx)
         case Err(err) => Err(err)
         case Ok(f) => match EvalOption(ops, to, ctx) case Err(err) => Err(err) case Ok(t) => OrError(ops.slice(b, f, t)))
    case Infix(op, l, r) =>
      (match Eval(ops, l, ctx)
       case Err(err) => Err(err)
       case Ok(a) => match Eval(ops, r, ctx) case Err(err) => Err(err) case Ok(b) => OrError(ops.infix(op, a, b)))
    case Unary(op, x) => (match Eval(ops, x, ctx) case Err(err) => Err(err) case Ok(v) => OrError(ops.negate(op, v)))
    case Not(x) => (match Eval(ops, x, ctx) case Err(err) => Err(err) case Ok(v) => OrError(ops.complement(v)))
    case IsNull(x) => (match Eval(ops, x, ctx) case Err(err) => Err(err) case Ok(v) => Ok(Boolean(v == Null)))
    case IsNotNull(x) => (match Eval(ops, x, ctx) case Err(err) => Err(err) case Ok(v) => Ok(Boolean(v != Null)))
    case ListOf(items) => (match EvalItems(ops, items, ctx) case Err(err) => Err(err) case Ok(vs) => Ok(ListV(vs)))
    case MapOf(entries) => (match EvalEntries(ops, entries, ctx, map[]) case Err(err) => Err(err) case Ok(m) => Ok(MapV(m)))
    case Call(name, args, _) =>
      (match EvalItems(ops, args, ctx) case Err(err) => Err(err) case Ok(vs) => OrError(ops.call(name, vs)))
    case Wildcard => Err(OtherError)
    case Case(subject, alternatives, default) =>
      (match EvalOption(ops, subject, ctx)
       case Err(err) => Err(err)
       case Ok(s) =>
         match EvalAlternatives(ops, alternatives, s, ctx)
         case Err(err) => Err(err)
         case Ok(Some(v)) => Ok(v)
         case Ok(None) =>
           match EvalOption(ops, default, ctx)
           case Err(err) => Err(err)
           case Ok(d) => Ok(if d.Some? then d.value else Null))
    case Comprehension(_, source, _, _) =>
      (match Eval(ops, source, ctx)
       case Err(err) => Err(err)
       case Ok(v) =>
         if v.Null? then Ok(Null)
         else if !v.ListV? then Err(OtherError)
         else match Comprehend(ops, e, v.items, ctx) case Err(err) => Err(err) case Ok(vs) => Ok(ListV(vs)))
    case PatternComprehension(_, _, _) => Ok(ListV([]))
    case Reduce(_, init, _, source, _) =>
      (match Eval(ops, init, ctx)
       case Err(err) => Err(err)
       case Ok(acc) =>
         match Eval(ops, source, ctx)
         case Err(err) => Err(err)
         case Ok(v) => if v.Null? then Ok(Null) else if v.ListV? then Fold(ops, e, acc, v.items, ctx) else Err(OtherError))
    case Quantifier(kind, _, source, _) =>
      (match Eval(ops, source, ctx)
       case Err(err) => Err(err)
       case Ok(v) =>
         if v.Null? then Ok(Null)
         else if !v.ListV? then Err(OtherError)
         else
           match CountItems(ops, e, v.items, ctx)
           case Err(err) => Err(err)
           case Ok((trues, nulls)) => Ok(Quantified(kind, trues, nulls, |v.items|)))
    case Exists => Ok(Null)
  }

  // ---------------------------------------------------------------- as the source runs it

  method EvaluateItems(ops: Ops, items: seq<Expr>, ctx: Row) returns (r: Result<seq<Value>, EvalError>)
    ensures r == EvalItems(ops, items, ctx)
    decreases items, 2, 0
  {
    hide Eval;
    var values := [];
    ghost var whole := EvalItems(ops, items, ctx);
    assert items[0..] == items && (whole.Ok? ==> [] + whole.value == whole.value);
    for i := 0 to |items|
      invariant whole == match EvalItems(ops, items[i..], ctx) case Err(err) => Err(err) case Ok(vs) => Ok(values + vs)
    {
      assert items[i..][1..] == items[i + 1..];
      var v := Evaluate(ops, items[i], ctx);
      if v.Err? {
        return Err(v.error);
      }
      ghost var more := EvalItems(ops, items[i + 1..], ctx);
      assert more.Ok? ==> values + ([v.value] + more.value) == (values + [v.value]) + more.value;
      values := values + [v.value];
    }
    assert values + [] == values;
    r := Ok(values);
  }

  method EvaluateEntry(ops: Ops, entry: (string, Expr), ctx: Row) returns (r: Eval_)
    ensures r == EvalEntry(ops, entry, ctx)
    decreases entry, 2, 0
  {
    hide Eval;
    r := Evaluate(ops, entry.1, ctx);
  }

  method EvaluateEntries(ops: Ops, entries: seq<(string, Expr)>, ctx: Row) returns (r: Result<Row, EvalError>)
    ensures r == EvalEntries(ops, entries, ctx, map[])
    decreases entries, 2, 0
  {
    hide EvalEntry;
    var out: Row := map[];
    assert entries[0..] == entries;
    for i := 0 to |entries|
      invariant EvalEntries(ops, entries[i..], ctx, out) == EvalEntries(ops, entries, ctx, map[])
    {
      assert entries[i..][1..] == entries[i + 1..];
      var v := EvaluateEntry(ops, entries[i], ctx);
      if v.Err? {
        return Err(v.error);
      }
      out := out[entries[i].0 := v.value];
    }
    r := Ok(out);
  }

  method EvaluateAlternative(ops: Ops, alternative: (Expr, Expr), subject: Option<Value>, ctx: Row)
    returns (r: Result<Option<Value>, EvalError>)
    ensures r == EvalAlternative(ops, alternative, subject, ctx)
    decreases alternative, 2, 0
  {
    hide Eval;
    var v := Evaluate(ops, alternative.0, ctx);
    if v.Err? {
      return Err(v.error);
    }
    if subject.None? && !v.value.Boolean? && !v.value.Null? {
      return Err(OtherError);
    }
    if !(if subject.Some? then ops.same(subject.value, v.value) else v.value == Boolean(true)) {
      return Ok(None);
    }
    var result := Evaluate(ops, alternative.1, ctx);
    r := if result.Ok? then Ok(Some(result.value)) else Err(result.error);
  }

  method EvaluateAlternatives(ops: Ops, alternatives: seq<(Expr, Expr)>, subject: Option<Value>, ctx: Row)
    returns (r: Result<Option<Value>, EvalError>)
    ensures r == EvalAlternatives(ops, alternatives, subject, ctx)
    decreases alternatives, 2, 0
  {
    hide EvalAlternative;
    assert alternatives[0..] == alternatives;
    for i := 0 to |alternatives|
      invariant EvalAlternatives(ops, alternatives[i..], subject, ctx) == EvalAlternatives(ops, alternatives, subject, ctx)
    {
      assert alternatives[i..][1..] == alternatives[i + 1..];
      r := EvaluateAlternative(ops, alternatives[i], subject, ctx);
      if r.Err? || r.value.Some? {
        return;
      }
    }
    r := Ok(None);
  }

  method EvaluateOption(ops: Ops, e: Option<Expr>, ctx: Row) returns (r: Result<Option<Value>, EvalError>)
    ensures r == EvalOption(ops, e, ctx)
    decreases e, 2, 0
  {
    hide Eval;
    if e.None? {
      return Ok(None);
    }
    var v := Evaluate(ops, e.value, ctx);
    r := if v.Ok? then Ok(Some(v.value)) else Err(v.error);
  }

  /** One turn of the comprehension's loop. */
  method EvaluateItem(ops: Ops, e: Expr, item: Value, inner: Row) returns (r: Result<Option<Value>, EvalError>)
    requires e.Comprehension?
    ensures r == ComprehendOne(ops, e, item, inner)
    decreases e, 0, 0
  {
    hide EvalOption;
    var keep := EvaluateOption(ops, e.filter, inner);
    if keep.Err? {
      return Err(keep.error);
    }
    if keep.value == Some(Boolean(false)) || keep.value == Some(Null) {
      return Ok(None);
    }
    var out := EvaluateOption(ops, e.projection, inner);
    if out.Err? {
      return Err(out.error);
    }
    r := Ok(Some(if out.value.Some? then out.value.value else item));
  }

  method EvaluateComprehension(ops: Ops, e: Expr, items: seq<Value>, ctx: Row) returns (r: Result<seq<Value>, EvalError>)
    requires e.Comprehension?
    ensures r == Comprehend(ops, e, items, ctx)
    decreases e, 0, |items| + 1
  {
    hide ComprehendOne;
    var result := [];
    ghost var whole := Comprehend(ops, e, items, ctx);
    assert items[0..] == items && (whole.Ok? ==> [] + whole.value == whole.value);
    for i := 0 to |items|
      invariant whole == match Comprehend(ops, e, items[i..], ctx) case Err(err) => Err(err) case Ok(vs) => Ok(result + vs)
    {
      assert items[i..][1..] == items[i + 1..];
      ghost var more := Comprehend(ops, e, items[i + 1..], ctx);
      var v := EvaluateItem(ops, e, items[i], ctx[e.variable := items[i]]);
      if v.Err? {
        return Err(v.error);
      }
      var found := if v.value.Some? then [v.value.value] else [];
      assert more.Ok? ==> result + (found + more.value) == (result + found) + more.value;
      result := result + found;
    }
    assert result + [] == result;
    r := Ok(result);
  }

  method EvaluateReduce(ops: Ops, e: Expr, init: Value, items: seq<Value>, ctx: Row) returns (r: Eval_)
    requires e.Reduce?
    ensures r == Fold(ops, e, init, items, ctx)
    decreases e, 0, |items|
  {
    hide Eval;
    var acc := init;
    assert items[0..] == items;
    for i := 0 to |items|
      invariant Fold(ops, e, acc, items[i..], ctx) == Fold(ops, e, init, items, ctx)
    {
      assert items[i..][1..] == items[i + 1..];
      r := Evaluate(ops, e.body, ctx[e.variable := items[i]][e.accumulator := acc]);
      if r.Err? {
        return;
      }
      acc := r.value;
    }
    r := Ok(acc);
  }

  method EvaluateQuantifier(ops: Ops, e: Expr, items: seq<Value>, ctx: Row) returns (r: Eval_)
    requires e.Quantifier?
    ensures r == match CountItems(ops, e, items, ctx)
                 case Err(err) => Err(err)
                 case Ok((trues, nulls)) => Ok(Quantified(e.kind, trues, nulls, |items|))
    decreases e, 0, |items|
  {
    hide Eval, Quantified;
    var trues: nat, nulls: nat := 0, 0;
    ghost var whole := CountItems(ops, e, items, ctx);
    assert items[0..] == items;
    for i := 0 to |items|
      invariant whole == match CountItems(ops, e, items[i..], ctx)
                         case Err(err) => Err(err)
                         case Ok((t, n)) => Ok((trues + t, nulls + n))
    {
      assert items[i..][1..] == items[i + 1..];
      r := Evaluate(ops, e.condition, ctx[e.variable := items[i]]);
      if r.Err? {
        return;
      }
      if r.value == Boolean(true) {
        trues := trues + 1;
      } else if r.value == Null {
        nulls := nulls + 1;
      }
    }
    r := Ok(Quantified(e.kind, trues, nulls, |items|));
  }

  /** `evaluate`, loops and all */
  method Evaluate(ops: Ops, e: Expr, ctx: Row) returns (r: Eval_)
    ensures r == Eval(ops, e, ctx)
    decreases e, 1, 1
  {
    if Scoped(e) {
      r := EvaluateScoped(ops, e, ctx);
    } else {
      r := EvaluatePlain(ops, e, ctx);
    }
  }

  method EvaluateScoped(ops: Ops, e: Expr, ctx: Row) returns (r: Eval_)
    requires Scoped(e)
    ensures r == Eval(ops, e, ctx)
    decreases e, 1, 0
  {
    hide EvalOption, EvalAlternatives, Comprehend, Fold, CountItems, Quantified;
    if e.Case? {
      var s := EvaluateOption(ops, e.subject, ctx);
      if s.Err? {
        return Err(s.error);
      }
      var a := EvaluateAlternatives(ops, e.alternatives, s.value, ctx);
      if a.Err? {
        return Err(a.error);
      }
      if a.value.Some? {
        return Ok(a.value.value);
      }
      var d := EvaluateOption(ops, e.default, ctx);
      if d.Err? {
        return Err(d.error);
      }
      return Ok(if d.value.Some? then d.value.value else Null);
    }
    var init := Null;
    if e.Reduce? {
      r := Evaluate(ops, e.init, ctx);
      if r.Err? {
        return;
      }
      init := r.value;
    }
    r := Evaluate(ops, e.source, ctx);
    if r.Err? || r.value.Null? {
      return;
    }
    if !r.value.ListV? {
      return Err(OtherError);
    }
    var items := r.value.items;
    if e.Comprehension? {
      var vs := EvaluateComprehension(ops, e, items, ctx);
      r := if vs.Ok? then Ok(ListV(vs.value)) else Err(vs.error);
    } else if e.Reduce? {
      r := EvaluateReduce(ops, e, init, items, ctx);
    } else {
      r := EvaluateQuantifier(ops, e, items, ctx);
    }
  }

  method EvaluatePlain(ops: Ops, e: Expr, ctx: Row) returns (r: Eval_)
    requires !Scoped(e)
    ensures r == Eval(ops, e, ctx)
    decreases e, 1, 0
  {
    hide EvalOption, EvalItems, EvalEntries;
    match e
    case Lit(l) => r := Ok(ops.literal(l));
    case Var(name) => r := if name in ctx then Ok(ctx[name]) else Err(Undefined(name));
    case Param(name) => r := OrError(ops.parameter(name));
    case Prop(base, key) =>
      r := Evaluate(ops, base, ctx);
      if r.Ok? {
        r := OrError(ops.property(r.value, key));
      }
    case Unary(op, x) =>
      r := Evaluate(ops, x, ctx);
      if r.Ok? {
        r := OrError(ops.negate(op, r.value));
      }
    case Not(x) =>
      r := Evaluate(ops, x, ctx);
      if r.Ok? {
        r := OrError(ops.complement(r.value));
      }
    case IsNull(x) =>
      r := Evaluate(ops, x, ctx);
      if r.Ok? {
        r := Ok(Boolean(r.value == Null));
      }
    case IsNotNull(x) =>
      r := Evaluate(ops, x, ctx);
      if r.Ok? {
        r := Ok(Boolean(r.value != Null));
      }
    case Wildcard => r := Err(OtherError);
    case PatternComprehension(_, _, _) => r := Ok(ListV([]));
    case Exists => r := Ok(Null);
    case Index(_, _) => r := EvaluateSeveral(ops, e, ctx);
    case Infix(_, _, _) => r := EvaluateSeveral(ops, e, ctx);
    case Slice(_, _, _) => r := EvaluateSeveral(ops, e, ctx);
    case ListOf(_) => r := EvaluateSeveral(ops, e, ctx);
    case MapOf(_) => r := EvaluateSeveral(ops, e, ctx);
    case Call(_, _, _) => r := EvaluateSeveral(ops, e, ctx);
  }

  /** The operators with several operands, evaluated from left to right. */
  method EvaluateSeveral(ops: Ops, e: Expr, ctx: Row) returns (r: Eval_)
    requires e.Index? || e.Infix? || e.Slice? || e.ListOf? || e.MapOf? || e.Call?
    ensures r == Eval(ops, e, ctx)
    decreases e, 0, 0
  {
    hide EvalOption, EvalItems, EvalEntries;
    match e
    case Index(base, index) =>
      r := Evaluate(ops, base, ctx);
      if r.Ok? {
        var b := r.value;
        r := Evaluate(ops, index, ctx);
        if r.Ok? {
          r := OrError(ops.index(b, r.value));
        }
      }
    case Infix(op, left, right) =>
      r := Evaluate(ops, left, ctx);
      if r.Ok? {
        var l := r.value;
        r := Evaluate(ops, right, ctx);
        if r.Ok? {
          r := OrError(ops.infix(op, l, r.value));
        }
      }
    case Slice(base, from, to) =>
      r := Evaluate(ops, base, ctx);
      if r.Ok? {
        var f := EvaluateOption(ops, from, ctx);
        if f.Err? {
          return Err(f.error);
        }
        var t := EvaluateOption(ops, to, ctx);
        if t.Err? {
          return Err(t.error);
        }
        r := OrError(ops.slice(r.value, f.value, t.value));
      }
    case ListOf(items) =>
      var vs := EvaluateItems(ops, items, ctx);
      r := if vs.Ok? then Ok(ListV(vs.value)) else Err(vs.error);
    case MapOf(entries) =>
      var m := EvaluateEntries(ops, entries, ctx);
      r := if m.Ok? then Ok(MapV(m.value)) else Err(m.error);
    case Call(name, args, _) =>
      var vs := EvaluateItems(ops, args, ctx);
      r := if vs.Ok? then OrError(ops.call(name, vs.value)) else Err(vs.error);
  }

  // ---------------------------------------------------------------- scope soundness

  /** Not an undefined variable, whatever else. */
  predicate Found<T>(r: Result<T, EvalError>) {
    r.Ok? || !r.error.Undefined?
  }

  /** An expression that passes the checks, over a context that binds the scope. */
  predicate Bound(e: Expr, scope: set<string>, ctx: Row) {
    Check(e, scope) && IndicesInScope(e, scope) && scope <= ctx.Keys
  }

  predicate Scoped(e: Expr) {
    e.Case? || e.Comprehension? || e.Reduce? || e.Quantifier?
  }

  /** Accepted by the checker, with its dynamic indices in scope: no undefined variable, at any depth. */
  lemma {:induction false} Sound(ops: Ops, e: Expr, scope: set<string>, ctx: Row)
    requires Bound(e, scope, ctx)
    ensures Found(Eval(ops, e, ctx))
    decreases e, 1, 1
  {
    hide Eval, Bound;
    if Scoped(e) {
      SoundScoped(ops, e, scope, ctx);
    } else if e.ListOf? || e.MapOf? || e.Call? || e.Slice? {
      SoundCollection(ops, e, scope, ctx);
    } else {
      SoundOperator(ops, e, scope, ctx);
    }
  }

  lemma {:induction false} SoundOperator(ops: Ops, e: Expr, scope: set<string>, ctx: Row)
    requires Bound(e, scope, ctx) && !Scoped(e) && !e.ListOf? && !e.MapOf? && !e.Call? && !e.Slice?
    ensures Found(Eval(ops, e, ctx))
    decreases e, 1, 0
  {
    if e.Prop? {
      Sound(ops, e.base, scope, ctx);
    } else if e.Index? {
      Sound(ops, e.base, scope, ctx);
      Sound(ops, e.index, scope, ctx);
    } else if e.Infix? {
      Sound(ops, e.left, scope, ctx);
      Sound(ops, e.right, scope, ctx);
    } else {
      SoundUnary(ops, e, scope, ctx);
    }
  }

  lemma {:induction false} SoundUnary(ops: Ops, e: Expr, scope: set<string>, ctx: Row)
    requires Bound(e, scope, ctx) && !Scoped(e) && !e.ListOf? && !e.MapOf? && !e.Call? && !e.Slice?
    requires !e.Prop? && !e.Index? && !e.Infix?
    ensures Found(Eval(ops, e, ctx))
    decreases e, 0, 0
  {
    match e
    case Unary(_, x) => Sound(ops, x, scope, ctx);
    case Not(x) => Sound(ops, x, scope, ctx);
    case IsNull(x) => Sound(ops, x, scope, ctx);
    case IsNotNull(x) => Sound(ops, x, scope, ctx);
    case _ =>
  }

  lemma {:induction false} SoundCollection(ops: Ops, e: Expr, scope: set<string>, ctx: Row)
    requires Bound(e, scope, ctx) && (e.ListOf? || e.MapOf? || e.Call? || e.Slice?)
    ensures Found(Eval(ops, e, ctx))
    decreases e, 1, 0
  {
    match e
    case Slice(base, from, to) => Sound(ops, base, scope, ctx); SoundOption(ops, from, scope, ctx); SoundOption(ops, to, scope, ctx);
    case ListOf(items) => SoundItems(ops, items, scope, ctx);
    case MapOf(entries) => SoundEntries(ops, entries, scope, ctx, map[]);
    case Call(_, args, _) => SoundItems(ops, args, scope, ctx);
  }

  lemma {:induction false} SoundScoped(ops: Ops, e: Expr, scope: set<string>, ctx: Row)
    requires Bound(e, scope, ctx) && Scoped(e)
    ensures Found(Eval(ops, e, ctx))
    decreases e, 1, 0
  {
    match e
    case Case(subject, alternatives, default) =>
      SoundOption(ops, subject, scope, ctx);
      SoundOption(ops, default, scope, ctx);
      var s := EvalOption(ops, subject, ctx);
      if s.Ok? {
        SoundAlternatives(ops, alternatives, s.value, scope, ctx);
      }
    case Comprehension(_, source, _, _) =>
      Sound(ops, source, scope, ctx);
      var v := Eval(ops, source, ctx);
      if v.Ok? && v.value.ListV? {
        SoundComprehend(ops, e, v.value.items, scope, ctx);
      }
    case Reduce(_, init, _, source, _) =>
      Sound(ops, init, scope, ctx);
      Sound(ops, source, scope, ctx);
      var acc, v := Eval(ops, init, ctx), Eval(ops, source, ctx);
      if acc.Ok? && v.Ok? && v.value.ListV? {
        SoundFold(ops, e, acc.value, v.value.items, scope, ctx);
      }
    case Quantifier(_, _, source, _) =>
      Sound(ops, source, scope, ctx);
      var v := Eval(ops, source, ctx);
      if v.Ok? && v.value.ListV? {
        SoundCount(ops, e, v.value.items, scope, ctx);
      }
  }

  lemma {:induction false} SoundOption(ops: Ops, e: Option<Expr>, scope: set<string>, ctx: Row)
    requires e.Some? ==> Bound(e.value, scope, ctx)
    ensures Found(EvalOption(ops, e, ctx))
    decreases e, 2, 0
  {
    if e.Some? {
      Sound(ops, e.value, scope, ctx);
    }
  }

  lemma {:induction false} SoundItems(ops: Ops, items: seq<Expr>, scope: set<string>, ctx: Row)
    requires forall i | 0 <= i < |items| :: Bound(items[i], scope, ctx)
    ensures Found(EvalItems(ops, items, ctx))
    decreases items, 2, 0
  {
    if items != [] {
      Sound(ops, items[0], scope, ctx);
      SoundItems(ops, items[1..], scope, ctx);
    }
  }

  lemma {:induction false} SoundEntry(ops: Ops, entry: (string, Expr), scope: set<string>, ctx: Row)
    requires Bound(entry.1, scope, ctx)
    ensures Found(EvalEntry(ops, entry, ctx))
    decreases entry, 2, 0
  {
    Sound(ops, entry.1, scope, ctx);
  }

  lemma {:induction false} SoundEntries(ops: Ops, entries: seq<(string, Expr)>, scope: set<string>, ctx: Row, out: Row)
    requires forall i | 0 <= i < |entries| :: Bound(entries[i].1, scope, ctx)
    ensures Found(EvalEntries(ops, entries, ctx, out))
    decreases entries, 2, 0
  {
    if entries != [] {
      SoundEntry(ops, entries[0], scope, ctx);
      var v := EvalEntry(ops, entries[0], ctx);
      if v.Ok? {
        SoundEntries(ops, entries[1..], scope, ctx, out[entries[0].0 := v.value]);
      }
    }
  }

  lemma {:induction false} SoundAlternative(ops: Ops, alternative: (Expr, Expr), subject: Option<Value>, scope: set<string>, ctx: Row)
    requires Bound(alternative.0, scope, ctx) && Bound(alternative.1, scope, ctx)
    ensures Found(EvalAlternative(ops, alternative, subject, ctx))
    decreases alternative, 2, 0
  {
    Sound(ops, alternative.0, scope, ctx);
    Sound(ops, alternative.1, scope, ctx);
  }

  lemma {:induction false} SoundAlternatives(ops: Ops, alternatives: seq<(Expr, Expr)>, subject: Option<Value>, scope: set<string>, ctx: Row)
    requires forall i | 0 <= i < |alternatives| :: Bound(alternatives[i].0, scope, ctx) && Bound(alternatives[i].1, scope, ctx)
    ensures Found(EvalAlternatives(ops, alternatives, subject, ctx))
    decreases alternatives, 2, 0
  {
    if alternatives != [] {
      SoundAlternative(ops, alternatives[0], subject, scope, ctx);
      SoundAlternatives(ops, alternatives[1..], subject, scope, ctx);
    }
  }

  lemma {:induction false} SoundComprehend(ops: Ops, e: Expr, items: seq<Value>, scope: set<string>, ctx: Row)
    requires e.Comprehension? && Bound(e, scope, ctx)
    ensures Found(Comprehend(ops, e, items, ctx))
    decreases e, 0, |items|
  {
    if items != [] {
      var inner := ctx[e.variable := items[0]];
      SoundOption(ops, e.filter, scope + {e.variable}, inner);
      SoundOption(ops, e.projection, scope + {e.variable}, inner);
      SoundComprehend(ops, e, items[1..], scope, ctx);
    }
  }

  lemma {:induction false} SoundFold(ops: Ops, e: Expr, acc: Value, items: seq<Value>, scope: set<string>, ctx: Row)
    requires e.Reduce? && Bound(e, scope, ctx)
    ensures Found(Fold(ops, e, acc, items, ctx))
    decreases e, 0, |items|
  {
    if items != [] {
      var inner := ctx[e.variable := items[0]][e.accumulator := acc];
      Sound(ops, e.body, scope + {e.accumulator, e.variable}, inner);
      var acc' := Eval(ops, e.body, inner);
      if acc'.Ok? {
        SoundFold(ops, e, acc'.value, items[1..], scope, ctx);
      }
    }
  }

  lemma {:induction false} SoundCount(ops: Ops, e: Expr, items: seq<Value>, scope: set<string>, ctx: Row)
    requires e.Quantifier? && Bound(e, scope, ctx)
    ensures Found(CountItems(ops, e, items, ctx))
    decreases e, 0, |items|
  {
    if items != [] {
      Sound(ops, e.condition, scope + {e.variable}, ctx[e.variable := items[0]]);
      SoundCount(ops, e, items[1..], scope, ctx);
    }
  }

  // ---------------------------------------------------------------- why the indices must be in scope

  /** The checker accepts any index, and evaluating one that is not bound fails. */
  lemma IndexSlips(ops: Ops, l: Literal, name: string, scope: set<string>, ctx: Row)
    requires name !in ctx
    ensures var e := Index(Lit(l), Var(name)); Check(e, scope) && Eval(ops, e, ctx) == Err(Undefined(name))
  {
    assert Eval(ops, Lit(l), ctx).Ok?;
    assert Eval(ops, Var(name), ctx) == Err(Undefined(name));
  }

  // ---------------------------------------------------------------- and when they are, exactly

  /** Everything in it is evaluated: no CASE, and nothing that binds a variable. */
  predicate Eager(e: Expr)
    decreases e
  {
    match e
    case Lit(_) => true
    case Var(_) => true
    case Param(_) => true
    case Prop(base, _) => Eager(base)
    case Index(base, index) => Eager(base) && Eager(index)
    case Slice(base, from, to) => Eager(base) && (from.Some? ==> Eager(from.value)) && (to.Some? ==> Eager(to.value))
    case Infix(_, l, r) => Eager(l) && Eager(r)
    case Unary(_, x) => Eager(x)
    case Not(x) => Eager(x)
    case IsNull(x) => Eager(x)
    case IsNotNull(x) => Eager(x)
    case ListOf(items) => forall i | 0 <= i < |items| :: Eager(items[i])
    case MapOf(entries) => forall i | 0 <= i < |entries| :: Eager(entries[i].1)
    case Call(_, args, _) => forall i | 0 <= i < |args| :: Eager(args[i])
    case _ => false
  }

  /** Evaluation comes by every part of it unless it fails on the way: there is no CASE, and where a
      variable is bound, some item reaches the filter, some item that passes reaches the projection,
      and some item reaches the body or the condition. */
  ghost predicate Reached(ops: Ops, e: Expr, ctx: Row)
    decreases e, 1, 0
  {
    match e
    case Lit(_) => true
    case Var(_) => true
    case Param(_) => true
    case Prop(base, _) => Reached(ops, base, ctx)
    case Index(base, index) => Reached(ops, base, ctx) && Reached(ops, index, ctx)
    case Slice(base, from, to) =>
      Reached(ops, base, ctx) && (from.Some? ==> Reached(ops, from.value, ctx)) && (to.Some? ==> Reached(ops, to.value, ctx))
    case Infix(_, l, r) => Reached(ops, l, ctx) && Reached(ops, r, ctx)
    case Unary(_, x) => Reached(ops, x, ctx)
    case Not(x) => Reached(ops, x, ctx)
    case IsNull(x) => Reached(ops, x, ctx)
    case IsNotNull(x) => Reached(ops, x, ctx)
    case ListOf(items) => forall i | 0 <= i < |items| :: Reached(ops, items[i], ctx)
    case MapOf(entries) => forall i | 0 <= i < |entries| :: Reached(ops, entries[i].1, ctx)
    case Call(_, args, _) => forall i | 0 <= i < |args| :: Reached(ops, args[i], ctx)
    case Wildcard => true
    case Case(_, _, _) => false
    case Comprehension(x, source, filter, projection) =>
      Reached(ops, source, ctx) && (Items(ops, source, ctx).Some? ==> var items := Items(ops, source, ctx).value;
        && (filter.Some? ==> exists i | 0 <= i < |items| :: Reached(ops, filter.value, ctx[x := items[i]]))
        && (projection.Some? ==> exists i | 0 <= i < |items| ::
              Passes(ops, filter, ctx[x := items[i]]) && Reached(ops, projection.value, ctx[x := items[i]])))
    case PatternComprehension(_, _, _) => false
    case Reduce(acc, init, x, source, body) =>
      && Reached(ops, init, ctx) && Reached(ops, source, ctx)
      && (Eval(ops, init, ctx).Ok? && Items(ops, source, ctx).Some? ==>
            BodyReached(ops, e, Eval(ops, init, ctx).value, Items(ops, source, ctx).value, ctx))
    case Quantifier(_, x, source, condition) =>
      Reached(ops, source, ctx) && (Items(ops, source, ctx).Some? ==> var items := Items(ops, source, ctx).value;
        exists i | 0 <= i < |items| :: Reached(ops, condition, ctx[x := items[i]]))
    case Exists => true
  }

  /** The list that a bound variable runs over; nothing where evaluating the source fails, or gives
      no list and ends with an error. */
  ghost function Items(ops: Ops, source: Expr, ctx: Row): Option<seq<Value>> {
    match Eval(ops, source, ctx)
    case Err(_) => None
    case Ok(v) => if v.ListV? then Some(v.items) else if v.Null? then Some([]) else None
  }

  ghost predicate Passes(ops: Ops, filter: Option<Expr>, inner: Row) {
    var keep := EvalOption(ops, filter, inner);
    keep.Ok? && keep.value != Some(Boolean(false)) && keep.value != Some(Null)
  }

  ghost predicate BodyReached(ops: Ops, e: Expr, acc: Value, items: seq<Value>, ctx: Row)
    requires e.Reduce?
    decreases e, 0, |items|
  {
    && items != []
    && var inner := ctx[e.variable := items[0]][e.accumulator := acc];
       || Reached(ops, e.body, inner)
       || (Eval(ops, e.body, inner).Ok? && BodyReached(ops, e, Eval(ops, e.body, inner).value, items[1..], ctx))
  }

  /** The variables and the dynamic indices are in the scope that is bound. */
  predicate InScope(e: Expr, ctx: Row) {
    Check(e, ctx.Keys) && IndicesInScope(e, ctx.Keys)
  }

  /** For every evaluator and every expression all parts of which are reached: what evaluates is in
      scope; and unless an operation fails, there is an undefined variable exactly if one of the two
      checks fails. */
  lemma Exact(ops: Ops, e: Expr, ctx: Row)
    requires Reached(ops, e, ctx)
    ensures Eval(ops, e, ctx).Ok? ==> InScope(e, ctx)
    ensures Eval(ops, e, ctx) != Err(OtherError) ==>
              (Eval(ops, e, ctx).Err? && Eval(ops, e, ctx).error.Undefined? <==> !InScope(e, ctx))
  {
    hide Eval, Reached, Check, IndicesInScope;
    OkInScope(ops, e, ctx);
    if InScope(e, ctx) {
      Sound(ops, e, ctx.Keys, ctx);
    }
  }

  /** Whatever has neither CASE nor a bound variable is reached in every part. */
  lemma {:induction false} EagerReached(ops: Ops, e: Expr, ctx: Row)
    requires Eager(e)
    ensures Reached(ops, e, ctx)
    decreases e, 1
  {
    hide Eval, EvalOption, Passes, Items, BodyReached;
    if e.ListOf? || e.MapOf? || e.Call? || e.Slice? {
      EagerCollection(ops, e, ctx);
      return;
    }
    match e
    case Prop(base, _) => EagerReached(ops, base, ctx);
    case Index(base, index) => EagerReached(ops, base, ctx); EagerReached(ops, index, ctx);
    case Infix(_, l, r) => EagerReached(ops, l, ctx); EagerReached(ops, r, ctx);
    case Unary(_, x) => EagerReached(ops, x, ctx);
    case Not(x) => EagerReached(ops, x, ctx);
    case IsNull(x) => EagerReached(ops, x, ctx);
    case IsNotNull(x) => EagerReached(ops, x, ctx);
    case _ =>
  }

  lemma {:induction false} EagerCollection(ops: Ops, e: Expr, ctx: Row)
    requires Eager(e) && (e.ListOf? || e.MapOf? || e.Call? || e.Slice?)
    ensures Reached(ops, e, ctx)
    decreases e, 0
  {
    hide Eval, EvalOption, Passes, Items, BodyReached;
    match e
    case Slice(base, from, to) =>
      EagerReached(ops, base, ctx);
      if from.Some? {
        EagerReached(ops, from.value, ctx);
      }
      if to.Some? {
        EagerReached(ops, to.value, ctx);
      }
    case ListOf(items) =>
      forall i | 0 <= i < |items| ensures Reached(ops, items[i], ctx) {
        EagerReached(ops, items[i], ctx);
      }
    case MapOf(entries) =>
      forall i | 0 <= i < |entries| ensures Reached(ops, entries[i].1, ctx) {
        EagerReached(ops, entries[i].1, ctx);
      }
    case Call(_, args, _) =>
      forall i | 0 <= i < |args| ensures Reached(ops, args[i], ctx) {
        EagerReached(ops, args[i], ctx);
      }
  }

  /** Over a non-empty list, a body without CASE or bound variables of its own is reached. */
  lemma BodiesReached(ops: Ops, e: Expr, ctx: Row)
    requires e.Reduce? || e.Quantifier?
    requires Eager(e.source) && (e.Reduce? ==> Eager(e.init) && Eager(e.body)) && (e.Quantifier? ==> Eager(e.condition))
    requires Items(ops, e.source, ctx).Some? && Items(ops, e.source, ctx).value != []
    ensures Reached(ops, e, ctx)
  {
    hide Eval, Eager;
    var items := Items(ops, e.source, ctx).value;
    EagerReached(ops, e.source, ctx);
    if e.Reduce? {
      EagerReached(ops, e.init, ctx);
      var acc := Eval(ops, e.init, ctx);
      if acc.Ok? {
        EagerReached(ops, e.body, ctx[e.variable := items[0]][e.accumulator := acc.value]);
      }
    } else {
      EagerReached(ops, e.condition, ctx[e.variable := items[0]]);
    }
  }

  /** And so are the filter and the projection of a comprehension of which some item passes. */
  lemma ComprehensionReached(ops: Ops, e: Expr, ctx: Row, i: nat)
    requires e.Comprehension? && Eager(e.source)
    requires (e.filter.Some? ==> Eager(e.filter.value)) && (e.projection.Some? ==> Eager(e.projection.value))
    requires Items(ops, e.source, ctx).Some? && i < |Items(ops, e.source, ctx).value|
    requires Passes(ops, e.filter, ctx[e.variable := Items(ops, e.source, ctx).value[i]])
    ensures Reached(ops, e, ctx)
  {
    hide Eval, Eager, EvalOption;
    EagerReached(ops, e.source, ctx);
    var inner := ctx[e.variable := Items(ops, e.source, ctx).value[i]];
    if e.filter.Some? {
      EagerReached(ops, e.filter.value, inner);
    }
    if e.projection.Some? {
      EagerReached(ops, e.projection.value, inner);
    }
  }

  /** CASE is left out because it evaluates one of its results at most: what it does not come by may
      be out of scope and nobody notices. */
  lemma CaseSlips(ops: Ops, l: Literal, name: string, ctx: Row)
    requires name !in ctx && ops.literal(l) == Boolean(true)
    ensures var e := Case(None, [(Lit(l), Lit(l))], Some(Var(name))); !InScope(e, ctx) && Eval(ops, e, ctx).Ok?
  {
    var e := Case(None, [(Lit(l), Lit(l))], Some(Var(name)));
    assert Eval(ops, Lit(l), ctx) == Ok(Boolean(true));
    assert EvalAlternative(ops, e.alternatives[0], None, ctx) == Ok(Some(Boolean(true)));
    assert EvalAlternatives(ops, e.alternatives, None, ctx) == Ok(Some(Boolean(true)));
    assert !Check(Var(name), ctx.Keys);
  }

  lemma {:induction false} OkInScope(ops: Ops, e: Expr, ctx: Row)
    requires Reached(ops, e, ctx)
    ensures Eval(ops, e, ctx).Ok? ==> InScope(e, ctx)
    decreases e, 1, 1
  {
    hide Reached, InScope, Eval;
    if e.ListOf? || e.MapOf? || e.Call? {
      OkCollection(ops, e, ctx);
    } else if e.Slice? {
      OkSlice(ops, e, ctx);
    } else if e.Index? || e.Infix? {
      OkBinary(ops, e, ctx);
    } else if e.Comprehension? {
      OkComprehension(ops, e, ctx);
    } else if e.Reduce? {
      OkReduce(ops, e, ctx);
    } else if e.Quantifier? {
      OkQuantifier(ops, e, ctx);
    } else {
      OkUnary(ops, e, ctx);
    }
  }

  lemma {:induction false} OkUnary(ops: Ops, e: Expr, ctx: Row)
    requires Reached(ops, e, ctx) && !e.ListOf? && !e.MapOf? && !e.Call? && !e.Slice? && !e.Index? && !e.Infix?
    requires !e.Comprehension? && !e.Reduce? && !e.Quantifier?
    ensures Eval(ops, e, ctx).Ok? ==> InScope(e, ctx)
    decreases e, 1, 0
  {
    match e
    case Prop(base, _) => OkInScope(ops, base, ctx);
    case Unary(_, x) => OkInScope(ops, x, ctx);
    case Not(x) => OkInScope(ops, x, ctx);
    case IsNull(x) => OkInScope(ops, x, ctx);
    case IsNotNull(x) => OkInScope(ops, x, ctx);
    case _ =>
  }

  lemma {:induction false} OkBinary(ops: Ops, e: Expr, ctx: Row)
    requires Reached(ops, e, ctx) && (e.Index? || e.Infix?)
    ensures Eval(ops, e, ctx).Ok? ==> InScope(e, ctx)
    decreases e, 1, 0
  {
    if e.Index? {
      OkInScope(ops, e.base, ctx);
      OkInScope(ops, e.index, ctx);
    } else {
      OkInScope(ops, e.left, ctx);
      OkInScope(ops, e.right, ctx);
    }
  }

  lemma {:induction false} OkSlice(ops: Ops, e: Expr, ctx: Row)
    requires Reached(ops, e, ctx) && e.Slice?
    ensures Eval(ops, e, ctx).Ok? ==> InScope(e, ctx)
    decreases e, 1, 0
  {
    hide EvalOption;
    OkInScope(ops, e.base, ctx);
    OkOption(ops, e.from, ctx);
    OkOption(ops, e.to, ctx);
  }

  lemma {:induction false} OkCollection(ops: Ops, e: Expr, ctx: Row)
    requires Reached(ops, e, ctx) && (e.ListOf? || e.MapOf? || e.Call?)
    ensures Eval(ops, e, ctx).Ok? ==> InScope(e, ctx)
    decreases e, 1, 0
  {
    hide EvalItems, EvalEntries;
    match e
    case ListOf(items) => OkItems(ops, items, ctx);
    case MapOf(entries) => OkEntries(ops, entries, ctx, map[]);
    case Call(_, args, _) => OkItems(ops, args, ctx);
  }

  lemma {:induction false} OkOption(ops: Ops, e: Option<Expr>, ctx: Row)
    requires e.Some? ==> Reached(ops, e.value, ctx)
    ensures e.Some? && EvalOption(ops, e, ctx).Ok? ==> InScope(e.value, ctx)
    decreases e, 2, 0
  {
    if e.Some? {
      OkInScope(ops, e.value, ctx);
    }
  }

  lemma {:induction false} OkItems(ops: Ops, items: seq<Expr>, ctx: Row)
    requires forall i | 0 <= i < |items| :: Reached(ops, items[i], ctx)
    ensures EvalItems(ops, items, ctx).Ok? ==> forall i | 0 <= i < |items| :: InScope(items[i], ctx)
    decreases items, 2, 0
  {
    hide Reached, InScope, Eval;
    if items != [] {
      OkInScope(ops, items[0], ctx);
      OkItems(ops, items[1..], ctx);
      assert items == [items[0]] + items[1..];
    }
  }

  lemma {:induction false} OkEntry(ops: Ops, entry: (string, Expr), ctx: Row)
    requires Reached(ops, entry.1, ctx)
    ensures EvalEntry(ops, entry, ctx).Ok? ==> InScope(entry.1, ctx)
    decreases entry, 2, 0
  {
    OkInScope(ops, entry.1, ctx);
  }

  lemma {:induction false} OkEntries(ops: Ops, entries: seq<(string, Expr)>, ctx: Row, out: Row)
    requires forall i | 0 <= i < |entries| :: Reached(ops, entries[i].1, ctx)
    ensures EvalEntries(ops, entries, ctx, out).Ok? ==> forall i | 0 <= i < |entries| :: InScope(entries[i].1, ctx)
    decreases entries, 2, 0
  {
    hide Reached, InScope, EvalEntry;
    if entries != [] {
      OkEntry(ops, entries[0], ctx);
      var v := EvalEntry(ops, entries[0], ctx);
      if v.Ok? {
        OkEntries(ops, entries[1..], ctx, out[entries[0].0 := v.value]);
      }
      assert entries == [entries[0]] + entries[1..];
    }
  }

  /** A comprehension that comes through has come through at every item. */
  lemma {:induction false} ComprehendAt(ops: Ops, e: Expr, items: seq<Value>, ctx: Row, i: nat)
    requires e.Comprehension? && Comprehend(ops, e, items, ctx).Ok? && i < |items|
    ensures ComprehendOne(ops, e, items[i], ctx[e.variable := items[i]]).Ok?
    decreases i
  {
    hide ComprehendOne;
    if i > 0 {
      ComprehendAt(ops, e, items[1..], ctx, i - 1);
    }
  }

  lemma {:induction false} OkComprehension(ops: Ops, e: Expr, ctx: Row)
    requires Reached(ops, e, ctx) && e.Comprehension?
    ensures Eval(ops, e, ctx).Ok? ==> InScope(e, ctx)
    decreases e, 1, 0
  {
    hide Comprehend, ComprehendOne;
    OkInScope(ops, e.source, ctx);
    if Eval(ops, e, ctx).Ok? {
      var v := Eval(ops, e.source, ctx).value;
      var items := Items(ops, e.source, ctx).value;
      if e.filter.Some? {
        var i :| 0 <= i < |items| && Reached(ops, e.filter.value, ctx[e.variable := items[i]]);
        var inner := ctx[e.variable := items[i]];
        ComprehendAt(ops, e, items, ctx, i);
        FilterOk(ops, e, items[i], inner);
        OkInScope(ops, e.filter.value, inner);
        assert inner.Keys == ctx.Keys + {e.variable};
      }
      if e.projection.Some? {
        var i :| 0 <= i < |items| && Passes(ops, e.filter, ctx[e.variable := items[i]])
                 && Reached(ops, e.projection.value, ctx[e.variable := items[i]]);
        var inner := ctx[e.variable := items[i]];
        ComprehendAt(ops, e, items, ctx, i);
        ProjectionOk(ops, e, items[i], inner);
        OkInScope(ops, e.projection.value, inner);
        assert inner.Keys == ctx.Keys + {e.variable};
      }
    }
  }

  lemma FilterOk(ops: Ops, e: Expr, item: Value, inner: Row)
    requires e.Comprehension? && ComprehendOne(ops, e, item, inner).Ok? && e.filter.Some?
    ensures Eval(ops, e.filter.value, inner).Ok?
  {
    assert EvalOption(ops, e.filter, inner).Ok?;
  }

  lemma ProjectionOk(ops: Ops, e: Expr, item: Value, inner: Row)
    requires e.Comprehension? && ComprehendOne(ops, e, item, inner).Ok? && e.projection.Some? && Passes(ops, e.filter, inner)
    ensures Eval(ops, e.projection.value, inner).Ok?
  {
    assert EvalOption(ops, e.projection, inner).Ok?;
  }

  lemma {:induction false} OkReduce(ops: Ops, e: Expr, ctx: Row)
    requires Reached(ops, e, ctx) && e.Reduce?
    ensures Eval(ops, e, ctx).Ok? ==> InScope(e, ctx)
    decreases e, 1, 0
  {
    hide Fold, BodyReached;
    OkInScope(ops, e.init, ctx);
    OkInScope(ops, e.source, ctx);
    if Eval(ops, e, ctx).Ok? {
      var acc, items := Eval(ops, e.init, ctx).value, Items(ops, e.source, ctx).value;
      NoBodyOfNothing(ops, e, acc, ctx);
      OkFold(ops, e, acc, items, ctx);
    }
  }

  lemma NoBodyOfNothing(ops: Ops, e: Expr, acc: Value, ctx: Row)
    requires e.Reduce?
    ensures !BodyReached(ops, e, acc, [], ctx)
  {
  }

  lemma {:induction false} OkFold(ops: Ops, e: Expr, acc: Value, items: seq<Value>, ctx: Row)
    requires e.Reduce? && BodyReached(ops, e, acc, items, ctx) && Fold(ops, e, acc, items, ctx).Ok?
    ensures Check(e.body, ctx.Keys + {e.accumulator, e.variable}) && IndicesInScope(e.body, ctx.Keys + {e.accumulator, e.variable})
    decreases e, 0, |items|
  {
    hide Eval, Reached;
    var inner := ctx[e.variable := items[0]][e.accumulator := acc];
    if Reached(ops, e.body, inner) {
      OkInScope(ops, e.body, inner);
      assert inner.Keys == ctx.Keys + {e.accumulator, e.variable};
    } else {
      OkFold(ops, e, Eval(ops, e.body, inner).value, items[1..], ctx);
    }
  }

  lemma {:induction false} CountAt(ops: Ops, e: Expr, items: seq<Value>, ctx: Row, i: nat)
    requires e.Quantifier? && CountItems(ops, e, items, ctx).Ok? && i < |items|
    ensures Eval(ops, e.condition, ctx[e.variable := items[i]]).Ok?
    decreases i
  {
    hide Eval;
    if i > 0 {
      CountAt(ops, e, items[1..], ctx, i - 1);
    }
  }

  lemma {:induction false} OkQuantifier(ops: Ops, e: Expr, ctx: Row)
    requires Reached(ops, e, ctx) && e.Quantifier?
    ensures Eval(ops, e, ctx).Ok? ==> InScope(e, ctx)
    decreases e, 1, 0
  {
    hide CountItems;
    OkInScope(ops, e.source, ctx);
    if Eval(ops, e, ctx).Ok? {
      var items := Items(ops, e.source, ctx).value;
      var i :| 0 <= i < |items| && Reached(ops, e.condition, ctx[e.variable := items[i]]);
      var inner := ctx[e.variable := items[i]];
      CountAt(ops, e, items, ctx, i);
      OkInScope(ops, e.condition, inner);
      assert inner.Keys == ctx.Keys + {e.variable};
    }
  }

  // ---------------------------------------------------------------- what a quantifier means

  function Occurrences(vs: seq<Value>, v: Value): nat {
    if vs == [] then 0 else (if vs[0] == v then 1 else 0) + Occurrences(vs[1..], v)
  }

  /** The conditions of the items, evaluated one by one. */
  ghost predicate Conditions(ops: Ops, e: Expr, items: seq<Value>, ctx: Row, vs: seq<Value>)
    requires e.Quantifier?
  {
    |vs| == |items| && forall i | 0 <= i < |items| :: Eval(ops, e.condition, ctx[e.variable := items[i]]) == Ok(vs[i])
  }

  lemma {:induction false} CountItemsIs(ops: Ops, e: Expr, items: seq<Value>, ctx: Row, vs: seq<Value>)
    requires e.Quantifier? && Conditions(ops, e, items, ctx, vs)
    ensures CountItems(ops, e, items, ctx) == Ok((Occurrences(vs, Boolean(true)), Occurrences(vs, Null)))
    decreases |items|
  {
    hide Eval;
    if items != [] {
      assert forall i | 0 <= i < |items[1..]| :: items[1..][i] == items[i + 1] && vs[1..][i] == vs[i + 1];
      CountItemsIs(ops, e, items[1..], ctx, vs[1..]);
    }
  }

  lemma {:induction false} OccurrencesAre(vs: seq<Value>, v: Value)
    ensures Occurrences(vs, v) <= |vs|
    ensures Occurrences(vs, v) == |vs| <==> forall i | 0 <= i < |vs| :: vs[i] == v
    ensures Occurrences(vs, v) == 0 <==> v !in vs
    ensures Occurrences(vs, v) == 1 <==> exists i :: IsOnly(vs, v, i)
  {
    if vs != [] {
      OccurrencesAre(vs[1..], v);
      assert vs == [vs[0]] + vs[1..];
      OnlyFirst(vs, v);
    }
  }

  ghost predicate IsOnly(vs: seq<Value>, v: Value, i: int) {
    0 <= i < |vs| && vs[i] == v && forall j | 0 <= j < |vs| && j != i :: vs[j] != v
  }

  lemma OnlyFirst(vs: seq<Value>, v: Value)
    requires vs != []
    ensures (exists i :: IsOnly(vs, v, i)) <==> if vs[0] == v then v !in vs[1..] else exists i :: IsOnly(vs[1..], v, i)
  {
    var rest := vs[1..];
    if vs[0] == v {
      if v !in rest {
        assert IsOnly(vs, v, 0) by {
          assert forall j | 0 < j < |vs| :: vs[j] == rest[j - 1] && rest[j - 1] in rest;
        }
      } else {
        var k :| 0 <= k < |rest| && rest[k] == v;
        assert vs[k + 1] == v;
      }
    } else {
      if i :| IsOnly(vs, v, i) {
        assert i > 0 && IsOnly(rest, v, i - 1) by {
          assert forall j | 0 <= j < |rest| :: rest[j] == vs[j + 1];
        }
      }
      if k :| IsOnly(rest, v, k) {
        assert IsOnly(vs, v, k + 1) by {
          assert forall j | 0 < j < |vs| :: vs[j] == rest[j - 1];
        }
      }
    }
  }

  /** Over a list whose conditions are all true or false: all, any, none and single are what they say. */
  lemma QuantifierMeans(ops: Ops, e: Expr, items: seq<Value>, ctx: Row, vs: seq<Value>)
    requires e.Quantifier? && Eval(ops, e.source, ctx) == Ok(ListV(items)) && Conditions(ops, e, items, ctx, vs)
    requires forall i | 0 <= i < |vs| :: vs[i].Boolean?
    ensures Eval(ops, e, ctx) == Ok(Boolean(
              match e.kind
              case All => forall i | 0 <= i < |vs| :: vs[i] == Boolean(true)
              case Any => Boolean(true) in vs
              case NoneOf => Boolean(true) !in vs
              case Single => exists i :: IsOnly(vs, Boolean(true), i)))
  {
    hide Conditions, CountItems, IsOnly, Occurrences;
    CountItemsIs(ops, e, items, ctx, vs);
    OccurrencesAre(vs, Boolean(true));
    OccurrencesAre(vs, Null);
    SameLength(ops, e, items, ctx, vs);
  }

  lemma SameLength(ops: Ops, e: Expr, items: seq<Value>, ctx: Row, vs: seq<Value>)
    requires e.Quantifier? && Conditions(ops, e, items, ctx, vs)
    ensures |vs| == |items|
  {
  }
}
