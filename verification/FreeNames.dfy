/** What the scope checker accepts (src/cypher/semantic.rs:224-316), said of the names that occur free. */
module FreeNames {
  import opened Frames
  import opened Ast
  import opened Scope

  /** The names that occur free in an expression: a comprehension, a reduce and a quantifier bind theirs in their
      bodies.  `deep` says whether those in the index of a dynamic access count. */
  ghost function Free(e: Expr, deep: bool): set<string>
    decreases e
  {
    match e
    case Lit(_) => {}
    case Var(name) => {name}
    case Param(_) => {}
    case Prop(base, _) => Free(base, deep)
    case Index(base, index) => Free(base, deep) + (if deep then Free(index, deep) else {})
    case Slice(base, from, to) =>
      Free(base, deep) + (if from.Some? then Free(from.value, deep) else {}) + (if to.Some? then Free(to.value, deep) else {})
    case Infix(_, l, r) => Free(l, deep) + Free(r, deep)
    case Unary(_, x) => Free(x, deep)
    case Not(x) => Free(x, deep)
    case IsNull(x) => Free(x, deep)
    case IsNotNull(x) => Free(x, deep)
    case ListOf(items) => set i, x | 0 <= i < |items| && x in Free(items[i], deep) :: x
    case MapOf(entries) => set i, x | 0 <= i < |entries| && x in Free(entries[i].1, deep) :: x
    case Call(_, args, _) => set i, x | 0 <= i < |args| && x in Free(args[i], deep) :: x
    case Wildcard => {}
    case Case(subject, alternatives, default) =>
      (if subject.Some? then Free(subject.value, deep) else {})
      + (set i, x | 0 <= i < |alternatives| && x in Free(alternatives[i].0, deep) + Free(alternatives[i].1, deep) :: x)
      + (if default.Some? then Free(default.value, deep) else {})
    case Comprehension(x, source, filter, projection) =>
      Free(source, deep)
      + ((if filter.Some? then Free(filter.value, deep) else {}) + (if projection.Some? then Free(projection.value, deep) else {}) - {x})
    case PatternComprehension(x, filter, result) =>
      (if filter.Some? then Free(filter.value, false) else {}) + Free(result, false) - (if x.Some? then {x.value} else {})
    case Reduce(acc, init, x, source, body) => Free(init, deep) + Free(source, deep) + (Free(body, deep) - {acc, x})
    case Quantifier(_, x, source, condition) => Free(source, deep) + (Free(condition, deep) - {x})
    case Exists => {}
  }

  /** Accepted by the checker, and, if `deep`, with the dynamic indices in scope too. */
  predicate Accepts(e: Expr, scope: set<string>, deep: bool) {
    Check(e, scope) && (deep ==> IndicesInScope(e, scope))
  }

  /** The checker accepts an expression exactly if the names free in it, other than in dynamic indices, are in scope;
      and the dynamic indices are in scope too exactly if all its free names are. */
  lemma CheckFree(e: Expr, scope: set<string>)
    ensures Check(e, scope) <==> Free(e, false) <= scope
    ensures Check(e, scope) && IndicesInScope(e, scope) <==> Free(e, true) <= scope
  {
    AcceptsFree(e, scope, false);
    AcceptsFree(e, scope, true);
  }

  lemma {:induction false} AcceptsFree(e: Expr, scope: set<string>, deep: bool)
    ensures Accepts(e, scope, deep) <==> Free(e, deep) <= scope
    decreases e
  {
    if Scoped(e) || e.PatternComprehension? {
      BindersFree(e, scope, deep);
    } else {
      PlainFree(e, scope, deep);
    }
  }

  lemma {:induction false} PlainFree(e: Expr, scope: set<string>, deep: bool)
    requires !Scoped(e) && !e.PatternComprehension?
    ensures Accepts(e, scope, deep) <==> Free(e, deep) <= scope
    decreases e, 0
  {
    match e
    case Prop(base, _) => AcceptsFree(base, scope, deep);
    case Index(base, index) =>
      AcceptsFree(base, scope, deep);
      AcceptsFree(index, scope, deep);
    case Slice(base, from, to) =>
      AcceptsFree(base, scope, deep);
      if from.Some? { AcceptsFree(from.value, scope, deep); }
      if to.Some? { AcceptsFree(to.value, scope, deep); }
    case Infix(_, l, r) => AcceptsFree(l, scope, deep); AcceptsFree(r, scope, deep);
    case Unary(_, x) => AcceptsFree(x, scope, deep);
    case Not(x) => AcceptsFree(x, scope, deep);
    case IsNull(x) => AcceptsFree(x, scope, deep);
    case IsNotNull(x) => AcceptsFree(x, scope, deep);
    case ListOf(_) => ItemsFree(e, scope, deep);
    case MapOf(entries) => EntriesFree(e, scope, deep);
    case Call(_, _, _) => ArgumentsFree(e, scope, deep);
    case _ =>
  }

  lemma {:induction false} ItemsFree(e: Expr, scope: set<string>, deep: bool)
    requires e.ListOf?
    ensures Accepts(e, scope, deep) <==> Free(e, deep) <= scope
    decreases e, 0, 0
  {
    forall i | 0 <= i < |e.items| ensures Accepts(e.items[i], scope, deep) <==> Free(e.items[i], deep) <= scope {
      AcceptsFree(e.items[i], scope, deep);
    }
  }

  lemma {:induction false} ArgumentsFree(e: Expr, scope: set<string>, deep: bool)
    requires e.Call?
    ensures Accepts(e, scope, deep) <==> Free(e, deep) <= scope
    decreases e, 0, 0
  {
    forall i | 0 <= i < |e.args| ensures Accepts(e.args[i], scope, deep) <==> Free(e.args[i], deep) <= scope {
      AcceptsFree(e.args[i], scope, deep);
    }
  }

  lemma {:induction false} EntriesFree(e: Expr, scope: set<string>, deep: bool)
    requires e.MapOf?
    ensures Accepts(e, scope, deep) <==> Free(e, deep) <= scope
    decreases e, 0, 0
  {
    forall i | 0 <= i < |e.entries| ensures Accepts(e.entries[i].1, scope, deep) <==> Free(e.entries[i].1, deep) <= scope {
      AcceptsFree(e.entries[i].1, scope, deep);
    }
  }

  lemma {:induction false} BindersFree(e: Expr, scope: set<string>, deep: bool)
    requires Scoped(e) || e.PatternComprehension?
    ensures Accepts(e, scope, deep) <==> Free(e, deep) <= scope
    decreases e, 0
  {
    if e.Case? {
      CaseFree(e, scope, deep);
    } else if e.Comprehension? {
      ComprehensionFree(e, scope, deep);
    } else if e.PatternComprehension? {
      PatternFree(e, scope, deep);
    } else if e.Reduce? {
      AcceptsFree(e.init, scope, deep);
      AcceptsFree(e.source, scope, deep);
      AcceptsFree(e.body, scope + {e.accumulator, e.variable}, deep);
    } else {
      AcceptsFree(e.source, scope, deep);
      AcceptsFree(e.condition, scope + {e.variable}, deep);
    }
  }

  lemma {:induction false} ComprehensionFree(e: Expr, scope: set<string>, deep: bool)
    requires e.Comprehension?
    ensures Accepts(e, scope, deep) <==> Free(e, deep) <= scope
    decreases e, 0, 0
  {
    AcceptsFree(e.source, scope, deep);
    if e.filter.Some? {
      AcceptsFree(e.filter.value, scope + {e.variable}, deep);
    }
    if e.projection.Some? {
      AcceptsFree(e.projection.value, scope + {e.variable}, deep);
    }
  }

  lemma {:induction false} PatternFree(e: Expr, scope: set<string>, deep: bool)
    requires e.PatternComprehension?
    ensures Accepts(e, scope, deep) <==> Free(e, deep) <= scope
    decreases e, 0, 0
  {
    var inner := if e.pathVariable.Some? then scope + {e.pathVariable.value} else scope;
    if e.filter.Some? {
      AcceptsFree(e.filter.value, inner, false);
    }
    AcceptsFree(e.result, inner, false);
  }

  lemma {:induction false} CaseFree(e: Expr, scope: set<string>, deep: bool)
    requires e.Case?
    ensures Accepts(e, scope, deep) <==> Free(e, deep) <= scope
    decreases e, 0, 0
  {
    if e.subject.Some? {
      AcceptsFree(e.subject.value, scope, deep);
    }
    if e.default.Some? {
      AcceptsFree(e.default.value, scope, deep);
    }
    forall i | 0 <= i < |e.alternatives|
      ensures Accepts(e.alternatives[i].0, scope, deep) <==> Free(e.alternatives[i].0, deep) <= scope
      ensures Accepts(e.alternatives[i].1, scope, deep) <==> Free(e.alternatives[i].1, deep) <= scope
    {
      AcceptsFree(e.alternatives[i].0, scope, deep);
      AcceptsFree(e.alternatives[i].1, scope, deep);
    }
    forall i, x | 0 <= i < |e.alternatives| && x in Free(e.alternatives[i].0, deep) + Free(e.alternatives[i].1, deep) ensures x in Free(e, deep) {
    }
    if Accepts(e, scope, deep) {
      forall x | x in Free(e, deep) ensures x in scope {
      }
    }
  }
}
