/** Exactly which printed expressions are read back (src/cypher/ast.rs:729-803,
    src/cypher/parser.rs:1004-1405): where the parts of an expression are, it is itself if and only if
    it is printable, and otherwise never. */
module ReadBack {
  import opened Frames
  import opened Ast
  import opened Grammar
  import opened Printing

  /** At every binding power, before whatever stops it. */
  ghost predicate ReadsBack(e: Expr) {
    forall rest: Tokens, minBp: nat | Stops(rest) :: ParseExpression(Print(e) + rest, minBp) == Parses(e, rest)
  }

  /** At no binding power, before nothing. */
  ghost predicate NeverReads(e: Expr) {
    forall rest: Tokens, minBp: nat | Stops(rest) :: ParseExpression(Print(e) + rest, minBp) != Parses(e, rest)
  }

  /** The expressions it is made of are printable; it has no graph pattern. */
  predicate PartsPrintable(e: Expr) {
    match e
    case Lit(_) => true
    case Var(_) => true
    case Param(_) => true
    case Prop(base, _) => Printable(base)
    case Index(base, index) => Printable(base) && Printable(index)
    case Slice(base, from, to) => Printable(base) && (from.Some? ==> Printable(from.value)) && (to.Some? ==> Printable(to.value))
    case Infix(_, l, r) => Printable(l) && Printable(r)
    case Unary(_, x) => Printable(x)
    case Not(x) => Printable(x)
    case IsNull(x) => Printable(x)
    case IsNotNull(x) => Printable(x)
    case ListOf(items) => forall i | 0 <= i < |items| :: Printable(items[i])
    case MapOf(entries) => forall i | 0 <= i < |entries| :: Printable(entries[i].1)
    case Call(_, args, _) => forall i | 0 <= i < |args| :: Printable(args[i])
    case Wildcard => true
    case Case(subject, alternatives, default) =>
      && (subject.Some? ==> Printable(subject.value)) && (default.Some? ==> Printable(default.value))
      && (forall i | 0 <= i < |alternatives| :: Printable(alternatives[i].0) && Printable(alternatives[i].1))
    case Comprehension(_, source, filter, projection) =>
      Printable(source) && (filter.Some? ==> Printable(filter.value)) && (projection.Some? ==> Printable(projection.value))
    case PatternComprehension(_, _, _) => false
    case Reduce(_, init, _, source, body) => Printable(init) && Printable(source) && Printable(body)
    case Quantifier(_, _, source, condition) => Printable(source) && Printable(condition)
    case Exists => false
  }

  /** An expression with printable parts is read back if and only if it is printable. */
  lemma ReadsBackIff(e: Expr)
    requires PartsPrintable(e)
    ensures ReadsBack(e) <==> Printable(e)
    ensures !Printable(e) ==> NeverReads(e)
  {
    hide Printable, PartsPrintable, Print, ParseExpression;
    if Printable(e) {
      forall rest: Tokens, minBp: nat | Stops(rest) ensures ParseExpression(Print(e) + rest, minBp) == Parses(e, rest) {
        RoundTrip(e, rest, minBp);
      }
    } else {
      NotPrintableNever(e);
      NothingStops();
      assert ParseExpression(Print(e) + [], 0) != Parses(e, []);
    }
  }

  /** An operator is read back if and only if its left operand is not IS NULL; on its right it may be. */
  lemma OperatorIff(op: InfixOp, l: Expr, r: Expr)
    requires !op.Regex? && Printable(l) && Printable(r)
    ensures ReadsBack(Infix(op, l, r)) <==> IsLeft(l)
  {
    hide ReadsBack, NeverReads;
    ReadsBackIff(Infix(op, l, r));
  }

  /** A minus, if and only if its operand is read whole and is not a number without a sign. */
  lemma MinusIff(x: Expr)
    requires Printable(x)
    ensures ReadsBack(Unary(Negate, x)) <==> Whole(x) && !Unsigned(x)
  {
    hide ReadsBack, NeverReads;
    ReadsBackIff(Unary(Negate, x));
  }

  /** A slice, if and only if its base is an operand without prefix and its lower bound, if there is one,
      ends before the dots. */
  lemma SliceIff(base: Expr, from: Option<Expr>, to: Option<Expr>)
    requires Printable(base) && (from.Some? ==> Printable(from.value)) && (to.Some? ==> Printable(to.value))
    ensures ReadsBack(Slice(base, from, to)) <==> IsBase(base) && (from.Some? ==> IsBound(from.value))
  {
    hide ReadsBack, NeverReads;
    ReadsBackIff(Slice(base, from, to));
  }

  /** A property access or an index, if and only if its base is an operand without prefix. */
  lemma AccessIff(base: Expr, key: string, index: Expr)
    requires Printable(base) && Printable(index) && !Reserved(key)
    ensures ReadsBack(Prop(base, key)) <==> IsBase(base)
    ensures ReadsBack(Index(base, index)) <==> IsBase(base)
  {
    hide ReadsBack, NeverReads, Reserved;
    ReadsBackIff(Prop(base, key));
    ReadsBackIff(Index(base, index));
  }

  lemma NothingStops()
    ensures Stops([])
  {
  }

  lemma NotPrintableNever(e: Expr)
    requires PartsPrintable(e) && !Printable(e)
    ensures NeverReads(e)
  {
    hide Printable, PartsPrintable, NeverReads;
    match e
    case Lit(_) => LitNever(e);
    case Var(_) => VarNever(e);
    case Param(_) => AlwaysPrintable(e);
    case Prop(_, _) => ChainNever(e);
    case Index(_, _) => ChainNever(e);
    case Slice(_, _, _) => ChainNever(e);
    case Infix(_, _, _) => InfixNever(e);
    case Unary(_, _) => UnaryNever(e);
    case Not(_) => AlwaysPrintable(e);
    case IsNull(_) => AlwaysPrintable(e);
    case IsNotNull(_) => AlwaysPrintable(e);
    case ListOf(_) => AlwaysPrintable(e);
    case MapOf(_) => MapNever(e);
    case Call(_, _, _) => CallNever(e);
    case Wildcard => AlwaysPrintable(e);
    case Case(_, _, _) => CaseNever(e);
    case Comprehension(_, _, _, _) => ComprehensionNever(e);
    case Reduce(_, _, _, _, _) => ReduceNever(e);
    case Quantifier(_, _, _, _) => QuantifierNever(e);
    case PatternComprehension(_, _, _) => AlwaysPrintable(e);
    case Exists => AlwaysPrintable(e);
  }

  lemma AlwaysPrintable(e: Expr)
    requires PartsPrintable(e)
    requires e.Param? || e.Not? || e.IsNull? || e.IsNotNull? || e.ListOf? || e.Wildcard? || e.PatternComprehension? || e.Exists?
    ensures Printable(e)
  {
  }

  // ---------------------------------------------------------------- what a parse ends with

  lemma {:induction false} InfixLoopTop(lhs: Expr, ts: Tokens, minBp: nat)
    ensures var p := InfixLoop(lhs, ts, minBp); p.Parses? ==> p == Parses(lhs, ts) || p.value.Infix?
    decreases |ts|
  {
    hide ParseExpression, BindingPower;
    if InfixOf(Peek(ts)).InfixOp_? && BindingPower(InfixOf(Peek(ts)).op).0 >= minBp {
      var op := InfixOf(Peek(ts)).op;
      var after := if (op.StartsWith? || op.EndsWith?) && |ts| >= 2 then ts[2..] else ts[1..];
      var p := ParseExpression(after, BindingPower(op).1);
      if p.Parses? {
        InfixLoopTop(Infix(op, lhs, p.value), p.rest, minBp);
      }
    }
  }

  lemma {:induction false} NullLoopTop(lhs: Expr, ts: Tokens)
    ensures var p := NullLoop(lhs, ts); p.Parses? ==> p == Parses(lhs, ts) || p.value.IsNull? || p.value.IsNotNull?
    decreases |ts|
  {
    if At(ts, Is) {
      if At(ts[1..], NotKw) && AtNull(ts[2..]) {
        NullLoopTop(IsNotNull(lhs), ts[3..]);
      } else if AtNull(ts[1..]) {
        NullLoopTop(IsNull(lhs), ts[2..]);
      }
    }
  }

  lemma SubscriptTop(lhs: Expr, ts: Tokens)
    ensures var p := ParseSubscript(lhs, ts); p.Parses? ==> p.value == lhs || IsChain(p.value)
  {
    hide ParseExpression;
  }

  lemma {:induction false} PostfixTop(lhs: Expr, ts: Tokens)
    ensures var p := ParsePostfix(lhs, ts); p.Parses? ==> p.value == lhs || IsChain(p.value)
    decreases |ts|
  {
    hide ParseExpression;
    if At(ts, Dot) && Peek(ts[1..]).Ident? {
      PostfixTop(Prop(lhs, Peek(ts[1..]).name), ts[2..]);
    } else if At(ts, LBracket) {
      SubscriptTop(lhs, ts[1..]);
      hide ParseSubscript;
      var p := ParseSubscript(lhs, ts[1..]);
      if p.Parses? {
        PostfixTop(p.value, p.rest);
      }
    }
  }

  /** An expression that is neither an operator nor IS NULL is an operand. */
  lemma UnaryTop(ts: Tokens, minBp: nat)
    ensures var p := ParseExpression(ts, minBp); p.Parses? && !p.value.Infix? && IsLeft(p.value) ==> ParseUnary(ts) == p
  {
    hide ParseUnary, InfixLoop, NullLoop;
    var u := ParseUnary(ts);
    if u.Parses? {
      InfixLoopTop(u.value, u.rest, minBp);
      var p := InfixLoop(u.value, u.rest, minBp);
      if p.Parses? {
        NullLoopTop(p.value, p.rest);
      }
    }
  }

  /** ... and one that has neither prefix nor postfix is a primary. */
  lemma PrimaryTop(ts: Tokens, minBp: nat, e: Expr)
    requires !At(ts, NotKw) && !At(ts, Dash) && !e.Infix? && IsBase(e) && !IsChain(e)
    ensures var p := ParseExpression(ts, minBp);
            p.Parses? && p.value == e ==> ParsePrimary(ts).Parses? && ParsePrimary(ts).value == e
  {
    hide ParseExpression, ParsePrimary, ParsePostfix;
    UnaryTop(ts, minBp);
    var q := ParsePrimary(ts);
    if q.Parses? {
      PostfixTop(q.value, q.rest);
    }
  }

  lemma PrimaryFails(ts: Tokens, minBp: nat)
    requires !At(ts, NotKw) && !At(ts, Dash) && ParsePrimary(ts).Fails?
    ensures ParseExpression(ts, minBp).Fails?
  {
    hide ParsePrimary;
  }

  /** Something else prints the same, and is read instead. */
  lemma SameText(e: Expr, other: Expr)
    requires Printable(other) && Print(other) == Print(e) && other != e
    ensures NeverReads(e)
  {
    hide Printable, Print, ParseExpression;
    forall rest: Tokens, minBp: nat | Stops(rest) ensures ParseExpression(Print(e) + rest, minBp) != Parses(e, rest) {
      RoundTrip(other, rest, minBp);
    }
  }

  // ---------------------------------------------------------------- literals and names

  lemma LocalNames()
    ensures Upper("localtime") == "LOCALTIME" && Upper("localdatetime") == "LOCALDATETIME"
  {
  }

  lemma LocalCall(name: string, s: string)
    requires name == "localtime" || name == "localdatetime"
    ensures Printable(Call(name, [Lit(Text(s))], false))
    ensures Print(Call(name, [Lit(Text(s))], false)) == [Ident(name), Sym(LParen), LitTok(Text(s)), Sym(RParen)]
  {
    hide Upper, Minus, OpTokens;
    LocalNames();
    var args := [Lit(Text(s))];
    assert PrintItems(args) == [LitTok(Text(s))];
    assert Printable(args[0]);
  }

  lemma LitNever(e: Expr)
    requires e.Lit? && !Printable(e)
    ensures NeverReads(e)
  {
    hide NeverReads;
    match e.literal
    case Float(f) => SameText(e, Lit(Int(f.Floor)));
    case LocalTime(s) => LocalCall("localtime", s); SameText(e, Call("localtime", [Lit(Text(s))], false));
    case LocalDateTime(s) => LocalCall("localdatetime", s); SameText(e, Call("localdatetime", [Lit(Text(s))], false));
    case _ =>
  }

  /** A special word starts something else. */
  lemma SpecialIdent(ts: Tokens)
    requires ts != [] && ts[0].Ident? && Special(ts[0].name)
    ensures var p := ParseIdent(ts); p.Parses? ==> !p.value.Var? && !p.value.Call?
  {
    hide Upper, ParseCase, ParseReduce, ParseQuantifier, ParsePostfix, ParseArguments;
    var rest := ts[1..];
    CaseTop(if At(rest, CaseKw) then rest[1..] else rest);
    ReduceTop(rest);
    if QuantifierOf(ts[0].name).Some? {
      QuantifierTop(QuantifierOf(ts[0].name).value, rest);
    }
  }

  lemma CaseTop(ts: Tokens)
    ensures ParseCase(ts).Parses? ==> ParseCase(ts).value.Case?
  {
    hide ParseExpression, ParseAlternatives, ParseOptional;
  }

  lemma ReduceTop(ts: Tokens)
    ensures ParseReduce(ts).Parses? ==> ParseReduce(ts).value.Reduce?
  {
    hide ParseExpression, ParseBinder, NameBetween;
  }

  lemma QuantifierTop(kind: QuantifierKind, ts: Tokens)
    ensures ParseQuantifier(kind, ts).Parses? ==> ParseQuantifier(kind, ts).value.Quantifier?
  {
    hide ParseBinder;
  }

  lemma OtherFails(text: string, ts: Tokens, minBp: nat)
    ensures ParseExpression([OtherTok(text)] + ts, minBp).Fails?
  {
    PrimaryFails([OtherTok(text)] + ts, minBp);
  }

  lemma VarNever(e: Expr)
    requires e.Var? && !Printable(e)
    ensures NeverReads(e)
  {
    hide Special, Reserved, ParseExpression;
    forall rest: Tokens, minBp: nat | Stops(rest) ensures ParseExpression(Print(e) + rest, minBp) != Parses(e, rest) {
      if Reserved(e.name) {
        OtherFails(e.name, rest, minBp);
      } else {
        var ts := Print(e) + rest;
        SpecialIdent(ts);
        PrimaryTop(ts, minBp, e);
      }
    }
  }

  // ---------------------------------------------------------------- postfixes

  lemma ChainNever(e: Expr)
    requires IsChain(e) && PartsPrintable(e) && !Printable(e)
    ensures NeverReads(e)
  {
    hide Printable, PartsPrintable, Print, ParseExpression, Post;
    BaseOf(e);
    forall rest: Tokens, minBp: nat | Stops(rest) ensures ParseExpression(Print(e) + rest, minBp) != Parses(e, rest) {
      var after := Post(e) + rest;
      assert Print(e) + rest == Print(e.base) + after;
      if e.base.IsNull? || e.base.IsNotNull? {
        NullReads(e.base, after, minBp);
        NotIs(e.base, after);
      } else if e.base.Unary? {
        DashTop(e.base, after, minBp);
      } else {
        UnaryRoundTrip(e.base, after);
        PostNever(e, rest);
        UnaryTop(Print(e) + rest, minBp);
      }
    }
  }

  lemma BaseOf(e: Expr)
    requires IsChain(e) && PartsPrintable(e)
    ensures Printable(e.base) && Print(e) == Print(e.base) + Post(e)
    ensures Post(e) != [] && (Post(e)[0] == Sym(Dot) || Post(e)[0] == Sym(LBracket))
  {
    hide Printable, Print;
    ChainParts(e);
    PostHead(e);
  }

  lemma NotIs(e: Expr, ts: Tokens)
    requires !At(ts, Is)
    ensures NullLoop(e, ts) == Parses(e, ts)
  {
  }

  /** What starts with a minus is no postfix. */
  lemma DashTop(b: Expr, ts: Tokens, minBp: nat)
    requires b.Unary? && Printable(b)
    ensures var p := ParseExpression(Print(b) + ts, minBp); p.Parses? ==> !IsChain(p.value)
  {
    hide Printable, Print, ParseExpression, ParsePrimary;
    MinusPlain(b);
    assert (Print(b) + ts)[0] == Sym(Dash);
    UnaryTop(Print(b) + ts, minBp);
  }

  /** The postfix loop stops at a keyword after a dot, and at the dots after an operand. */
  lemma PostNever(e: Expr, rest: Tokens)
    requires IsChain(e) && PartsPrintable(e) && !Printable(e) && IsBase(e.base)
    ensures ParsePostfix(e.base, Post(e) + rest).Fails?
  {
    if e.Prop? {
      hide Print;
      var after := Post(e) + rest;
      assert after[1..][0] == OtherTok(e.key);
    } else if e.Slice? {
      BoundNever(e, rest);
    }
  }

  lemma BoundNever(e: Expr, rest: Tokens)
    requires e.Slice? && e.from.Some? && Printable(e.from.value) && !IsBound(e.from.value)
    ensures ParsePostfix(e.base, Post(e) + rest).Fails?
  {
    hide Printable, Print, PrintOption, ParseExpression, Starter;
    var f := e.from.value;
    var t1 := [Sym(Dot), Sym(Dot)] + (PrintOption([], e.to) + (S(RBracket) + rest));
    SomePrints(f, t1);
    assert Post(e) + rest == S(LBracket) + (Print(f) + t1);
    assert (S(LBracket) + (Print(f) + t1))[1..] == Print(f) + t1;
    PrintHead(f, t1);
    OpenerNot((Print(f) + t1)[0]);
    DotsTaken(f, t1);
  }

  /** An operand takes the first dot for a property access. */
  lemma DotsTaken(f: Expr, ts: Tokens)
    requires Printable(f) && !IsBound(f) && At(ts, Dot) && At(ts[1..], Dot)
    ensures ParseExpression(Print(f) + ts, 0).Fails?
  {
    hide Printable, Print, ParsePrimary;
    assert ParsePostfix(f, ts).Fails?;
    if f.Unary? {
      MinusPlain(f);
      assert Print(f) + ts == S(Dash) + (Print(f.operand) + ts);
      assert (S(Dash) + (Print(f.operand) + ts))[1..] == Print(f.operand) + ts;
      NamedTrip(f.operand, ts);
      assert ParsePostfix(f.operand, ts).Fails?;
    } else {
      UnaryRoundTrip(f, ts);
    }
  }

  // ---------------------------------------------------------------- operators

  lemma InfixNever(e: Expr)
    requires e.Infix? && PartsPrintable(e) && !Printable(e)
    ensures NeverReads(e)
  {
    hide Printable, Print, ParseExpression;
    InfixOperands(e);
    forall rest: Tokens, minBp: nat | Stops(rest) ensures ParseExpression(Print(e) + rest, minBp) != Parses(e, rest) {
      InfixRejected(e, rest, minBp);
    }
  }

  /** A regular expression, and every operator with IS NULL on its left: the text that is printed for it
      is rejected, whatever follows. */
  lemma InfixRejected(e: Expr, rest: Tokens, minBp: nat)
    requires e.Infix? && Printable(e.left) && (IsLeft(e.left) ==> e.op == Regex)
    ensures ParseExpression(Print(e) + rest, minBp).Fails?
  {
    hide Printable, Print, ParseExpression, ParsePrimary;
    var t1 := Print(e.right) + (S(RParen) + rest);
    var t2 := Print(e.left) + (OpTokens(e.op) + t1);
    InfixTokens(e, rest);
    if IsLeft(e.left) {
      RegexFails(e.left, t1);
    } else {
      NullThenOperator(e.left, e.op, t1);
    }
    ParenFails(t2);
    PrimaryFails(Print(e) + rest, minBp);
  }

  lemma InfixOperands(e: Expr)
    requires e.Infix? && PartsPrintable(e) && !Printable(e)
    ensures Printable(e.left) && Printable(e.right) && (IsLeft(e.left) ==> e.op == Regex)
  {
  }

  lemma InfixTokens(e: Expr, rest: Tokens)
    requires e.Infix?
    ensures Print(e) + rest == S(LParen) + (Print(e.left) + (OpTokens(e.op) + (Print(e.right) + (S(RParen) + rest))))
  {
    hide OpTokens;
  }

  lemma ParenFails(ts: Tokens)
    requires ParseExpression(ts, 0).Fails? || !At(ParseExpression(ts, 0).rest, RParen)
    ensures ParsePrimary(S(LParen) + ts).Fails?
  {
    hide ParseExpression;
    assert (S(LParen) + ts)[1..] == ts;
  }

  /** IS NULL is read after the operators, and no operator after it. */
  lemma NullThenOperator(l: Expr, op: InfixOp, ts: Tokens)
    requires Printable(l) && !IsLeft(l)
    ensures var p := ParseExpression(Print(l) + (OpTokens(op) + ts), 0); p.Parses? && !At(p.rest, RParen)
  {
    hide Printable, Print, ParseExpression;
    var after := OpTokens(op) + ts;
    OpStarts(op);
    assert after[0] == OpTokens(op)[0];
    NullReads(l, after, 0);
    NotIs(l, after);
  }

  lemma OpStarts(op: InfixOp)
    ensures OpTokens(op) != [] && OpTokens(op)[0] != Sym(RParen) && OpTokens(op)[0] != Sym(Is)
  {
  }

  lemma RegexFails(l: Expr, ts: Tokens)
    requires Printable(l) && IsLeft(l)
    ensures ParseExpression(Print(l) + (OpTokens(Regex) + ts), 0).Fails?
  {
    hide Printable, Print, ParseUnary;
    var after := OpTokens(Regex) + ts;
    assert after == [Sym(EqSign)] + ([OtherTok("~")] + ts);
    assert after[1..] == [OtherTok("~")] + ts;
    LeftReads(l, after);
    OtherFails("~", ts, BindingPower(Eq).1);
  }

  lemma UnaryNever(e: Expr)
    requires e.Unary? && PartsPrintable(e) && !Printable(e)
    ensures NeverReads(e)
  {
    hide Printable, Print, ParseExpression, ParsePrimary, Minus;
    UnaryOperand(e);
    forall rest: Tokens, minBp: nat | Stops(rest) ensures ParseExpression(Print(e) + rest, minBp) != Parses(e, rest) {
      var ts := Print(e) + rest;
      UnaryTop(ts, minBp);
      if e.unary == Complement {
        ComplementPrints(e);
        assert ts[0] == Sym(NotKw);
      } else {
        MinusCases(e, rest);
        if ts[0] != Sym(Dash) {
          NumberFirst(ts);
        } else {
          assert ts[1..] == Print(e.operand) + rest;
          PrimaryPart(e.operand, rest);
        }
      }
    }
  }

  lemma UnaryOperand(e: Expr)
    requires e.Unary? && PartsPrintable(e) && !Printable(e)
    ensures Printable(e.operand) && (e.unary == Complement || !Whole(e.operand) || Unsigned(e.operand))
  {
  }

  lemma ComplementPrints(e: Expr)
    requires e.Unary? && e.unary == Complement
    ensures Print(e) == S(NotKw) + Print(e.operand)
  {
  }

  /** The minus is a token of its own, or part of a number. */
  lemma MinusCases(e: Expr, rest: Tokens)
    requires e.Unary? && e.unary == Negate && Printable(e.operand)
    ensures var ts := Print(e) + rest;
            ts != [] && (if ts[0] == Sym(Dash) then ts == S(Dash) + (Print(e.operand) + rest) && !Unsigned(e.operand)
                         else ts[0].LitTok?)
  {
    hide Printable;
    var x := e.operand;
    if x.Lit? {
      LitPrints(x);
    }
    hide Print;
    MinusPrints(e);
    assert Minus(Print(x)) == S(Dash) + Print(x) ==> Print(e) + rest == S(Dash) + (Print(x) + rest);
  }

  lemma LitPrints(x: Expr)
    requires x.Lit? && Printable(x)
    ensures Print(x) == PrintLiteral(x.literal) && PrintableLiteral(x.literal)
  {
  }

  lemma MinusPrints(e: Expr)
    requires e.Unary? && e.unary == Negate
    ensures Print(e) == Minus(Print(e.operand))
  {
  }

  lemma NumberFirst(ts: Tokens)
    requires ts != [] && ts[0].LitTok?
    ensures var p := ParseUnary(ts); p.Parses? ==> !p.value.Unary?
  {
    hide ParsePostfix;
    PostfixTop(Lit(ts[0].literal), ts[1..]);
  }

  /** After a minus, a parenthesis, a list or the like is read without its postfixes, and nothing is read
      with its IS NULL. */
  lemma {:induction false} PrimaryPart(x: Expr, rest: Tokens)
    requires Printable(x) && (x.Var? ==> !At(rest, LParen))
    ensures var p := ParsePrimary(Print(x) + rest);
            p.Parses? ==> IsBase(p.value) && (IsChain(x) && !Named(x) ==> !IsChain(p.value))
    decreases x
  {
    hide Printable, Print, ParsePrimary, ParsePostfix;
    if x.IsNull? || x.IsNotNull? {
      NullParts(x);
      var after := NullTokens(x) + rest;
      assert Print(x) + rest == Print(x.operand) + after;
      assert after[0] == Sym(Is);
      PrimaryPart(x.operand, after);
    } else if x.Unary? {
      MinusPlain(x);
      assert (Print(x) + rest)[0] == Sym(Dash);
      DashPrimary(Print(x) + rest);
    } else if Named(x) {
      NamedTrip(x, rest);
      PostfixTop(x, rest);
    } else if IsChain(x) {
      ChainParts(x);
      PostHead(x);
      var after := Post(x) + rest;
      assert Print(x) + rest == Print(x.base) + after;
      assert after[0] == Post(x)[0];
      assert IsBase(x.base) && !Named(x.base);
      PrimaryPart(x.base, after);
      if !IsChain(x.base) {
        ClosedTrip(x.base, after);
      }
    } else {
      ClosedTrip(x, rest);
    }
  }

  lemma DashPrimary(ts: Tokens)
    requires At(ts, Dash)
    ensures ParsePrimary(ts).Fails?
  {
  }

  // ---------------------------------------------------------------- maps, calls, CASE and binders

  lemma {:induction false} EntriesNever(entries: seq<(string, Expr)>, rest: Tokens)
    requires (forall i | 0 <= i < |entries| :: Printable(entries[i].1)) && Stops(rest) && !At(rest, Comma)
    requires exists i | 0 <= i < |entries| :: Reserved(entries[i].0)
    ensures ParseEntries(PrintEntries(entries) + rest).Fails?
    decreases |entries|
  {
    hide Printable, Stops, Reserved, ParseExpression;
    if Reserved(entries[0].0) {
      KeywordKey(entries, rest);
    } else {
      var i :| 0 <= i < |entries| && Reserved(entries[i].0);
      assert entries[1..][i - 1] == entries[i];
      var t1 := PrintEntries(entries[1..]) + rest;
      assert PrintEntries(entries) + rest == PrintEntry(entries[0]) + (S(Comma) + t1);
      CommaStops(t1);
      EntryTrip(entries[0], S(Comma) + t1);
      EntriesNever(entries[1..], rest);
      assert (S(Comma) + t1)[1..] == t1;
    }
  }

  lemma KeywordKey(entries: seq<(string, Expr)>, rest: Tokens)
    requires entries != [] && Reserved(entries[0].0)
    ensures ParseEntries(PrintEntries(entries) + rest).Fails?
    ensures PrintEntries(entries) + rest != [] && (PrintEntries(entries) + rest)[0].OtherTok?
  {
    hide Print, ParseExpression, Reserved;
    assert (PrintEntries(entries) + rest)[0] == Word(entries[0].0);
  }

  lemma MapNever(e: Expr)
    requires e.MapOf? && PartsPrintable(e) && !Printable(e)
    ensures NeverReads(e)
  {
    hide Reserved, ParseExpression, PrintEntries, ParseEntries;
    forall rest: Tokens, minBp: nat | Stops(rest) ensures ParseExpression(Print(e) + rest, minBp) != Parses(e, rest) {
      var t1 := PrintEntries(e.entries) + (S(RBrace) + rest);
      var ts := S(LBrace) + t1;
      assert Print(e) + rest == ts;
      ClosesStops(RBrace, rest);
      EntriesNever(e.entries, S(RBrace) + rest);
      EntriesStart(e.entries, S(RBrace) + rest);
      assert ts[1..] == t1;
      assert ParsePrimary(ts).Fails?;
      PrimaryFails(ts, minBp);
    }
  }

  lemma EntriesStart(entries: seq<(string, Expr)>, rest: Tokens)
    requires entries != []
    ensures !At(PrintEntries(entries) + rest, RBrace)
  {
    hide Print, Reserved;
    var first := PrintEntry(entries[0]);
    assert first[0] == Word(entries[0].0);
    assert PrintEntries(entries)[0] == first[0];
    assert (PrintEntries(entries) + rest)[0] == first[0];
  }

  lemma CallNever(e: Expr)
    requires e.Call? && PartsPrintable(e) && !Printable(e)
    ensures NeverReads(e)
  {
    hide Printable, Reserved, Special, Temporal, StarFirst, ParseExpression, ParsePrimary, NeverReads;
    CallFlaw(e);
    if ReadsAsLiteral(e.name, e.args, e.distinct) {
      LiteralCall(e);
      SameText(e, Lit(Temporal(e.name, e.args[0].literal.s)));
    } else {
      CallNeverReads(e);
    }
  }

  lemma CallFlaw(e: Expr)
    requires e.Call? && PartsPrintable(e) && !Printable(e)
    ensures Special(e.name) || Reserved(e.name) || ReadsAsLiteral(e.name, e.args, e.distinct) || !ArgumentsRead(e.args)
    ensures forall i | 0 <= i < |e.args| :: Printable(e.args[i])
  {
    hide Special, Reserved, ReadsAsLiteral, ArgumentsRead;
  }

  lemma LiteralCall(e: Expr)
    requires e.Call? && ReadsAsLiteral(e.name, e.args, e.distinct)
    ensures var other := Lit(Temporal(e.name, e.args[0].literal.s)); Printable(other) && Print(other) == Print(e)
  {
    hide Upper;
  }

  lemma CallNeverReads(e: Expr)
    requires e.Call? && !ReadsAsLiteral(e.name, e.args, e.distinct) && forall i | 0 <= i < |e.args| :: Printable(e.args[i])
    requires Special(e.name) || Reserved(e.name) || !ArgumentsRead(e.args)
    ensures NeverReads(e)
  {
    hide Printable, Reserved, Special, ReadsAsLiteral, ParseExpression, ParsePrimary, ParseIdent, Print, ArgumentsRead;
    forall rest: Tokens, minBp: nat | Stops(rest) ensures ParseExpression(Print(e) + rest, minBp) != Parses(e, rest) {
      var t1 := (if e.distinct then S(Distinct) else []) + (PrintItems(e.args) + (S(RParen) + rest));
      var ts := [Word(e.name), Sym(LParen)] + t1;
      CallTokens(e, rest);
      if Reserved(e.name) {
        assert ts == [OtherTok(e.name)] + (S(LParen) + t1);
        OtherFails(e.name, S(LParen) + t1, minBp);
      } else {
        assert ts[0] == Ident(e.name) && ts[1..] == S(LParen) + t1;
        IdentPrimary(ts);
        PrimaryTop(ts, minBp, e);
        if Special(e.name) {
          SpecialIdent(ts);
        } else {
          StarOpens(e, ts, rest);
        }
      }
    }
  }

  lemma IdentPrimary(ts: Tokens)
    requires ts != [] && ts[0].Ident?
    ensures ParsePrimary(ts) == ParseIdent(ts)
  {
    hide ParseIdent;
  }

  lemma CallTokens(e: Expr, rest: Tokens)
    requires e.Call? && !ReadsAsLiteral(e.name, e.args, e.distinct)
    ensures Print(e) + rest ==
            [Word(e.name), Sym(LParen)] + ((if e.distinct then S(Distinct) else []) + (PrintItems(e.args) + (S(RParen) + rest)))
  {
    hide PrintItems, ReadsAsLiteral, Word;
  }

  /** A `*` that opens the arguments is taken for all of them. */
  lemma StarOpens(e: Expr, ts: Tokens, rest: Tokens)
    requires e.Call? && !Special(e.name) && !ArgumentsRead(e.args) && forall i | 0 <= i < |e.args| :: Printable(e.args[i])
    requires ts == [Ident(e.name), Sym(LParen)] + ((if e.distinct then S(Distinct) else []) + (PrintItems(e.args) + (S(RParen) + rest)))
    ensures var p := ParseIdent(ts); p.Parses? ==> p.value != e
  {
    hide Printable, PrintItems, ParseItems, ParsePostfix, Upper, Starter;
    var t1 := PrintItems(e.args) + (S(RParen) + rest);
    ItemsHead(e.args, S(RParen) + rest);
    var t2 := (if e.distinct then S(Distinct) else []) + t1;
    assert ts[1..][1..] == t2;
    assert if e.distinct then t2[1..] == t1 else t2 == t1;
    assert ParseArgumentList(t1) == Parses([Wildcard], t1[1..]);
    var p := ParseArguments(t2);
    if p.Parses? {
      assert p.value.0 == [Wildcard];
      PostfixTop(Call(e.name, p.value.0, p.value.1), p.rest);
    }
  }

  lemma CaseNever(e: Expr)
    requires e.Case? && PartsPrintable(e) && !Printable(e)
    ensures NeverReads(e)
  {
    hide Printable, Print, ParseExpression, ParsePrimary;
    CaseFlaw(e);
    forall rest: Tokens, minBp: nat | Stops(rest) ensures ParseExpression(Print(e) + rest, minBp) != Parses(e, rest) {
      var t1 := PrintOption(S(Else), e.default) + (S(End) + rest);
      CaseTokens(e, rest);
      assert Print(e) + rest == S(CaseKw) + t1 by {
        NonePrints(PrintAlternatives([]) + t1);
        assert PrintAlternatives([]) + t1 == t1;
      }
      OptionHead(Else, e.default, S(End) + rest);
      EndFails(t1);
      PrimaryFails(Print(e) + rest, minBp);
    }
  }

  lemma CaseFlaw(e: Expr)
    requires e.Case? && PartsPrintable(e) && !Printable(e)
    ensures e.subject == None && e.alternatives == []
  {
  }

  lemma EndFails(ts: Tokens)
    requires Peek(ts) == Sym(Else) || Peek(ts) == Sym(End)
    ensures ParsePrimary(S(CaseKw) + ts).Fails?
  {
    hide ParseExpression;
    assert (S(CaseKw) + ts)[1..] == ts;
    assert ParsePrimary(ts).Fails?;
    PrimaryFails(ts, 0);
  }

  lemma ComprehensionNever(e: Expr)
    requires e.Comprehension? && PartsPrintable(e) && !Printable(e)
    ensures NeverReads(e)
  {
    hide Printable, PartsPrintable, Reserved, ParseExpression, ParsePrimary, Print;
    ComprehensionFlaw(e);
    forall rest: Tokens, minBp: nat | Stops(rest) ensures ParseExpression(Print(e) + rest, minBp) != Parses(e, rest) {
      var ts := ComprehensionText(e, rest);
      ListFails(e.variable, ts);
      PrimaryFails(Print(e) + rest, minBp);
    }
  }

  lemma ComprehensionFlaw(e: Expr)
    requires e.Comprehension? && PartsPrintable(e) && !Printable(e)
    ensures Reserved(e.variable)
  {
    hide Reserved;
  }

  lemma ComprehensionText(e: Expr, rest: Tokens) returns (ts: Tokens)
    requires e.Comprehension? && Reserved(e.variable)
    ensures Print(e) + rest == S(LBracket) + ([OtherTok(e.variable)] + ts)
  {
    hide PrintOption, Reserved;
    ts := (Print(e) + rest)[2..];
  }

  lemma ListFails(text: string, ts: Tokens)
    ensures ParsePrimary(S(LBracket) + ([OtherTok(text)] + ts)).Fails?
  {
    hide ParseExpression, ParseComprehension;
    var after := [OtherTok(text)] + ts;
    assert (S(LBracket) + after)[1..] == after;
    OtherFails(text, ts, 0);
    assert ParseItems(after).Fails?;
    assert ParseList(after).Fails?;
  }

  lemma ReduceNever(e: Expr)
    requires e.Reduce? && PartsPrintable(e) && !Printable(e)
    ensures NeverReads(e)
  {
    hide Printable, PartsPrintable, Reserved, ParseExpression, ParsePrimary, ParseReduce, Print;
    ReduceFlaw(e);
    forall rest: Tokens, minBp: nat | Stops(rest) ensures ParseExpression(Print(e) + rest, minBp) != Parses(e, rest) {
      var t5 := [Sym(Comma), Word(e.variable), Sym(InKw)] + (Print(e.source) + (S(Pipe) + (Print(e.body) + (S(RParen) + rest))));
      var ts := [Sym(LParen), Word(e.accumulator), Sym(EqSign)] + (Print(e.init) + t5);
      ReduceText(e, rest);
      ReduceFails(e, ts, t5);
      ReduceStarts(ts);
      PrimaryFails([Ident("reduce")] + ts, minBp);
    }
  }

  lemma ReduceText(e: Expr, rest: Tokens)
    requires e.Reduce?
    ensures Print(e) + rest ==
            [Ident("reduce")] + ([Sym(LParen), Word(e.accumulator), Sym(EqSign)]
            + (Print(e.init) + ([Sym(Comma), Word(e.variable), Sym(InKw)]
            + (Print(e.source) + (S(Pipe) + (Print(e.body) + (S(RParen) + rest)))))))
  {
    hide Word;
  }

  lemma ReduceFlaw(e: Expr)
    requires e.Reduce? && PartsPrintable(e) && !Printable(e)
    ensures Printable(e.init) && (Reserved(e.accumulator) || Reserved(e.variable))
  {
  }

  lemma ReduceFails(e: Expr, ts: Tokens, t5: Tokens)
    requires e.Reduce? && Printable(e.init) && (Reserved(e.accumulator) || Reserved(e.variable))
    requires ts == [Sym(LParen), Word(e.accumulator), Sym(EqSign)] + (Print(e.init) + t5)
    requires |t5| >= 2 && t5[0] == Sym(Comma) && t5[1] == Word(e.variable)
    ensures ParseReduce(ts).Fails?
  {
    hide Printable, Reserved, Print, ParseExpression;
    if Reserved(e.accumulator) {
      assert ts[1..][0] == OtherTok(e.accumulator);
    } else {
      assert ts[3..] == Print(e.init) + t5;
      assert t5 == S(Comma) + t5[1..];
      CommaStops(t5[1..]);
      RoundTrip(e.init, t5, 0);
      assert t5[1..][0] == OtherTok(e.variable);
      assert ParseBinder(Comma, Pipe, t5).Fails?;
    }
  }

  lemma ReduceStarts(ts: Tokens)
    ensures ParsePrimary([Ident("reduce")] + ts) == ParseReduce(ts)
  {
    hide ParseReduce, Upper;
    UpperReduce();
    assert ([Ident("reduce")] + ts)[1..] == ts;
  }

  lemma QuantifierNever(e: Expr)
    requires e.Quantifier? && PartsPrintable(e) && !Printable(e)
    ensures NeverReads(e)
  {
    hide Printable, PartsPrintable, Reserved, ParseExpression, ParsePrimary, QuantifierName, Print;
    QuantifierFlaw(e);
    forall rest: Tokens, minBp: nat | Stops(rest) ensures ParseExpression(Print(e) + rest, minBp) != Parses(e, rest) {
      var ts := QuantifierText(e, rest);
      QuantifierFails(e.kind, e.variable, ts);
      PrimaryFails(Print(e) + rest, minBp);
    }
  }

  lemma QuantifierFlaw(e: Expr)
    requires e.Quantifier? && PartsPrintable(e) && !Printable(e)
    ensures Reserved(e.variable)
  {
    hide Reserved;
  }

  lemma QuantifierText(e: Expr, rest: Tokens) returns (ts: Tokens)
    requires e.Quantifier? && Reserved(e.variable)
    ensures Print(e) + rest == [Ident(QuantifierName(e.kind))] + ([Sym(LParen), OtherTok(e.variable)] + ts)
  {
    hide Reserved, QuantifierName;
    ts := (Print(e) + rest)[3..];
  }

  lemma QuantifierFails(kind: QuantifierKind, text: string, ts: Tokens)
    ensures ParsePrimary([Ident(QuantifierName(kind))] + ([Sym(LParen), OtherTok(text)] + ts)).Fails?
  {
    hide ParseExpression, Upper, QuantifierName;
    UpperQuantifier(kind);
    var after := [Sym(LParen), OtherTok(text)] + ts;
    assert after[1..][0] == OtherTok(text);
    assert ParseQuantifier(kind, after).Fails?;
    assert ([Ident(QuantifierName(kind))] + after)[1..] == after;
  }
}
