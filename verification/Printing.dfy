/** Printing an expression and parsing the tokens gives the expression back
    (src/cypher/ast.rs:729-803, src/cypher/parser.rs:1004-1405). */
module Printing {
  import opened Frames
  import opened Ast
  import opened Grammar

  // ---------------------------------------------------------------- the printer

  function S(s: Symbol): Tokens {
    [Sym(s)]
  }

  /** The first token of an operator that is not a name. */
  function OpSymbol(op: InfixOp): Symbol
    requires !op.Xor?
  {
    match op
    case Or => OrKw
    case And => AndKw
    case Eq => EqSign
    case Ne => NeSign
    case Lt => LtSign
    case Le => LeSign
    case Gt => GtSign
    case Ge => GeSign
    case In => InKw
    case Contains => ContainsKw
    case StartsWith => Starts
    case EndsWith => Ends
    case Add => Plus
    case Sub => Dash
    case Mul => Star
    case Div => Slash
    case Mod => Percent
    case Pow => Caret
    case Regex => EqSign
  }

  function OpTokens(op: InfixOp): Tokens {
    if op.Xor? then [Ident("XOR")]
    else if op.StartsWith? || op.EndsWith? then [Sym(OpSymbol(op)), Sym(With)]
    else if op.Regex? then [Sym(OpSymbol(op)), OtherTok("~")]
    else S(OpSymbol(op))
  }

  /** As the lexer reads the printed literal; a float without fraction prints like an integer, and the
      local temporal literals print like calls. */
  function PrintLiteral(l: Literal): Tokens {
    match l
    case NullLit => S(NullKw)
    case Bool(b) => S(if b then TrueKw else FalseKw)
    case Float(f) => if f == f.Floor as real then [LitTok(Int(f.Floor))] else [LitTok(l)]
    case LocalTime(s) => [Ident("localtime"), Sym(LParen), LitTok(Text(s)), Sym(RParen)]
    case LocalDateTime(s) => [Ident("localdatetime"), Sym(LParen), LitTok(Text(s)), Sym(RParen)]
    case _ => [LitTok(l)]
  }

  /** A name as the lexer reads it: a keyword is not an identifier. */
  function Word(name: string): Token {
    if Reserved(name) then OtherTok(name) else Ident(name)
  }

  /** A call whose text the lexer takes for a temporal literal. */
  predicate ReadsAsLiteral(name: string, args: seq<Expr>, distinct: bool) {
    Upper(name) in {"DATE", "TIME", "DATETIME", "DURATION"} && !distinct && |args| == 1 && args[0].Lit? && args[0].literal.Text?
  }

  function Temporal(name: string, s: string): Literal {
    if Upper(name) == "DATE" then Date(s) else if Upper(name) == "TIME" then Time(s)
    else if Upper(name) == "DATETIME" then DateTime(s) else Duration(s)
  }

  /** A minus sign right before the text of `ts`: the lexer takes it into a number. */
  function Minus(ts: Tokens): Tokens {
    match Peek(ts)
    case LitTok(Int(i)) => if i >= 0 then [LitTok(Int(-i))] + ts[1..] else S(Dash) + ts
    case LitTok(Float(f)) => if f >= 0.0 then [LitTok(Float(-f))] + ts[1..] else S(Dash) + ts
    case _ => S(Dash) + ts
  }

  function QuantifierName(kind: QuantifierKind): string {
    match kind
    case All => "all"
    case Any => "any"
    case NoneOf => "none"
    case Single => "single"
  }

  function Print(e: Expr): Tokens
    decreases e, 0
  {
    match e
    case Lit(l) => PrintLiteral(l)
    case Var(name) => [Word(name)]
    case Param(name) => [Parameter(name)]
    case Prop(base, key) => Print(base) + [Sym(Dot), Word(key)]
    case Index(base, index) => Print(base) + (S(LBracket) + Print(index) + S(RBracket))
    case Slice(base, from, to) =>
      Print(base) + (S(LBracket) + PrintOption([], from) + [Sym(Dot), Sym(Dot)] + PrintOption([], to) + S(RBracket))
    case Infix(op, l, r) => S(LParen) + Print(l) + OpTokens(op) + Print(r) + S(RParen)
    case Unary(Negate, x) => Minus(Print(x))
    case Unary(Complement, x) => S(NotKw) + Print(x)
    case Not(x) => [Sym(LParen), Sym(NotKw)] + Print(x) + S(RParen)
    case IsNull(x) => Print(x) + [Sym(Is), Sym(NullKw)]
    case IsNotNull(x) => Print(x) + [Sym(Is), Sym(NotKw), Sym(NullKw)]
    case ListOf(items) => S(LBracket) + PrintItems(items) + S(RBracket)
    case MapOf(entries) => S(LBrace) + PrintEntries(entries) + S(RBrace)
    case Call(name, args, distinct) =>
      if ReadsAsLiteral(name, args, distinct) then [LitTok(Temporal(name, args[0].literal.s))]
      else [Word(name), Sym(LParen)] + (if distinct then S(Distinct) else []) + PrintItems(args) + S(RParen)
    case Wildcard => S(Star)
    case Case(subject, alternatives, default) =>
      S(CaseKw) + PrintOption([], subject) + PrintAlternatives(alternatives) + PrintOption(S(Else), default) + S(End)
    case Comprehension(x, source, filter, projection) =>
      [Sym(LBracket), Word(x), Sym(InKw)] + Print(source) + PrintOption(S(Where), filter) + PrintOption(S(Pipe), projection)
      + S(RBracket)
    case PatternComprehension(_, _, result) => [Sym(LBracket), OtherTok("pattern"), Sym(Pipe)] + Print(result) + S(RBracket)
    case Reduce(acc, init, x, source, body) =>
      [Ident("reduce"), Sym(LParen), Word(acc), Sym(EqSign)] + Print(init) + [Sym(Comma), Word(x), Sym(InKw)] + Print(source)
      + S(Pipe) + Print(body) + S(RParen)
    case Quantifier(kind, x, source, condition) =>
      [Ident(QuantifierName(kind)), Sym(LParen), Word(x), Sym(InKw)] + Print(source) + S(Where) + Print(condition) + S(RParen)
    case Exists => [Ident("EXISTS"), OtherTok("pattern")]
  }

  function PrintOption(before: Tokens, e: Option<Expr>): Tokens
    decreases e, 0
  {
    match e
    case None => []
    case Some(x) => before + Print(x)
  }

  function PrintItems(items: seq<Expr>): Tokens
    decreases items, 0
  {
    if items == [] then []
    else if |items| == 1 then Print(items[0])
    else Print(items[0]) + S(Comma) + PrintItems(items[1..])
  }

  function PrintEntry(entry: (string, Expr)): Tokens
    decreases entry, 0
  {
    [Word(entry.0), Sym(Colon)] + Print(entry.1)
  }

  function PrintEntries(entries: seq<(string, Expr)>): Tokens
    decreases entries, 0
  {
    if entries == [] then []
    else if |entries| == 1 then PrintEntry(entries[0])
    else PrintEntry(entries[0]) + S(Comma) + PrintEntries(entries[1..])
  }

  function PrintAlternative(alternative: (Expr, Expr)): Tokens
    decreases alternative, 0
  {
    S(When) + Print(alternative.0) + S(Then) + Print(alternative.1)
  }

  function PrintAlternatives(alternatives: seq<(Expr, Expr)>): Tokens
    decreases alternatives, 0
  {
    if alternatives == [] then [] else PrintAlternative(alternatives[0]) + PrintAlternatives(alternatives[1..])
  }

  /** Literals that print as one token of their own. */
  predicate PrintableLiteral(l: Literal) {
    match l
    case Float(f) => f != f.Floor as real
    case LocalTime(_) => false
    case LocalDateTime(_) => false
    case _ => true
  }

  predicate IsChain(e: Expr) {
    e.Prop? || e.Index? || e.Slice?
  }

  /** May stand before an operator: IS NULL is read only after all of them. */
  predicate IsLeft(e: Expr) {
    !e.IsNull? && !e.IsNotNull?
  }

  /** May stand before `.`, an index or a slice: a minus takes in what follows, or is not followed. */
  predicate IsBase(e: Expr) {
    IsLeft(e) && !e.Unary?
  }

  /** Starts with a name, or a call, which is read together with its postfixes. */
  predicate Named(e: Expr)
    decreases e
  {
    e.Var? || e.Call? || (IsChain(e) && Named(e.base))
  }

  /** Is read whole after a minus: by `parse_primary`, without the postfix loop of other operands. */
  predicate Whole(e: Expr) {
    Named(e) || (IsBase(e) && !IsChain(e))
  }

  /** May stand before the dots of a slice, which an operand would take for a property access. */
  predicate IsBound(e: Expr) {
    e.IsNull? || e.IsNotNull? || (e.Unary? && !Named(e.operand))
  }

  /** Its text starts with `*`. */
  predicate StarFirst(e: Expr)
    decreases e
  {
    e.Wildcard? || (IsChain(e) && StarFirst(e.base)) || ((e.IsNull? || e.IsNotNull?) && StarFirst(e.operand))
  }

  /** The lexer takes a minus before it into the number. */
  predicate Unsigned(e: Expr) {
    e.Lit? && ((e.literal.Int? && e.literal.i >= 0) || (e.literal.Float? && e.literal.f >= 0.0))
  }

  /** The expressions whose text can be read back. */
  predicate Printable(e: Expr)
    decreases e
  {
    match e
    case Lit(l) => PrintableLiteral(l)
    case Var(name) => !Special(name) && !Reserved(name)
    case Param(_) => true
    case Prop(base, key) => Printable(base) && IsBase(base) && !Reserved(key)
    case Index(base, index) => Printable(base) && IsBase(base) && Printable(index)
    case Slice(base, from, to) =>
      && Printable(base) && IsBase(base)
      && (from.Some? ==> Printable(from.value) && IsBound(from.value)) && (to.Some? ==> Printable(to.value))
    case Infix(op, l, r) => !op.Regex? && Printable(l) && IsLeft(l) && Printable(r)
    case Unary(op, x) => op.Negate? && Printable(x) && Whole(x) && !Unsigned(x)
    case Not(x) => Printable(x)
    case IsNull(x) => Printable(x)
    case IsNotNull(x) => Printable(x)
    case ListOf(items) => forall i | 0 <= i < |items| :: Printable(items[i])
    case MapOf(entries) => forall i | 0 <= i < |entries| :: Printable(entries[i].1) && !Reserved(entries[i].0)
    case Call(name, args, distinct) =>
      && !Special(name) && !Reserved(name) && !ReadsAsLiteral(name, args, distinct)
      && (forall i | 0 <= i < |args| :: Printable(args[i])) && ArgumentsRead(args)
    case Wildcard => true
    case Case(subject, alternatives, default) =>
      && (subject.Some? ==> Printable(subject.value)) && (subject.None? ==> alternatives != [])
      && (forall i | 0 <= i < |alternatives| :: Printable(alternatives[i].0) && Printable(alternatives[i].1))
      && (default.Some? ==> Printable(default.value))
    case Comprehension(x, source, filter, projection) =>
      !Reserved(x) && Printable(source) && (filter.Some? ==> Printable(filter.value)) && (projection.Some? ==> Printable(projection.value))
    case Reduce(acc, init, x, source, body) => !Reserved(acc) && !Reserved(x) && Printable(init) && Printable(source) && Printable(body)
    case Quantifier(_, x, source, condition) => !Reserved(x) && Printable(source) && Printable(condition)
    case PatternComprehension(_, _, _) => false
    case Exists => false
  }

  /** `*` does not open the arguments, unless it is all of them. */
  predicate ArgumentsRead(args: seq<Expr>) {
    args == [] || args == [Wildcard] || !StarFirst(args[0])
  }

  // ---------------------------------------------------------------- where an expression starts and stops

  /** Nothing here continues the expression before it. */
  predicate Stops(ts: Tokens) {
    InfixOf(Peek(ts)).NoInfix? && !At(ts, Is) && !At(ts, Dot) && !At(ts, LBracket) && !At(ts, LParen)
  }

  /** Nothing here continues the expression before it, IS NULL aside. */
  predicate Calm(ts: Tokens) {
    InfixOf(Peek(ts)).NoInfix? && Apart(ts)
  }

  /** Nothing here continues the operand before it. */
  predicate Apart(ts: Tokens) {
    !At(ts, Dot) && !At(ts, LBracket) && !At(ts, LParen)
  }

  /** The tokens that start a printed operand. */
  predicate Starter(t: Token) {
    match t
    case Sym(s) => s.NullKw? || s.TrueKw? || s.FalseKw? || s.LParen? || s.LBracket? || s.LBrace? || s.CaseKw? || s.Star?
    case OtherTok(_) => false
    case _ => true
  }

  /** The tokens that start a printed expression. */
  predicate Opener(t: Token) {
    Starter(t) || t == Sym(Dash)
  }

  /** The first tokens of a printed primary. */
  function Lead(e: Expr): Tokens {
    match e
    case Lit(l) => PrintLiteral(l)
    case Var(name) => [Ident(name)]
    case Param(name) => [Parameter(name)]
    case Call(name, _, _) => [Ident(name), Sym(LParen)]
    case Reduce(_, _, _, _, _) => [Ident("reduce"), Sym(LParen)]
    case Quantifier(kind, _, _, _) => [Ident(QuantifierName(kind)), Sym(LParen)]
    case ListOf(_) => S(LBracket)
    case Comprehension(_, _, _, _) => S(LBracket)
    case MapOf(_) => S(LBrace)
    case Case(_, _, _) => S(CaseKw)
    case Wildcard => S(Star)
    case _ => S(LParen)
  }

  /** Neither a postfix nor a minus nor IS NULL: what `parse_primary` starts with. */
  predicate IsRoot(e: Expr) {
    IsBase(e) && !IsChain(e)
  }

  lemma LeadLeads(e: Expr)
    requires Printable(e) && IsRoot(e)
    ensures Lead(e) <= Print(e)
  {
    if e.Comprehension? || e.Reduce? || e.Quantifier? || e.Call? {
      NamesLead(e);
    } else {
      OthersLead(e);
    }
  }

  lemma NamesLead(e: Expr)
    requires Printable(e) && (e.Comprehension? || e.Reduce? || e.Quantifier? || e.Call?)
    ensures Lead(e) <= Print(e)
  {
    hide PrintLiteral, QuantifierName, Minus, OpTokens, PrintOption, PrintItems, PrintEntries, PrintAlternatives;
  }

  lemma OthersLead(e: Expr)
    requires Printable(e) && IsRoot(e) && !e.Comprehension? && !e.Reduce? && !e.Quantifier? && !e.Call?
    ensures Lead(e) <= Print(e)
  {
    hide PrintLiteral, Minus, OpTokens, PrintOption, PrintItems, PrintEntries, PrintAlternatives, ReadsAsLiteral, Temporal;
  }

  lemma LeadIs(e: Expr)
    requires Printable(e) && IsRoot(e)
    ensures Lead(e) != [] && Starter(Lead(e)[0]) && (Lead(e)[0] == Sym(Star) <==> e.Wildcard?)
    ensures Lead(e)[0].Ident? ==> e.Var? || (|Lead(e)| == 2 && Lead(e)[1] == Sym(LParen))
    ensures e.Var? || e.Call? ==> Lead(e)[0].Ident?
  {
  }

  /** How a printed expression starts: like an operand unless with a minus, with `*` exactly if that is
      its first part, and not like a comprehension. */
  ghost predicate HeadFits(e: Expr, rest: Tokens, ts: Tokens) {
    && ts != [] && Opener(ts[0]) && (IsBase(e) ==> Starter(ts[0])) && (At(ts, Star) <==> StarFirst(e))
    && (ts[0].Ident? && At(ts[1..], InKw) ==> e.Var? && At(rest, InKw))
    && (Named(e) ==> ts[0].Ident?)
  }

  lemma {:induction false} PrintHead(e: Expr, rest: Tokens)
    requires Printable(e)
    ensures HeadFits(e, rest, Print(e) + rest)
    decreases e
  {
    hide Starter, Lead, Print, Printable;
    if IsChain(e) {
      ChainParts(e);
      PrintHead(e.base, Post(e) + rest);
      assert Print(e) + rest == Print(e.base) + (Post(e) + rest);
      PostHead(e);
      assert (Post(e) + rest)[0] == Post(e)[0];
    } else if e.IsNull? || e.IsNotNull? {
      NullParts(e);
      PrintHead(e.operand, NullTokens(e) + rest);
      assert Print(e) + rest == Print(e.operand) + (NullTokens(e) + rest);
    } else if e.Unary? {
      MinusPlain(e);
      assert (Print(e) + rest)[0] == Sym(Dash);
    } else {
      LeadHead(e, rest);
    }
  }

  /** What a property access, an index or a slice prints after its base. */
  function Post(e: Expr): Tokens
    requires IsChain(e)
  {
    match e
    case Prop(_, key) => [Sym(Dot), Word(key)]
    case Index(_, index) => S(LBracket) + Print(index) + S(RBracket)
    case Slice(_, from, to) => S(LBracket) + PrintOption([], from) + [Sym(Dot), Sym(Dot)] + PrintOption([], to) + S(RBracket)
  }

  lemma ChainParts(e: Expr)
    requires IsChain(e)
    ensures Print(e) == Print(e.base) + Post(e)
    ensures Printable(e) ==> Printable(e.base) && IsBase(e.base)
  {
    hide PrintOption, Minus, ReadsAsLiteral, Temporal;
  }

  lemma PostHead(e: Expr)
    requires IsChain(e)
    ensures Post(e) != [] && (Post(e)[0] == Sym(Dot) || Post(e)[0] == Sym(LBracket))
  {
    hide Print, PrintOption;
  }

  function NullTokens(e: Expr): Tokens {
    if e.IsNull? then [Sym(Is), Sym(NullKw)] else [Sym(Is), Sym(NotKw), Sym(NullKw)]
  }

  lemma NullParts(e: Expr)
    requires e.IsNull? || e.IsNotNull?
    ensures Print(e) == Print(e.operand) + NullTokens(e) && (Printable(e) ==> Printable(e.operand))
  {
  }

  /** A minus that is read as one. */
  lemma {:induction false} MinusPlain(e: Expr)
    requires e.Unary? && Printable(e)
    ensures Printable(e.operand) && Whole(e.operand) && !Unsigned(e.operand) && e.unary == Negate
    ensures Print(e) == S(Dash) + Print(e.operand)
    decreases e, 0
  {
    hide Starter, Lead, Printable;
    MinusParts(e);
    var x := e.operand;
    if Named(x) {
      NamedHead(x);
    } else if x.Lit? {
      assert Print(x) == PrintLiteral(x.literal);
    } else {
      LeadHead(x, []);
      assert Print(x) + [] == Print(x);
      RootHead(x);
    }
  }

  lemma MinusParts(e: Expr)
    requires e.Unary? && Printable(e)
    ensures Printable(e.operand) && Whole(e.operand) && !Unsigned(e.operand) && e.unary == Negate
    ensures e.operand.Lit? ==> PrintableLiteral(e.operand.literal)
  {
  }

  lemma {:induction false} NamedHead(x: Expr)
    requires Printable(x) && Named(x)
    ensures Print(x) != [] && Print(x)[0].Ident?
    decreases x
  {
    hide Print, Printable, Lead;
    if IsChain(x) {
      ChainParts(x);
      NamedHead(x.base);
    } else {
      LeadLeads(x);
      LeadIs(x);
    }
  }

  /** Only a literal starts with one. */
  lemma RootHead(x: Expr)
    requires Printable(x) && IsRoot(x) && !x.Lit?
    ensures Print(x) != [] && !Print(x)[0].LitTok?
  {
    hide Print;
    LeadLeads(x);
  }

  lemma LeadHead(e: Expr, rest: Tokens)
    requires Printable(e) && IsRoot(e)
    ensures HeadFits(e, rest, Print(e) + rest)
  {
    hide Starter, Lead, Printable;
    LeadLeads(e);
    LeadIs(e);
    if e.Var? {
      VarPrints(e);
      assert (Print(e) + rest)[1..] == rest;
    }
    hide Print;
  }

  lemma VarPrints(e: Expr)
    requires e.Var? && Printable(e)
    ensures Print(e) == [Ident(e.name)]
  {
  }

  /** What a postfix loop ends at does not continue it. */
  lemma {:induction false} PostfixTwice(lhs: Expr, ts: Tokens)
    ensures var p := ParsePostfix(lhs, ts); p.Parses? ==> ParsePostfix(p.value, p.rest) == p
    decreases |ts|
  {
    if At(ts, Dot) {
      if Peek(ts[1..]).Ident? {
        PostfixTwice(Prop(lhs, Peek(ts[1..]).name), ts[2..]);
      }
    } else if At(ts, LBracket) {
      var p := ParseSubscript(lhs, ts[1..]);
      if p.Parses? {
        PostfixTwice(p.value, p.rest);
      }
    }
  }

  /** A starter that parses as a primary parses as an operand. */
  lemma UnaryOf(ts: Tokens, e: Expr, rest: Tokens)
    requires ts != [] && Starter(ts[0])
    requires ParsePrimary(ts) == Parses(e, rest) || ParsePrimary(ts) == ParsePostfix(e, rest)
    ensures ParseUnary(ts) == ParsePostfix(e, rest)
  {
    hide ParsePrimary, ParsePostfix, ParseExpression;
    if ParsePrimary(ts) == ParsePostfix(e, rest) {
      PostfixTwice(e, rest);
    }
  }

  // ---------------------------------------------------------------- reading back what was printed

  /** Every printable expression is read back, at every binding power and before whatever stops it. */
  lemma {:induction false} RoundTrip(e: Expr, rest: Tokens, minBp: nat)
    requires Printable(e) && Stops(rest)
    ensures ParseExpression(Print(e) + rest, minBp) == Parses(e, rest)
    decreases e, 7
  {
    hide Printable, Print, ParseExpression;
    ExpressionReads(e, rest, minBp);
  }

  /** An expression is read up to IS NULL, which then takes it. */
  lemma {:induction false} ExpressionReads(e: Expr, rest: Tokens, minBp: nat)
    requires Printable(e) && Calm(rest)
    ensures ParseExpression(Print(e) + rest, minBp) == NullLoop(e, rest)
    decreases e, 6
  {
    hide Printable, Print, ParseUnary, NullLoop, InfixOf;
    if e.IsNull? || e.IsNotNull? {
      NullReads(e, rest, minBp);
    } else {
      LeftReads(e, rest);
      CalmLoop(e, rest, minBp);
    }
  }

  lemma CalmLoop(e: Expr, rest: Tokens, minBp: nat)
    requires InfixOf(Peek(rest)).NoInfix?
    ensures InfixLoop(e, rest, minBp) == Parses(e, rest)
  {
    hide ParseExpression, InfixOf;
  }

  /** After IS NULL nothing but another IS NULL is looked for. */
  lemma {:induction false} NullReads(e: Expr, rest: Tokens, minBp: nat)
    requires Printable(e) && (e.IsNull? || e.IsNotNull?)
    ensures ParseExpression(Print(e) + rest, minBp) == NullLoop(e, rest)
    decreases e, 5
  {
    hide Printable, Print, ParseExpression;
    NullParts(e);
    var after := NullTokens(e) + rest;
    assert Print(e) + rest == Print(e.operand) + after;
    assert after[0] == Sym(Is);
    ExpressionReads(e.operand, after, minBp);
    NullStep(e, rest);
  }

  lemma NullStep(e: Expr, rest: Tokens)
    requires e.IsNull? || e.IsNotNull?
    ensures NullLoop(e.operand, NullTokens(e) + rest) == NullLoop(e, rest)
  {
    var after := NullTokens(e) + rest;
    assert after[|NullTokens(e)|..] == rest;
    assert after[1..][0] == NullTokens(e)[1];
    if e.IsNotNull? {
      assert after[2..][0] == Sym(NullKw);
    }
  }

  lemma StopsLoops(e: Expr, rest: Tokens, minBp: nat)
    requires Stops(rest)
    ensures ParsePostfix(e, rest) == Parses(e, rest)
    ensures InfixLoop(e, rest, minBp) == Parses(e, rest) && NullLoop(e, rest) == Parses(e, rest)
  {
    hide ParseExpression, InfixOf;
  }

  /** Whatever may stand before an operator is read as an operand. */
  lemma {:induction false} LeftReads(e: Expr, rest: Tokens)
    requires Printable(e) && IsLeft(e) && Apart(rest)
    ensures ParseUnary(Print(e) + rest) == Parses(e, rest)
    decreases e, 4
  {
    hide Printable, Print, ParseUnary, ParsePostfix;
    if e.Unary? {
      NegateTrip(e, rest);
    } else {
      UnaryRoundTrip(e, rest);
      PostfixStops(e, rest);
    }
  }

  /** A minus over what is read whole; over anything but a name, whatever follows. */
  lemma {:induction false} NegateTrip(e: Expr, rest: Tokens)
    requires Printable(e) && e.Unary? && (Named(e.operand) ==> Apart(rest))
    ensures ParseUnary(Print(e) + rest) == Parses(e, rest)
    decreases e, 3
  {
    hide Printable, Print, ParsePostfix, ParsePrimary, ParseExpression;
    MinusPlain(e);
    var x := e.operand;
    var ts := Print(e) + rest;
    assert ts == S(Dash) + (Print(x) + rest);
    assert ts[1..] == Print(x) + rest;
    if Named(x) {
      NamedTrip(x, rest);
      PostfixStops(x, rest);
    } else {
      ClosedTrip(x, rest);
    }
  }

  /** Reading an operand goes on with the postfixes after it. */
  lemma {:induction false} UnaryRoundTrip(e: Expr, rest: Tokens)
    requires Printable(e) && IsBase(e) && (e.Var? ==> !At(rest, LParen))
    ensures ParseUnary(Print(e) + rest) == ParsePostfix(e, rest)
    decreases e, 3
  {
    hide Printable, Print, ParseUnary, ParsePostfix, ParsePrimary, ParseExpression, Starter;
    PrintHead(e, rest);
    if Named(e) {
      NamedTrip(e, rest);
      UnaryOf(Print(e) + rest, e, rest);
    } else if IsChain(e) {
      ChainTrip(e, rest);
    } else {
      ClosedTrip(e, rest);
      UnaryOf(Print(e) + rest, e, rest);
    }
  }

  lemma {:induction false} ChainTrip(e: Expr, rest: Tokens)
    requires Printable(e) && IsChain(e)
    ensures ParseUnary(Print(e) + rest) == ParsePostfix(e, rest)
    decreases e, 2
  {
    hide Printable, Print, ParseUnary, ParsePostfix, Post;
    ChainParts(e);
    PostHead(e);
    var after := Post(e) + rest;
    assert Print(e) + rest == Print(e.base) + after;
    assert after[0] == Post(e)[0];
    UnaryRoundTrip(e.base, after);
    PostTrip(e, rest);
  }

  /** A name or a call is read together with its postfixes. */
  lemma {:induction false} NamedTrip(e: Expr, rest: Tokens)
    requires Printable(e) && Named(e) && (e.Var? ==> !At(rest, LParen))
    ensures ParsePrimary(Print(e) + rest) == ParsePostfix(e, rest)
    decreases e, 2
  {
    hide Printable, Print, ParsePostfix, ParsePrimary, ParseExpression;
    if e.Var? {
      VarTrip(e, rest);
    } else if e.Call? {
      CallTrip(e, rest);
    } else {
      ChainParts(e);
      PostHead(e);
      var after := Post(e) + rest;
      assert Print(e) + rest == Print(e.base) + after;
      NamedTrip(e.base, after);
      PostTrip(e, rest);
    }
  }

  /** Anything else that is no postfix is read on its own. */
  lemma {:induction false} ClosedTrip(e: Expr, rest: Tokens)
    requires Printable(e) && IsRoot(e) && !e.Var? && !e.Call?
    ensures ParsePrimary(Print(e) + rest) == Parses(e, rest)
    decreases e, 2
  {
    hide Printable, Print, ParsePrimary;
    match e
    case Lit(_) => LiteralTrip(e, rest);
    case Param(_) => ParamTrip(e, rest);
    case Infix(_, _, _) => InfixTrip(e, rest);
    case Not(_) => NotTrip(e, rest);
    case ListOf(_) => ListTrip(e, rest);
    case MapOf(_) => MapTrip(e, rest);
    case Wildcard => WildcardTrip(rest);
    case Case(_, _, _) => CaseTrip(e, rest);
    case Comprehension(_, _, _, _) => ComprehensionTrip(e, rest);
    case Reduce(_, _, _, _, _) => ReduceTrip(e, rest);
    case Quantifier(_, _, _, _) => QuantifierTrip(e, rest);
    case PatternComprehension(_, _, _) => NoPattern(e);
    case Exists => NoPattern(e);
  }

  lemma NoPattern(e: Expr)
    requires Printable(e)
    ensures !e.PatternComprehension? && !e.Exists?
  {
  }

  lemma WildcardTrip(rest: Tokens)
    ensures ParsePrimary(Print(Wildcard) + rest) == Parses(Wildcard, rest)
  {
    assert (Print(Wildcard) + rest)[1..] == rest;
  }

  lemma LiteralTrip(e: Expr, rest: Tokens)
    requires e.Lit? && Printable(e)
    ensures ParsePrimary(Print(e) + rest) == Parses(e, rest)
  {
    assert |Print(e)| == 1 && (Print(e) + rest)[1..] == rest;
  }

  lemma VarTrip(e: Expr, rest: Tokens)
    requires e.Var? && Printable(e) && !At(rest, LParen)
    ensures ParsePrimary(Print(e) + rest) == ParsePostfix(e, rest)
  {
    hide ParsePostfix, Upper;
    assert (Print(e) + rest)[1..] == rest;
  }

  lemma ParamTrip(e: Expr, rest: Tokens)
    requires e.Param?
    ensures ParsePrimary(Print(e) + rest) == Parses(e, rest)
  {
    assert (Print(e) + rest)[1..] == rest;
  }

  /** One turn of the postfix loop. */
  lemma {:induction false} PostTrip(e: Expr, rest: Tokens)
    requires IsChain(e) && Printable(e)
    ensures ParsePostfix(e.base, Post(e) + rest) == ParsePostfix(e, rest)
    decreases e, 1
  {
    if e.Prop? {
      PropTrip(e, rest);
    } else if e.Index? {
      IndexTrip(e, rest);
    } else {
      SliceTrip(e, rest);
    }
  }

  lemma PropTrip(e: Expr, rest: Tokens)
    requires e.Prop? && Printable(e)
    ensures ParsePostfix(e.base, Post(e) + rest) == ParsePostfix(e, rest)
  {
    hide Print, ParseSubscript;
    var after := Post(e) + rest;
    assert after[2..] == rest && after[1..][0] == Ident(e.key);
  }

  /** A subscript read to its end is one turn. */
  lemma SubscriptStep(e: Expr, ts: Tokens, rest: Tokens)
    requires IsChain(e) && Post(e) + rest == S(LBracket) + ts && ParseSubscript(e.base, ts) == Parses(e, rest)
    ensures ParsePostfix(e.base, Post(e) + rest) == ParsePostfix(e, rest)
  {
    hide ParseSubscript, Post;
    assert (S(LBracket) + ts)[1..] == ts;
  }

  lemma {:induction false} IndexTrip(e: Expr, rest: Tokens)
    requires e.Index? && Printable(e)
    ensures ParsePostfix(e.base, Post(e) + rest) == ParsePostfix(e, rest)
    decreases e, 0
  {
    hide ParseExpression, Printable, ParsePostfix, Print, Starter;
    IndexParts(e);
    var t1 := S(RBracket) + rest;
    var t2 := Print(e.index) + t1;
    assert Post(e) + rest == S(LBracket) + t2;
    ClosesStops(RBracket, rest);
    RoundTrip(e.index, t1, 0);
    PrintHead(e.index, t1);
    OpenerNot(t2[0]);
    assert t1[1..] == rest;
    SubscriptStep(e, t2, rest);
  }

  lemma IndexParts(e: Expr)
    requires e.Index? && Printable(e)
    ensures Printable(e.base) && Printable(e.index)
  {
  }

  lemma OpenerNot(t: Token)
    requires Opener(t)
    ensures t != Sym(Dot) && t != Sym(RBracket) && t != Sym(RParen) && t != Sym(When) && t != Sym(Distinct)
  {
  }

  lemma {:induction false} SliceTrip(e: Expr, rest: Tokens)
    requires e.Slice? && Printable(e)
    ensures ParsePostfix(e.base, Post(e) + rest) == ParsePostfix(e, rest)
    decreases e, 0
  {
    hide ParseExpression, Printable, ParsePostfix, Print, PrintOption, Starter, ParseSliceEnd;
    SliceParts(e);
    var t1 := PrintOption([], e.to) + (S(RBracket) + rest);
    var t2 := [Sym(Dot), Sym(Dot)] + t1;
    var t3 := PrintOption([], e.from) + t2;
    assert Post(e) + rest == S(LBracket) + t3;
    SliceEndTrip(e, rest);
    assert At(t2, Dot) && At(t2[1..], Dot) && AfterDots(t2) == t1;
    if e.from.Some? {
      SomePrints(e.from.value, t2);
      BoundReads(e.from.value, t2);
      PrintHead(e.from.value, t2);
      OpenerNot(t3[0]);
    } else {
      NonePrints(t2);
    }
    SubscriptStep(e, t3, rest);
  }

  lemma SomePrints(x: Expr, rest: Tokens)
    ensures PrintOption([], Some(x)) + rest == Print(x) + rest
  {
  }

  lemma NonePrints(rest: Tokens)
    ensures PrintOption([], None) + rest == rest
  {
  }

  lemma SliceParts(e: Expr)
    requires e.Slice? && Printable(e)
    ensures (e.from.Some? ==> Printable(e.from.value) && IsBound(e.from.value)) && (e.to.Some? ==> Printable(e.to.value))
  {
  }

  lemma {:induction false} SliceEndTrip(e: Expr, rest: Tokens)
    requires e.Slice? && (e.to.Some? ==> Printable(e.to.value))
    ensures ParseSliceEnd(e.base, e.from, PrintOption([], e.to) + (S(RBracket) + rest)) == Parses(e, rest)
    decreases e.to, 8
  {
    hide ParseExpression, Printable, Print, PrintOption, Starter;
    var t1 := S(RBracket) + rest;
    assert t1[1..] == rest;
    if e.to.Some? {
      SomePrints(e.to.value, t1);
      ClosesStops(RBracket, rest);
      RoundTrip(e.to.value, t1, 0);
      PrintHead(e.to.value, t1);
      OpenerNot((Print(e.to.value) + t1)[0]);
    } else {
      NonePrints(t1);
    }
  }

  /** What may stand before the dots is read up to them. */
  lemma {:induction false} BoundReads(f: Expr, rest: Tokens)
    requires Printable(f) && IsBound(f) && At(rest, Dot)
    ensures ParseExpression(Print(f) + rest, 0) == Parses(f, rest)
    decreases f, 6
  {
    hide Printable, Print, ParseUnary;
    if f.Unary? {
      NegateTrip(f, rest);
      CalmLoop(f, rest, 0);
    } else {
      hide ParseExpression;
      NullReads(f, rest, 0);
    }
  }

  // ---------------------------------------------------------------- operators in parentheses

  lemma UpperXor()
    ensures Upper("XOR") == "XOR"
  {
  }

  lemma OpSymbolIs(op: InfixOp)
    requires !op.Regex? && !op.Xor?
    ensures InfixSymbol(OpSymbol(op)) == InfixOp_(op)
  {
  }

  lemma OpHead(op: InfixOp)
    requires !op.Regex?
    ensures var ts := OpTokens(op);
            if op.StartsWith? || op.EndsWith? then |ts| == 2 && ts[1] == Sym(With) else |ts| == 1
    ensures InfixOf(OpTokens(op)[0]) == InfixOp_(op)
  {
    hide Upper, InfixSymbol, OpSymbol;
    if op.Xor? {
      UpperXor();
    } else {
      OpSymbolIs(op);
    }
  }

  lemma InfixNotElse(t: Token)
    requires InfixOf(t).InfixOp_?
    ensures t != Sym(Dot) && t != Sym(LBracket) && t != Sym(LParen) && t != Sym(Is)
  {
  }

  /** A printed operator is read as itself, and leaves its right side. */
  lemma OpTokensAre(op: InfixOp, ts: Tokens)
    requires !op.Regex?
    ensures var all := OpTokens(op) + ts;
            && InfixOf(Peek(all)) == InfixOp_(op) && !At(all, Dot) && !At(all, LBracket) && !At(all, LParen) && !At(all, Is)
            && (if op.StartsWith? || op.EndsWith? then At(all[1..], With) && all[2..] == ts else all[1..] == ts)
  {
    hide OpTokens, InfixOf;
    OpHead(op);
    InfixNotElse(OpTokens(op)[0]);
    assert (OpTokens(op) + ts)[|OpTokens(op)|..] == ts;
  }

  lemma {:induction false} InfixTrip(e: Expr, rest: Tokens)
    requires e.Infix? && Printable(e)
    ensures ParsePrimary(Print(e) + rest) == Parses(e, rest)
    decreases e, 1
  {
    hide ParseUnary, ParsePostfix, NullLoop, InfixOf, OpTokens, Printable, Stops, Minus, ReadsAsLiteral, Temporal, PrintLiteral;
    InfixParts(e);
    var t1 := S(RParen) + rest;
    var t2 := Print(e.right) + t1;
    var t3 := OpTokens(e.op) + t2;
    var t4 := Print(e.left) + t3;
    assert Print(e) + rest == S(LParen) + t4;
    assert (S(LParen) + t4)[1..] == t4 && t1[1..] == rest;
    OpTokensAre(e.op, t2);
    RParenStops(rest);
    LeftReads(e.left, t3);
    RoundTrip(e.right, t1, BindingPower(e.op).1);
    InfixStep(e.op, e.left, t2, e.right, t1);
    StopsLoops(e, t1, 0);
  }

  /** One turn of the infix loop. */
  lemma InfixStep(op: InfixOp, lhs: Expr, ts: Tokens, rhs: Expr, rest: Tokens)
    requires !op.Regex? && ParseExpression(ts, BindingPower(op).1) == Parses(rhs, rest)
    ensures InfixLoop(lhs, OpTokens(op) + ts, 0) == InfixLoop(Infix(op, lhs, rhs), rest, 0)
  {
    hide ParseExpression, InfixOf, OpTokens;
    OpTokensAre(op, ts);
  }

  lemma InfixParts(e: Expr)
    requires e.Infix? && Printable(e)
    ensures !e.op.Regex? && Printable(e.left) && IsLeft(e.left) && Printable(e.right)
  {
  }

  lemma RParenStops(rest: Tokens)
    ensures Stops(S(RParen) + rest) && At(S(RParen) + rest, RParen)
  {
  }

  lemma PostfixStops(e: Expr, ts: Tokens)
    requires !At(ts, Dot) && !At(ts, LBracket)
    ensures ParsePostfix(e, ts) == Parses(e, ts)
  {
    hide ParseSubscript;
  }

  lemma {:induction false} NotTrip(e: Expr, rest: Tokens)
    requires e.Not? && Printable(e)
    ensures ParsePrimary(Print(e) + rest) == Parses(e, rest)
    decreases e, 1
  {
    hide ParsePostfix, NullLoop, InfixLoop, Printable, Stops, ParsePrimary;
    NotPart(e);
    var t1 := S(RParen) + rest;
    var t2 := Print(e.operand) + t1;
    var t3 := S(NotKw) + t2;
    assert Print(e) + rest == S(LParen) + t3;
    assert t3[1..] == t2;
    RParenStops(rest);
    RoundTrip(e.operand, t1, PREFIX_NOT_BP);
    assert ParseUnary(t3) == Parses(e, t1);
    StopsLoops(e, t1, 0);
    ParenPrimary(t3, e, rest);
  }

  lemma NotPart(e: Expr)
    requires e.Not? && Printable(e)
    ensures Printable(e.operand)
  {
  }

  lemma ParenPrimary(ts: Tokens, e: Expr, rest: Tokens)
    requires ParseExpression(ts, 0) == Parses(e, S(RParen) + rest)
    ensures ParsePrimary(S(LParen) + ts) == Parses(e, rest)
  {
    hide ParseExpression;
    assert (S(LParen) + ts)[1..] == ts && (S(RParen) + rest)[1..] == rest;
  }

  // ---------------------------------------------------------------- sequences of expressions

  lemma {:induction false} ItemsTrip(items: seq<Expr>, rest: Tokens)
    requires items != [] && (forall i | 0 <= i < |items| :: Printable(items[i])) && Stops(rest) && !At(rest, Comma)
    ensures ParseItems(PrintItems(items) + rest) == Parses(items, rest)
    decreases items, 0
  {
    hide ParseExpression, Printable, Print, Stops;
    if |items| == 1 {
      RoundTrip(items[0], rest, 0);
      assert items == [items[0]];
    } else {
      var t1 := PrintItems(items[1..]) + rest;
      var t2 := S(Comma) + t1;
      assert PrintItems(items) + rest == Print(items[0]) + t2;
      CommaStops(t1);
      RoundTrip(items[0], t2, 0);
      ItemsTrip(items[1..], rest);
      assert t2[1..] == t1 && [items[0]] + items[1..] == items;
    }
  }

  lemma CommaStops(ts: Tokens)
    ensures Stops(S(Comma) + ts)
  {
  }

  lemma {:induction false} ItemsHead(items: seq<Expr>, rest: Tokens)
    requires items != [] && (forall i | 0 <= i < |items| :: Printable(items[i])) && !At(rest, InKw)
    ensures var ts := PrintItems(items) + rest;
            ts != [] && Opener(ts[0]) && !(ts[0].Ident? && At(ts[1..], InKw)) && (At(ts, Star) <==> StarFirst(items[0]))
  {
    hide Printable, Print, Starter;
    if |items| == 1 {
      PrintHead(items[0], rest);
    } else {
      var after := S(Comma) + PrintItems(items[1..]) + rest;
      assert PrintItems(items) + rest == Print(items[0]) + after;
      PrintHead(items[0], after);
    }
  }

  lemma {:induction false} ListTrip(e: Expr, rest: Tokens)
    requires e.ListOf? && Printable(e)
    ensures ParsePrimary(Print(e) + rest) == Parses(e, rest)
    decreases e, 1
  {
    hide ParseItems, ParseComprehension, PrintItems, Minus, ReadsAsLiteral, Temporal, OpTokens, PrintLiteral;
    var t1 := S(RBracket) + rest;
    var t2 := PrintItems(e.items) + t1;
    assert Print(e) + rest == S(LBracket) + t2;
    assert (S(LBracket) + t2)[1..] == t2 && t1[1..] == rest;
    if e.items == [] {
      NoItems();
      assert t2 == t1;
    } else {
      ItemsTrip(e.items, t1);
      ItemsHead(e.items, t1);
    }
    assert ParseList(t2) == Parses(e, rest);
  }

  lemma NoItems()
    ensures PrintItems([]) == []
  {
  }

  lemma {:induction false} CallTrip(e: Expr, rest: Tokens)
    requires e.Call? && Printable(e)
    ensures ParsePrimary(Print(e) + rest) == ParsePostfix(e, rest)
    decreases e, 1
  {
    hide ParseItems, PrintItems, ParsePostfix, ParseArguments, Upper;
    var t1 := PrintItems(e.args) + (S(RParen) + rest);
    var t2 := (if e.distinct then S(Distinct) else []) + t1;
    var ts := [Ident(e.name), Sym(LParen)] + t2;
    assert Print(e) + rest == ts;
    assert ts[1..][1..] == t2;
    if e.args == [] || e.args == [Wildcard] {
      FewArguments(e.args, e.distinct, rest);
    } else {
      ItemArguments(e.args, e.distinct, rest);
    }
    assert ParseIdent(ts) == ParsePostfix(e, rest);
  }

  lemma FewArguments(args: seq<Expr>, distinct: bool, rest: Tokens)
    requires args == [] || args == [Wildcard]
    ensures ParseArguments((if distinct then S(Distinct) else []) + (PrintItems(args) + (S(RParen) + rest))) == Parses((args, distinct), rest)
  {
    hide ParseItems, PrintItems;
    var t1 := S(RParen) + rest;
    var t2 := PrintItems(args) + t1;
    if args == [] {
      NoItems();
      assert t2 == t1;
    } else {
      OneStar();
      assert t2[1..] == t1;
    }
    assert ParseArgumentList(t2) == Parses(args, t1);
    ArgumentsOf(args, distinct, t2, rest);
  }

  /** `DISTINCT` comes before the list, which itself does not start with it. */
  lemma ArgumentsOf(args: seq<Expr>, distinct: bool, ts: Tokens, rest: Tokens)
    requires ParseArgumentList(ts) == Parses(args, S(RParen) + rest) && !At(ts, Distinct)
    ensures ParseArguments((if distinct then S(Distinct) else []) + ts) == Parses((args, distinct), rest)
  {
    hide ParseArgumentList;
    var all := (if distinct then S(Distinct) else []) + ts;
    assert if distinct then all[1..] == ts else all == ts;
    assert (S(RParen) + rest)[1..] == rest;
  }

  lemma {:induction false} ItemArguments(args: seq<Expr>, distinct: bool, rest: Tokens)
    requires args != [] && !StarFirst(args[0]) && forall i | 0 <= i < |args| :: Printable(args[i])
    ensures ParseArguments((if distinct then S(Distinct) else []) + (PrintItems(args) + (S(RParen) + rest))) == Parses((args, distinct), rest)
    decreases args, 1
  {
    hide ParseItems, PrintItems, Printable;
    var t1 := S(RParen) + rest;
    RParenStops(rest);
    ItemsTrip(args, t1);
    ItemsHead(args, t1);
    ArgumentsOf(args, distinct, PrintItems(args) + t1, rest);
  }

  lemma OneStar()
    ensures PrintItems([Wildcard]) == S(Star)
  {
    assert Print(Wildcard) == S(Star);
  }

  lemma {:induction false} EntryTrip(entry: (string, Expr), rest: Tokens)
    requires Printable(entry.1) && !Reserved(entry.0) && Stops(rest)
    ensures ParseEntry(PrintEntry(entry) + rest) == Parses(entry, rest)
    decreases entry, 0
  {
    hide ParseExpression, Printable, Stops, Print;
    RoundTrip(entry.1, rest, 0);
    var ts := PrintEntry(entry) + rest;
    assert ts[2..] == Print(entry.1) + rest && ts[1..][0] == Sym(Colon);
  }

  lemma {:induction false} EntriesTrip(entries: seq<(string, Expr)>, rest: Tokens)
    requires entries != [] && Stops(rest) && !At(rest, Comma)
    requires forall i | 0 <= i < |entries| :: Printable(entries[i].1) && !Reserved(entries[i].0)
    ensures ParseEntries(PrintEntries(entries) + rest) == Parses(entries, rest)
    decreases entries, 0
  {
    hide ParseEntry, Printable, PrintEntry, Stops, Reserved;
    if |entries| == 1 {
      EntryTrip(entries[0], rest);
      assert entries == [entries[0]];
    } else {
      var t1 := PrintEntries(entries[1..]) + rest;
      var t2 := S(Comma) + t1;
      assert PrintEntries(entries) + rest == PrintEntry(entries[0]) + t2;
      CommaStops(t1);
      EntryTrip(entries[0], t2);
      EntriesTrip(entries[1..], rest);
      assert t2[1..] == t1 && [entries[0]] + entries[1..] == entries;
    }
  }

  lemma {:induction false} MapTrip(e: Expr, rest: Tokens)
    requires e.MapOf? && Printable(e)
    ensures ParsePrimary(Print(e) + rest) == Parses(e, rest)
    decreases e, 1
  {
    hide ParseEntries, PrintEntries;
    var t1 := S(RBrace) + rest;
    var t2 := PrintEntries(e.entries) + t1;
    assert Print(e) + rest == S(LBrace) + t2;
    assert (S(LBrace) + t2)[1..] == t2 && t1[1..] == rest;
    if e.entries == [] {
      NoEntries();
      assert t2 == t1;
    } else {
      EntriesTrip(e.entries, t1);
      EntriesHead(e.entries, t1);
    }
    assert ParseMap(t2) == Parses(e, rest);
  }

  lemma NoEntries()
    ensures PrintEntries([]) == []
  {
  }

  lemma EntriesHead(entries: seq<(string, Expr)>, rest: Tokens)
    requires entries != [] && !Reserved(entries[0].0)
    ensures PrintEntries(entries) + rest != [] && (PrintEntries(entries) + rest)[0].Ident?
  {
    hide Print;
  }

  // ---------------------------------------------------------------- CASE, comprehensions, reduce, quantifiers

  lemma {:induction false} AlternativeTrip(alternative: (Expr, Expr), rest: Tokens)
    requires Printable(alternative.0) && Printable(alternative.1) && Stops(rest)
    ensures var ts := PrintAlternative(alternative) + rest;
            At(ts, When) && ParseAlternative(ts[1..]) == Parses(alternative, rest)
    decreases alternative, 0
  {
    hide ParseExpression, Printable, Stops, Print;
    var t1 := Print(alternative.1) + rest;
    var t2 := S(Then) + t1;
    var ts := PrintAlternative(alternative) + rest;
    assert ts[1..] == Print(alternative.0) + t2;
    ThenStops(t1);
    RoundTrip(alternative.0, t2, 0);
    RoundTrip(alternative.1, rest, 0);
    assert t2[1..] == t1;
  }

  lemma ThenStops(ts: Tokens)
    ensures Stops(S(Then) + ts) && Stops(S(When) + ts)
  {
  }

  lemma {:induction false} AlternativesTrip(alternatives: seq<(Expr, Expr)>, rest: Tokens)
    requires forall i | 0 <= i < |alternatives| :: Printable(alternatives[i].0) && Printable(alternatives[i].1)
    requires Stops(rest) && !At(rest, When)
    ensures ParseAlternatives(PrintAlternatives(alternatives) + rest) == Parses(alternatives, rest)
    decreases alternatives, 0
  {
    hide ParseAlternative, Printable, PrintAlternative, Stops;
    if alternatives == [] {
      assert PrintAlternatives(alternatives) + rest == rest;
    } else {
      var t1 := PrintAlternatives(alternatives[1..]) + rest;
      assert PrintAlternatives(alternatives) + rest == PrintAlternative(alternatives[0]) + t1;
      AlternativesStop(alternatives[1..], rest);
      AlternativeTrip(alternatives[0], t1);
      AlternativesTrip(alternatives[1..], rest);
      assert [alternatives[0]] + alternatives[1..] == alternatives;
    }
  }

  lemma AlternativesStop(alternatives: seq<(Expr, Expr)>, rest: Tokens)
    requires Stops(rest)
    ensures Stops(PrintAlternatives(alternatives) + rest)
    ensures alternatives != [] ==> At(PrintAlternatives(alternatives) + rest, When)
  {
    hide Print;
    if alternatives == [] {
      assert PrintAlternatives(alternatives) + rest == rest;
    } else {
      var first := PrintAlternative(alternatives[0]);
      assert first != [] && first[0] == Sym(When);
      assert (PrintAlternatives(alternatives) + rest)[0] == first[0];
    }
  }

  lemma {:induction false} OptionTrip(s: Symbol, e: Option<Expr>, rest: Tokens)
    requires (e.Some? ==> Printable(e.value)) && Stops(rest) && !At(rest, s)
    ensures ParseOptional(s, PrintOption(S(s), e) + rest) == Parses(e, rest)
    decreases e, 0
  {
    hide ParseExpression, Printable, Stops, Print;
    if e.Some? {
      RoundTrip(e.value, rest, 0);
      assert (PrintOption(S(s), e) + rest)[1..] == Print(e.value) + rest;
    } else {
      assert PrintOption(S(s), e) + rest == rest;
    }
  }

  /** An optional part after a symbol starts with that symbol, or is not there. */
  lemma OptionHead(s: Symbol, e: Option<Expr>, rest: Tokens)
    ensures Peek(PrintOption(S(s), e) + rest) == if e.Some? then Sym(s) else Peek(rest)
  {
    hide Print;
    if e.None? {
      assert PrintOption(S(s), e) + rest == rest;
    }
  }

  predicate Closes(s: Symbol) {
    InfixOf(Sym(s)).NoInfix? && !s.Is? && !s.Dot? && !s.LBracket? && !s.LParen?
  }

  lemma ClosesStops(s: Symbol, rest: Tokens)
    requires Closes(s)
    ensures Stops(S(s) + rest)
  {
  }

  lemma {:induction false} CaseTrip(e: Expr, rest: Tokens)
    requires e.Case? && Printable(e)
    ensures ParsePrimary(Print(e) + rest) == Parses(e, rest)
    decreases e, 1
  {
    hide ParseExpression, ParseAlternatives, ParseOptional, Print, PrintAlternatives, PrintOption, ParsePrimary, Stops, Printable;
    CaseParts(e);
    var t1 := S(End) + rest;
    var t2 := PrintOption(S(Else), e.default) + t1;
    var t3 := PrintAlternatives(e.alternatives) + t2;
    var t4 := PrintOption([], e.subject) + t3;
    CaseTokens(e, rest);
    assert t1[1..] == rest;
    ClosesStops(End, rest);
    OptionHead(Else, e.default, t1);
    OptionTrip(Else, e.default, t1);
    ElseStops(e.default, t1);
    AlternativesTrip(e.alternatives, t2);
    AlternativesStop(e.alternatives, t2);
    assert ParseCaseRest(e.subject, t3) == Parses(e, rest);
    SubjectTrip(e.subject, t3);
    CasePrimary(t4, e, rest);
  }

  lemma CasePrimary(ts: Tokens, e: Expr, rest: Tokens)
    requires ParseCase(ts) == Parses(e, rest)
    ensures ParsePrimary(S(CaseKw) + ts) == Parses(e, rest)
  {
    hide ParseCase;
    assert (S(CaseKw) + ts)[1..] == ts;
  }

  lemma CaseTokens(e: Expr, rest: Tokens)
    requires e.Case?
    ensures Print(e) + rest ==
            S(CaseKw) + (PrintOption([], e.subject) + (PrintAlternatives(e.alternatives) + (PrintOption(S(Else), e.default) + (S(End) + rest))))
  {
    hide PrintOption, PrintAlternatives;
  }

  lemma CaseParts(e: Expr)
    requires e.Case? && Printable(e)
    ensures (e.subject.Some? ==> Printable(e.subject.value)) && (e.subject.None? ==> e.alternatives != [])
    ensures forall i | 0 <= i < |e.alternatives| :: Printable(e.alternatives[i].0) && Printable(e.alternatives[i].1)
    ensures e.default.Some? ==> Printable(e.default.value)
  {
  }

  lemma ElseStops(default: Option<Expr>, rest: Tokens)
    requires Stops(rest) && !At(rest, When)
    ensures Stops(PrintOption(S(Else), default) + rest) && !At(PrintOption(S(Else), default) + rest, When)
  {
    hide Print;
    OptionHead(Else, default, rest);
    if default.None? {
      assert PrintOption(S(Else), default) + rest == rest;
    }
  }

  lemma {:induction false} SubjectTrip(subject: Option<Expr>, rest: Tokens)
    requires (subject.Some? ==> Printable(subject.value)) && (subject.None? ==> At(rest, When)) && Stops(rest)
    ensures ParseCase(PrintOption([], subject) + rest) == ParseCaseRest(subject, rest)
    decreases subject, 0
  {
    hide ParseExpression, Printable, Stops, Print, ParseCaseRest;
    if subject.Some? {
      assert PrintOption([], subject) + rest == Print(subject.value) + rest;
      RoundTrip(subject.value, rest, 0);
      PrintHead(subject.value, rest);
    } else {
      assert PrintOption([], subject) + rest == rest;
    }
  }

  lemma {:induction false} ComprehensionTrip(e: Expr, rest: Tokens)
    requires e.Comprehension? && Printable(e)
    ensures ParsePrimary(Print(e) + rest) == Parses(e, rest)
    decreases e, 1
  {
    hide ParseExpression, ParseOptional, Print, PrintOption, ParsePrimary, Stops, Printable;
    ComprehensionParts(e);
    var t1 := S(RBracket) + rest;
    var t2 := PrintOption(S(Pipe), e.projection) + t1;
    var t3 := PrintOption(S(Where), e.filter) + t2;
    var t4 := Print(e.source) + t3;
    ComprehensionTokens(e, rest);
    assert t1[1..] == rest;
    ClosesStops(RBracket, rest);
    OptionTrip(Pipe, e.projection, t1);
    OptionStops(Pipe, e.projection, t1);
    OptionHead(Pipe, e.projection, t1);
    OptionTrip(Where, e.filter, t2);
    OptionStops(Where, e.filter, t2);
    RoundTrip(e.source, t3, 0);
    ComprehensionPrimary(e, t4, rest);
  }

  lemma OptionStops(s: Symbol, e: Option<Expr>, rest: Tokens)
    requires Stops(rest) && Closes(s)
    ensures Stops(PrintOption(S(s), e) + rest)
  {
    hide Print;
    OptionHead(s, e, rest);
    if e.None? {
      assert PrintOption(S(s), e) + rest == rest;
    }
  }

  lemma ComprehensionPrimary(e: Expr, ts: Tokens, rest: Tokens)
    requires e.Comprehension? && ParseComprehension(e.variable, ts) == Parses(e, rest)
    ensures ParsePrimary([Sym(LBracket), Ident(e.variable), Sym(InKw)] + ts) == Parses(e, rest)
  {
    hide ParseComprehension, ParseItems;
    var all := [Sym(LBracket), Ident(e.variable), Sym(InKw)] + ts;
    assert all[1..][2..] == ts && all[1..][1..][0] == Sym(InKw);
    assert ParseList(all[1..]) == Parses(e, rest);
  }

  lemma ComprehensionTokens(e: Expr, rest: Tokens)
    requires e.Comprehension? && !Reserved(e.variable)
    ensures Print(e) + rest ==
            [Sym(LBracket), Ident(e.variable), Sym(InKw)]
            + (Print(e.source) + (PrintOption(S(Where), e.filter) + (PrintOption(S(Pipe), e.projection) + (S(RBracket) + rest))))
  {
    hide PrintOption;
  }

  lemma ComprehensionParts(e: Expr)
    requires e.Comprehension? && Printable(e)
    ensures Printable(e.source) && !Reserved(e.variable)
    ensures (e.filter.Some? ==> Printable(e.filter.value)) && (e.projection.Some? ==> Printable(e.projection.value))
  {
  }

  lemma {:induction false} ReduceTrip(e: Expr, rest: Tokens)
    requires e.Reduce? && Printable(e)
    ensures ParsePrimary(Print(e) + rest) == Parses(e, rest)
    decreases e, 1
  {
    hide ParseExpression, Print, ParsePrimary, Stops, Printable;
    ReduceParts(e);
    var t1 := S(RParen) + rest;
    var t2 := Print(e.body) + t1;
    var t3 := S(Pipe) + t2;
    var t4 := Print(e.source) + t3;
    var t5 := [Sym(Comma), Ident(e.variable), Sym(InKw)] + t4;
    var t6 := Print(e.init) + t5;
    var t7 := [Sym(LParen), Ident(e.accumulator), Sym(EqSign)] + t6;
    ReduceTokens(e, rest);
    RParenStops(rest);
    ClosesStops(Pipe, t2);
    CommaStops([Ident(e.variable), Sym(InKw)] + t4);
    assert t5 == S(Comma) + ([Ident(e.variable), Sym(InKw)] + t4);
    RoundTrip(e.init, t5, 0);
    RoundTrip(e.source, t3, 0);
    RoundTrip(e.body, t1, 0);
    assert t7[3..] == t6 && t5[3..] == t4 && t3[1..] == t2 && t1[1..] == rest;
    assert t5[1..][0] == Ident(e.variable) && t5[2..][0] == Sym(InKw);
    assert ParseBinder(Comma, Pipe, t5) == Parses((e.variable, e.source, e.body), rest);
    assert ParseReduce(t7) == Parses(e, rest);
    ReducePrimary(t7, e, rest);
  }

  lemma UpperReduce()
    ensures Upper("reduce") == "REDUCE"
  {
  }

  lemma ReducePrimary(ts: Tokens, e: Expr, rest: Tokens)
    requires ParseReduce(ts) == Parses(e, rest)
    ensures ParsePrimary([Ident("reduce")] + ts) == Parses(e, rest)
  {
    hide ParseReduce, Upper;
    UpperReduce();
    assert ([Ident("reduce")] + ts)[1..] == ts;
  }

  lemma ReduceTokens(e: Expr, rest: Tokens)
    requires e.Reduce? && !Reserved(e.accumulator) && !Reserved(e.variable)
    ensures Print(e) + rest ==
            [Ident("reduce")] + ([Sym(LParen), Ident(e.accumulator), Sym(EqSign)]
            + (Print(e.init) + ([Sym(Comma), Ident(e.variable), Sym(InKw)]
            + (Print(e.source) + (S(Pipe) + (Print(e.body) + (S(RParen) + rest)))))))
  {
    hide Minus, ReadsAsLiteral, Temporal, OpTokens, PrintLiteral;
  }

  lemma ReduceParts(e: Expr)
    requires e.Reduce? && Printable(e)
    ensures Printable(e.init) && Printable(e.source) && Printable(e.body)
    ensures !Reserved(e.accumulator) && !Reserved(e.variable)
  {
  }

  lemma {:induction false} QuantifierTrip(e: Expr, rest: Tokens)
    requires e.Quantifier? && Printable(e)
    ensures ParsePrimary(Print(e) + rest) == Parses(e, rest)
    decreases e, 1
  {
    hide ParseExpression, Print, ParsePrimary, Stops, Printable;
    QuantifierParts(e);
    var t1 := S(RParen) + rest;
    var t2 := Print(e.condition) + t1;
    var t3 := S(Where) + t2;
    var t4 := Print(e.source) + t3;
    var t5 := [Sym(LParen), Ident(e.variable), Sym(InKw)] + t4;
    QuantifierTokens(e, rest);
    RParenStops(rest);
    ClosesStops(Where, t2);
    RoundTrip(e.source, t3, 0);
    RoundTrip(e.condition, t1, 0);
    assert t5[3..] == t4 && t3[1..] == t2 && t1[1..] == rest;
    assert ParseBinder(LParen, Where, t5) == Parses((e.variable, e.source, e.condition), rest);
    QuantifierPrimary(t5, e, rest);
  }

  lemma UpperQuantifier(kind: QuantifierKind)
    ensures Upper(QuantifierName(kind)) ==
            match kind case All => "ALL" case Any => "ANY" case NoneOf => "NONE" case Single => "SINGLE"
  {
    match kind
    case All => assert Upper("all") == "ALL";
    case Any => assert Upper("any") == "ANY";
    case NoneOf => assert Upper("none") == "NONE";
    case Single => assert Upper("single") == "SINGLE";
  }

  lemma QuantifierPrimary(ts: Tokens, e: Expr, rest: Tokens)
    requires e.Quantifier? && ParseQuantifier(e.kind, ts) == Parses(e, rest)
    ensures ParsePrimary([Ident(QuantifierName(e.kind))] + ts) == Parses(e, rest)
  {
    hide ParseQuantifier, Upper, QuantifierName;
    UpperQuantifier(e.kind);
    assert ([Ident(QuantifierName(e.kind))] + ts)[1..] == ts;
  }

  lemma QuantifierTokens(e: Expr, rest: Tokens)
    requires e.Quantifier? && !Reserved(e.variable)
    ensures Print(e) + rest ==
            [Ident(QuantifierName(e.kind))] + ([Sym(LParen), Ident(e.variable), Sym(InKw)]
            + (Print(e.source) + (S(Where) + (Print(e.condition) + (S(RParen) + rest)))))
  {
  }

  lemma QuantifierParts(e: Expr)
    requires e.Quantifier? && Printable(e)
    ensures Printable(e.source) && Printable(e.condition) && !Reserved(e.variable)
  {
  }
}
