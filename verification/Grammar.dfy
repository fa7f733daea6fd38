/** The expression grammar (src/cypher/parser.rs:1004-1405, 1437-1532, 1571-1582) as functions of the
    tokens still ahead, and the printer (src/cypher/ast.rs:729-803) as a token sequence. */
module Grammar {
  import opened Frames
  import opened Ast

  datatype Symbol =
    | Distinct | With | Where | When | Then | Else | CaseKw | End | InKw | ContainsKw | Starts | Ends | AndKw | OrKw | NotKw
    | Is | NullKw | TrueKw | FalseKw
    | LParen | RParen | LBracket | RBracket | LBrace | RBrace | Colon | Comma | Dot | Dash | Pipe | Star | Plus | Slash
    | Percent | Caret | EqSign | NeSign | LtSign | GtSign | LeSign | GeSign
    | Eof

  datatype Token =
    | Ident(name: string)
    | Parameter(name: string)
    | LitTok(literal: Literal)
    | Sym(sym: Symbol)
    /** Tokens no expression uses. */
    | OtherTok(text: string)

  type Tokens = seq<Token>

  datatype Parsed<T> = Fails | Parses(value: T, rest: Tokens)

  function Peek(ts: Tokens): Token {
    if ts == [] then Sym(Eof) else ts[0]
  }

  predicate At(ts: Tokens, s: Symbol) {
    ts != [] && ts[0] == Sym(s)
  }

  // ---------------------------------------------------------------- names

  function UpperChar(c: char): char {
    if 'a' <= c <= 'z' then (c as int - 'a' as int + 'A' as int) as char else c
  }

  /** `to_ascii_uppercase` */
  function Upper(s: string): string {
    seq(|s|, i requires 0 <= i < |s| => UpperChar(s[i]))
  }

  /** Identifiers that stand for something else at the start of an operand. */
  predicate Special(name: string) {
    Upper(name) in {"TRUE", "FALSE", "NULL", "CASE", "REDUCE", "ALL", "ANY", "NONE", "SINGLE", "EXISTS"}
  }

  /** The lexer's keywords, in any case. */
  predicate Reserved(name: string) {
    Upper(name) in {"MATCH", "RETURN", "WHERE", "CREATE", "DELETE", "SET", "REMOVE", "MERGE", "WITH", "UNWIND", "UNION", "CALL",
                    "DISTINCT", "AS", "ASC", "DESC", "SKIP", "LIMIT", "ORDER", "BY", "ON", "WHEN", "THEN", "ELSE", "CASE", "END",
                    "IN", "CONTAINS", "STARTS", "ENDS", "AND", "OR", "NOT", "IS", "NULL", "TRUE", "FALSE"}
  }

  function QuantifierOf(name: string): Option<QuantifierKind> {
    var u := Upper(name);
    if u == "ALL" then Some(All) else if u == "ANY" then Some(Any)
    else if u == "NONE" then Some(NoneOf) else if u == "SINGLE" then Some(Single) else None
  }

  // ---------------------------------------------------------------- infix operators

  const PREFIX_NOT_BP: nat := 35

  /** The operator a token starts, if any; `NOT` is one that fits nowhere. */
  datatype InfixAt = NoInfix | NotInfix | InfixOp_(op: InfixOp)

  function InfixSymbol(s: Symbol): InfixAt {
    match s
    case OrKw => InfixOp_(Or)
    case AndKw => InfixOp_(And)
    case NotKw => NotInfix
    case EqSign => InfixOp_(Eq)
    case NeSign => InfixOp_(Ne)
    case LtSign => InfixOp_(Lt)
    case GtSign => InfixOp_(Gt)
    case LeSign => InfixOp_(Le)
    case GeSign => InfixOp_(Ge)
    case InKw => InfixOp_(In)
    case ContainsKw => InfixOp_(Contains)
    case Starts => InfixOp_(StartsWith)
    case Ends => InfixOp_(EndsWith)
    case Plus => InfixOp_(Add)
    case Dash => InfixOp_(Sub)
    case Star => InfixOp_(Mul)
    case Slash => InfixOp_(Div)
    case Percent => InfixOp_(Mod)
    case Caret => InfixOp_(Pow)
    case _ => NoInfix
  }

  /** `current_infix_op` */
  function InfixOf(t: Token): InfixAt {
    match t
    case Ident(name) => if Upper(name) == "XOR" then InfixOp_(Xor) else NoInfix
    case Sym(s) => InfixSymbol(s)
    case _ => NoInfix
  }

  /** `infix_binding_power` */
  function BindingPower(op: InfixOp): (nat, nat) {
    match op
    case Or => (10, 11)
    case Xor => (20, 21)
    case And => (30, 31)
    case Add => (50, 51)
    case Sub => (50, 51)
    case Mul => (60, 61)
    case Div => (60, 61)
    case Mod => (60, 61)
    case Pow => (70, 71)
    case Regex => (0, 0)
    case _ => (40, 41)
  }

  // ---------------------------------------------------------------- the grammar

  function ParseExpression(ts: Tokens, minBp: nat): (p: Parsed<Expr>)
    ensures p.Parses? ==> |p.rest| < |ts|
    decreases |ts|, 5
  {
    match ParseUnary(ts)
    case Fails => Fails
    case Parses(lhs, rest) =>
      match InfixLoop(lhs, rest, minBp)
      case Fails => Fails
      case Parses(e, rest') => NullLoop(e, rest')
  }

  function InfixLoop(lhs: Expr, ts: Tokens, minBp: nat): (p: Parsed<Expr>)
    ensures p.Parses? ==> |p.rest| <= |ts|
    decreases |ts|, 4
  {
    match InfixOf(Peek(ts))
    case NoInfix => Parses(lhs, ts)
    case NotInfix =>
      // Binds with 0 and is refused once its right side is read.
      if 0 < minBp then Parses(lhs, ts) else Fails
    case InfixOp_(op) =>
      if BindingPower(op).0 < minBp then Parses(lhs, ts)
      else if (op.StartsWith? || op.EndsWith?) && !At(ts[1..], With) then Fails
      else
        var after := if op.StartsWith? || op.EndsWith? then ts[2..] else ts[1..];
        match ParseExpression(after, BindingPower(op).1)
        case Fails => Fails
        case Parses(rhs, rest) => InfixLoop(Infix(op, lhs, rhs), rest, minBp)
  }

  predicate AtNull(ts: Tokens) {
    At(ts, NullKw) || (ts != [] && ts[0].Ident? && Upper(ts[0].name) == "NULL")
  }

  /** `IS NULL` and `IS NOT NULL`, as often as they come. */
  function NullLoop(lhs: Expr, ts: Tokens): (p: Parsed<Expr>)
    ensures p.Parses? ==> |p.rest| <= |ts|
    decreases |ts|, 3
  {
    if !At(ts, Is) then Parses(lhs, ts)
    else if At(ts[1..], NotKw) then
      if AtNull(ts[2..]) then NullLoop(IsNotNull(lhs), ts[3..]) else Fails
    else if AtNull(ts[1..]) then NullLoop(IsNull(lhs), ts[2..])
    else Fails
  }

  function ParseUnary(ts: Tokens): (p: Parsed<Expr>)
    ensures p.Parses? ==> |p.rest| < |ts|
    decreases |ts|, 4
  {
    if At(ts, NotKw) then
      (match ParseExpression(ts[1..], PREFIX_NOT_BP)
       case Fails => Fails
       case Parses(e, rest) => Parses(Not(e), rest))
    else if At(ts, Dash) then
      (match ParsePrimary(ts[1..])
       case Fails => Fails
       case Parses(e, rest) => Parses(Unary(Negate, e), rest))
    else
      match ParsePrimary(ts)
      case Fails => Fails
      case Parses(e, rest) => ParsePostfix(e, rest)
  }

  function ParsePrimary(ts: Tokens): (p: Parsed<Expr>)
    ensures p.Parses? ==> |p.rest| < |ts|
    decreases |ts|, 3
  {
    match Peek(ts)
    case LitTok(l) => Parses(Lit(l), ts[1..])
    case Parameter(name) => Parses(Param(name), ts[1..])
    case Ident(_) => ParseIdent(ts)
    case OtherTok(_) => Fails
    case Sym(s) =>
      match s
      case NullKw => Parses(Lit(NullLit), ts[1..])
      case TrueKw => Parses(Lit(Bool(true)), ts[1..])
      case FalseKw => Parses(Lit(Bool(false)), ts[1..])
      case LParen =>
        (match ParseExpression(ts[1..], 0)
         case Fails => Fails
         case Parses(e, rest) => if At(rest, RParen) then Parses(e, rest[1..]) else Fails)
      case LBracket => ParseList(ts[1..])
      case LBrace => ParseMap(ts[1..])
      case Star => Parses(Wildcard, ts[1..])
      case CaseKw => ParseCase(ts[1..])
      case _ => Fails
  }

  function ParseIdent(ts: Tokens): (p: Parsed<Expr>)
    requires ts != [] && ts[0].Ident?
    ensures p.Parses? ==> |p.rest| < |ts|
    decreases |ts|, 2
  {
    var name, rest := ts[0].name, ts[1..];
    var u := Upper(name);
    if u == "TRUE" then Parses(Lit(Bool(true)), rest)
    else if u == "FALSE" then Parses(Lit(Bool(false)), rest)
    else if u == "NULL" then Parses(Lit(NullLit), rest)
    else if u == "CASE" then
      // The keyword itself may follow once more.
      ParseCase(if At(rest, CaseKw) then rest[1..] else rest)
    else if u == "REDUCE" then ParseReduce(rest)
    else if QuantifierOf(name).Some? then ParseQuantifier(QuantifierOf(name).value, rest)
    else if u == "EXISTS" then Fails
    else if At(rest, LParen) then
      match ParseArguments(rest[1..])
      case Fails => Fails
      case Parses((args, distinct), after) => ParsePostfix(Call(name, args, distinct), after)
    else ParsePostfix(Var(name), rest)
  }

  /** A call's arguments and its closing parenthesis. */
  function ParseArguments(ts: Tokens): (p: Parsed<(seq<Expr>, bool)>)
    ensures p.Parses? ==> |p.rest| < |ts|
    decreases |ts|, 8
  {
    var distinct := At(ts, Distinct);
    match ParseArgumentList(if distinct then ts[1..] else ts)
    case Fails => Fails
    case Parses(args, rest) => if At(rest, RParen) then Parses((args, distinct), rest[1..]) else Fails
  }

  function ParseArgumentList(ts: Tokens): (p: Parsed<seq<Expr>>)
    ensures p.Parses? ==> |p.rest| <= |ts|
    decreases |ts|, 7
  {
    if At(ts, Star) then Parses([Wildcard], ts[1..])
    else if At(ts, RParen) then Parses([], ts)
    else ParseItems(ts)
  }

  /** One or more expressions with commas between them. */
  function ParseItems(ts: Tokens): (p: Parsed<seq<Expr>>)
    ensures p.Parses? ==> |p.rest| < |ts|
    decreases |ts|, 6
  {
    match ParseExpression(ts, 0)
    case Fails => Fails
    case Parses(e, rest) =>
      if At(rest, Comma) then
        match ParseItems(rest[1..])
        case Fails => Fails
        case Parses(es, rest') => Parses([e] + es, rest')
      else Parses([e], rest)
  }

  function ParsePostfix(lhs: Expr, ts: Tokens): (p: Parsed<Expr>)
    ensures p.Parses? ==> |p.rest| <= |ts|
    decreases |ts|, 1
  {
    if At(ts, Dot) then
      if Peek(ts[1..]).Ident? then ParsePostfix(Prop(lhs, Peek(ts[1..]).name), ts[2..]) else Fails
    else if At(ts, LBracket) then
      (match ParseSubscript(lhs, ts[1..])
       case Fails => Fails
       case Parses(e, rest) => ParsePostfix(e, rest))
    else Parses(lhs, ts)
  }

  /** The dots of a slice: one or two tokens. */
  function AfterDots(ts: Tokens): (rest: Tokens)
    requires At(ts, Dot)
    ensures |rest| < |ts|
  {
    if At(ts[1..], Dot) then ts[2..] else ts[1..]
  }

  /** After an opening bracket: an index, a slice, or nothing at all. */
  function ParseSubscript(lhs: Expr, ts: Tokens): (p: Parsed<Expr>)
    ensures p.Parses? ==> |p.rest| < |ts|
    decreases |ts|, 6
  {
    if At(ts, Dot) then ParseSliceEnd(lhs, None, AfterDots(ts))
    else if At(ts, RBracket) then Parses(lhs, ts[1..])
    else
      match ParseExpression(ts, 0)
      case Fails => Fails
      case Parses(e, rest) =>
        if At(rest, Dot) then ParseSliceEnd(lhs, Some(e), AfterDots(rest))
        else if At(rest, RBracket) then Parses(Index(lhs, e), rest[1..])
        else Fails
  }

  function ParseSliceEnd(lhs: Expr, from: Option<Expr>, ts: Tokens): (p: Parsed<Expr>)
    ensures p.Parses? ==> |p.rest| < |ts|
    decreases |ts|, 6
  {
    if At(ts, RBracket) then Parses(Slice(lhs, from, None), ts[1..])
    else
      match ParseExpression(ts, 0)
      case Fails => Fails
      case Parses(e, rest) => if At(rest, RBracket) then Parses(Slice(lhs, from, Some(e)), rest[1..]) else Fails
  }

  /** After an opening bracket: a list, or a comprehension if it starts with a name and `IN`. */
  function ParseList(ts: Tokens): (p: Parsed<Expr>)
    ensures p.Parses? ==> |p.rest| < |ts|
    decreases |ts|, 7
  {
    if At(ts, RBracket) then Parses(ListOf([]), ts[1..])
    else if Peek(ts).Ident? && At(ts[1..], InKw) then ParseComprehension(Peek(ts).name, ts[2..])
    else
      match ParseItems(ts)
      case Fails => Fails
      case Parses(es, rest) => if At(rest, RBracket) then Parses(ListOf(es), rest[1..]) else Fails
  }

  /** An expression after a keyword, if the keyword is there. */
  function ParseOptional(s: Symbol, ts: Tokens): (p: Parsed<Option<Expr>>)
    ensures p.Parses? ==> |p.rest| <= |ts|
    decreases |ts|, 6
  {
    if At(ts, s) then
      match ParseExpression(ts[1..], 0)
      case Fails => Fails
      case Parses(e, rest) => Parses(Some(e), rest)
    else Parses(None, ts)
  }

  function ParseComprehension(variable: string, ts: Tokens): (p: Parsed<Expr>)
    ensures p.Parses? ==> |p.rest| < |ts|
    decreases |ts|, 7
  {
    match ParseExpression(ts, 0)
    case Fails => Fails
    case Parses(source, r1) =>
      match ParseOptional(Where, r1)
      case Fails => Fails
      case Parses(filter, r2) =>
        match ParseOptional(Pipe, r2)
        case Fails => Fails
        case Parses(projection, r3) =>
          if At(r3, RBracket) then Parses(Comprehension(variable, source, filter, projection), r3[1..]) else Fails
  }

  /** After an opening brace. */
  function ParseMap(ts: Tokens): (p: Parsed<Expr>)
    ensures p.Parses? ==> |p.rest| < |ts|
    decreases |ts|, 8
  {
    if At(ts, RBrace) then Parses(MapOf([]), ts[1..])
    else
      match ParseEntries(ts)
      case Fails => Fails
      case Parses(entries, rest) => if At(rest, RBrace) then Parses(MapOf(entries), rest[1..]) else Fails
  }

  function ParseEntry(ts: Tokens): (p: Parsed<(string, Expr)>)
    ensures p.Parses? ==> |p.rest| < |ts|
    decreases |ts|, 6
  {
    if !Peek(ts).Ident? || !At(ts[1..], Colon) then Fails
    else
      match ParseExpression(ts[2..], 0)
      case Fails => Fails
      case Parses(e, rest) => Parses((Peek(ts).name, e), rest)
  }

  function ParseEntries(ts: Tokens): (p: Parsed<seq<(string, Expr)>>)
    ensures p.Parses? ==> |p.rest| < |ts|
    decreases |ts|, 7
  {
    match ParseEntry(ts)
    case Fails => Fails
    case Parses(entry, rest) =>
      if At(rest, Comma) then
        match ParseEntries(rest[1..])
        case Fails => Fails
        case Parses(more, rest') => Parses([entry] + more, rest')
      else Parses([entry], rest)
  }

  /** After `CASE`. */
  function ParseCase(ts: Tokens): (p: Parsed<Expr>)
    ensures p.Parses? ==> |p.rest| < |ts|
    decreases |ts|, 8
  {
    if At(ts, When) then ParseCaseRest(None, ts)
    else
      match ParseExpression(ts, 0)
      case Fails => Fails
      case Parses(subject, rest) => ParseCaseRest(Some(subject), rest)
  }

  function ParseCaseRest(subject: Option<Expr>, ts: Tokens): (p: Parsed<Expr>)
    ensures p.Parses? ==> |p.rest| < |ts|
    decreases |ts|, 7
  {
    match ParseAlternatives(ts)
    case Fails => Fails
    case Parses(alternatives, r1) =>
      match ParseOptional(Else, r1)
      case Fails => Fails
      case Parses(default, r2) => if At(r2, End) then Parses(Case(subject, alternatives, default), r2[1..]) else Fails
  }

  /** An expression after a symbol that must be there. */
  function ParseAfter(s: Symbol, ts: Tokens): (p: Parsed<Expr>)
    ensures p.Parses? ==> |p.rest| < |ts|
    decreases |ts|, 6
  {
    if At(ts, s) then ParseExpression(ts[1..], 0) else Fails
  }

  /** After `WHEN`. */
  function ParseAlternative(ts: Tokens): (p: Parsed<(Expr, Expr)>)
    ensures p.Parses? ==> |p.rest| < |ts|
    decreases |ts|, 6
  {
    match ParseExpression(ts, 0)
    case Fails => Fails
    case Parses(condition, rest) =>
      match ParseAfter(Then, rest)
      case Fails => Fails
      case Parses(result, rest') => Parses((condition, result), rest')
  }

  function ParseAlternatives(ts: Tokens): (p: Parsed<seq<(Expr, Expr)>>)
    ensures p.Parses? ==> |p.rest| <= |ts|
    decreases |ts|, 5
  {
    if !At(ts, When) then Parses([], ts)
    else
      match ParseAlternative(ts[1..])
      case Fails => Fails
      case Parses(alternative, rest) =>
        match ParseAlternatives(rest)
        case Fails => Fails
        case Parses(more, rest') => Parses([alternative] + more, rest')
  }

  /** A name between two symbols. */
  predicate NameBetween(ts: Tokens, open: Symbol, separator: Symbol) {
    At(ts, open) && Peek(ts[1..]).Ident? && At(ts[2..], separator)
  }

  /** After `reduce`. */
  function ParseReduce(ts: Tokens): (p: Parsed<Expr>)
    ensures p.Parses? ==> |p.rest| < |ts|
    decreases |ts|, 6
  {
    if !NameBetween(ts, LParen, EqSign) then Fails
    else
      match ParseExpression(ts[3..], 0)
      case Fails => Fails
      case Parses(init, rest) => ParseReduceRest(ts[1].name, init, rest)
  }

  /** A name and its source, another expression after `middle`, and a closing parenthesis. */
  function ParseBinder(open: Symbol, middle: Symbol, ts: Tokens): (p: Parsed<(string, Expr, Expr)>)
    ensures p.Parses? ==> |p.rest| < |ts|
    decreases |ts|, 6
  {
    if !NameBetween(ts, open, InKw) then Fails
    else
      match ParseExpression(ts[3..], 0)
      case Fails => Fails
      case Parses(source, r1) =>
        match ParseAfter(middle, r1)
        case Fails => Fails
        case Parses(last, r2) => if At(r2, RParen) then Parses((ts[1].name, source, last), r2[1..]) else Fails
  }

  function ParseReduceRest(acc: string, init: Expr, ts: Tokens): (p: Parsed<Expr>)
    ensures p.Parses? ==> |p.rest| < |ts|
    decreases |ts|, 7
  {
    match ParseBinder(Comma, Pipe, ts)
    case Fails => Fails
    case Parses((x, source, body), rest) => Parses(Reduce(acc, init, x, source, body), rest)
  }

  /** After `all`, `any`, `none` or `single`. */
  function ParseQuantifier(kind: QuantifierKind, ts: Tokens): (p: Parsed<Expr>)
    ensures p.Parses? ==> |p.rest| < |ts|
    decreases |ts|, 7
  {
    match ParseBinder(LParen, Where, ts)
    case Fails => Fails
    case Parses((x, source, condition), rest) => Parses(Quantifier(kind, x, source, condition), rest)
  }
}
