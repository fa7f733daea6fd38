/** The parser as the source runs it, a token list and a position in it
    (src/cypher/parser.rs:121-159, 1004-1405, 1437-1532), against the grammar. */
module Parser {
  import opened Frames
  import opened Ast
  import opened Grammar
  import Printing

  /** What the grammar makes of the tokens that were ahead, and what the parser made of them. */
  ghost predicate Agrees<T>(p: Parsed<T>, r: Option<T>, ahead: Tokens) {
    match p
    case Fails => r.None?
    case Parses(value, rest) => r == Some(value) && ahead == rest
  }

  /** `first` done, the rest is up to `p`. */
  ghost function After<T>(first: seq<T>, p: Parsed<seq<T>>): Parsed<seq<T>> {
    match p
    case Fails => Fails
    case Parses(more, rest) => Parses(first + more, rest)
  }

  // ---------------------------------------------------------------- the loops of the grammar, one turn

  predicate NeedsWith(at: InfixAt) {
    at.InfixOp_? && (at.op.StartsWith? || at.op.EndsWith?)
  }

  function LeftPower(at: InfixAt): nat {
    if at.InfixOp_? then BindingPower(at.op).0 else 0
  }

  function RightPower(at: InfixAt): nat {
    if at.InfixOp_? then BindingPower(at.op).1 else 0
  }

  lemma InfixTurn(lhs: Expr, ts: Tokens, minBp: nat)
    ensures var at := InfixOf(Peek(ts));
            && (at.NoInfix? || LeftPower(at) < minBp ==> InfixLoop(lhs, ts, minBp) == Parses(lhs, ts))
            && (!at.NoInfix? && minBp <= LeftPower(at) ==>
                  && ts != [] && ts[0] != Sym(Eof)
                  && (NeedsWith(at) && !At(ts[1..], With) ==> InfixLoop(lhs, ts, minBp).Fails?)
                  && (at.NotInfix? ==> InfixLoop(lhs, ts, minBp).Fails?)
                  && (at.InfixOp_? && (NeedsWith(at) ==> At(ts[1..], With)) ==>
                        var p := ParseExpression(if NeedsWith(at) then ts[1..][1..] else ts[1..], RightPower(at));
                        InfixLoop(lhs, ts, minBp) == if p.Fails? then Fails else InfixLoop(Infix(at.op, lhs, p.value), p.rest, minBp)))
  {
    hide ParseExpression, Upper, BindingPower;
    if ts != [] && At(ts[1..], With) {
      assert ts[1..][1..] == ts[2..];
    }
  }

  class ExprParser {
    const tokens: Tokens
    var pos: nat

    ghost predicate Valid()
      reads this
    {
      pos < |tokens| && tokens[|tokens| - 1] == Sym(Eof)
    }

    /** The tokens not yet consumed. */
    ghost function Ahead(): Tokens
      reads this
      requires Valid()
    {
      tokens[pos..]
    }

    constructor (tokens: Tokens)
      requires tokens != [] && tokens[|tokens| - 1] == Sym(Eof)
      ensures Valid() && this.tokens == tokens && Ahead() == tokens
    {
      this.tokens := tokens;
      pos := 0;
    }

    predicate Sees(s: Symbol)
      reads this
      requires Valid()
      ensures Sees(s) == At(Ahead(), s)
    {
      tokens[pos] == Sym(s)
    }

    /** Past a token that is not the last; the last is the end of input. */
    method Advance()
      requires Valid()
      modifies this`pos
      ensures Valid()
      ensures old(tokens[pos]) != Sym(Eof) ==> pos == old(pos) + 1 && Ahead() == old(Ahead())[1..]
    {
      if pos + 1 < |tokens| {
        pos := pos + 1;
      }
    }

    method Expect(s: Symbol) returns (ok: bool)
      requires Valid() && s != Eof
      modifies this`pos
      ensures Valid() && ok == At(old(Ahead()), s) && pos == old(pos) + (if ok then 1 else 0)
      ensures Ahead() == if ok then old(Ahead())[1..] else old(Ahead())
    {
      ok := Sees(s);
      if ok {
        Advance();
      }
    }

    method ExpectIdent() returns (name: Option<string>)
      requires Valid()
      modifies this`pos
      ensures Valid() && name == (if Peek(old(Ahead())).Ident? then Some(Peek(old(Ahead())).name) else None)
      ensures Ahead() == (if name.Some? then old(Ahead())[1..] else old(Ahead())) && pos == old(pos) + (if name.Some? then 1 else 0)
    {
      if tokens[pos].Ident? {
        name := Some(tokens[pos].name);
        Advance();
      } else {
        name := None;
      }
    }

    method ReadExpression(minBp: nat) returns (r: Option<Expr>)
      requires Valid()
      modifies this`pos
      ensures Valid() && Agrees(ParseExpression(old(Ahead()), minBp), r, Ahead()) && (r.Some? ==> pos > old(pos))
      decreases |tokens| - pos, 5
    {
      hide ParseUnary, InfixLoop, InfixOf, NullLoop;
      r := ReadUnary();
      if r.None? {
        return;
      }
      ghost var lhs, ts := r.value, Ahead();
      while !InfixOf(tokens[pos]).NoInfix?
        invariant Valid() && pos > old(pos) && r.Some?
        invariant InfixLoop(r.value, Ahead(), minBp) == InfixLoop(lhs, ts, minBp)
        decreases |tokens| - pos
      {
        var at := InfixOf(tokens[pos]);
        if LeftPower(at) < minBp {
          break;
        }
        r := ReadInfix(r.value, at, minBp);
        if r.None? {
          return;
        }
      }
      InfixTurn(r.value, Ahead(), minBp);
      r := ReadNulls(r.value);
    }

    /** `consume_infix` */
    method ReadInfix(lhs: Expr, at: InfixAt, ghost minBp: nat) returns (r: Option<Expr>)
      requires Valid() && at == InfixOf(tokens[pos]) && !at.NoInfix? && minBp <= LeftPower(at)
      modifies this`pos
      ensures Valid()
      ensures r.None? ==> InfixLoop(lhs, old(Ahead()), minBp).Fails?
      ensures r.Some? ==> InfixLoop(lhs, old(Ahead()), minBp) == InfixLoop(r.value, Ahead(), minBp) && pos > old(pos)
      decreases |tokens| - pos, 4
    {
      hide ParseExpression, InfixOf, InfixLoop, BindingPower;
      r := None;
      InfixTurn(lhs, Ahead(), minBp);
      Advance();
      if NeedsWith(at) {
        var ok := Expect(With);
        if !ok {
          return;
        }
      }
      var rhs := ReadExpression(RightPower(at));
      if rhs.Some? && at.InfixOp_? {
        r := Some(Infix(at.op, lhs, rhs.value));
      }
    }

    method ReadNulls(e: Expr) returns (r: Option<Expr>)
      requires Valid()
      modifies this`pos
      ensures Valid() && Agrees(NullLoop(e, old(Ahead())), r, Ahead()) && pos >= old(pos)
    {
      r := Some(e);
      while Sees(Is)
        invariant Valid() && pos >= old(pos) && r.Some?
        invariant NullLoop(r.value, Ahead()) == NullLoop(e, old(Ahead()))
        decreases |tokens| - pos
      {
        Advance();
        if Sees(NotKw) {
          Advance();
          if !SeesNull() {
            return None;
          }
          Advance();
          r := Some(IsNotNull(r.value));
        } else if SeesNull() {
          Advance();
          r := Some(IsNull(r.value));
        } else {
          return None;
        }
      }
    }

    method ReadUnary() returns (r: Option<Expr>)
      requires Valid()
      modifies this`pos
      ensures Valid() && Agrees(ParseUnary(old(Ahead())), r, Ahead()) && (r.Some? ==> pos > old(pos))
      decreases |tokens| - pos, 4
    {
      hide ParseExpression, ParsePrimary, ParsePostfix;
      if Sees(NotKw) {
        Advance();
        r := ReadExpression(PREFIX_NOT_BP);
        if r.Some? {
          r := Some(Not(r.value));
        }
      } else if Sees(Dash) {
        Advance();
        r := ReadPrimary();
        if r.Some? {
          r := Some(Unary(Negate, r.value));
        }
      } else {
        r := ReadPrimary();
        if r.Some? {
          r := ReadPostfix(r.value);
        }
      }
    }

    method ReadPrimary() returns (r: Option<Expr>)
      requires Valid()
      modifies this`pos
      ensures Valid() && Agrees(ParsePrimary(old(Ahead())), r, Ahead()) && (r.Some? ==> pos > old(pos))
      decreases |tokens| - pos, 3
    {
      hide ParseExpression, ParseIdent, ParseList, ParseMap, ParseCase;
      r := None;
      match tokens[pos]
      case LitTok(l) => Advance(); r := Some(Lit(l));
      case Parameter(name) => Advance(); r := Some(Param(name));
      case Ident(_) => r := ReadIdent();
      case OtherTok(_) =>
      case Sym(s) =>
        match s
        case NullKw => Advance(); r := Some(Lit(NullLit));
        case TrueKw => Advance(); r := Some(Lit(Bool(true)));
        case FalseKw => Advance(); r := Some(Lit(Bool(false)));
        case LParen => r := ReadGroup();
        case LBracket => Advance(); r := ReadList();
        case LBrace => Advance(); r := ReadMap();
        case Star => Advance(); r := Some(Wildcard);
        case CaseKw => Advance(); r := ReadCase();
        case _ =>
    }

    method ReadGroup() returns (r: Option<Expr>)
      requires Valid() && Sees(LParen)
      modifies this`pos
      ensures Valid() && Agrees(ParsePrimary(old(Ahead())), r, Ahead()) && (r.Some? ==> pos > old(pos))
      decreases |tokens| - pos, 2
    {
      hide ParseExpression;
      Advance();
      r := ReadExpression(0);
      if r.Some? {
        var ok := Expect(RParen);
        if !ok {
          return None;
        }
      }
    }

    method ReadIdent() returns (r: Option<Expr>)
      requires Valid() && tokens[pos].Ident?
      modifies this`pos
      ensures Valid() && Agrees(ParseIdent(old(Ahead())), r, Ahead()) && (r.Some? ==> pos > old(pos))
      decreases |tokens| - pos, 2
    {
      hide ParseCase, ParseReduce, ParseQuantifier, ParseArguments, ParsePostfix, Upper;
      var name := tokens[pos].name;
      var u := Upper(name);
      Advance();
      if u == "TRUE" {
        r := Some(Lit(Bool(true)));
      } else if u == "FALSE" {
        r := Some(Lit(Bool(false)));
      } else if u == "NULL" {
        r := Some(Lit(NullLit));
      } else if u == "CASE" {
        if Sees(CaseKw) {
          Advance();
        }
        r := ReadCase();
      } else if u == "REDUCE" {
        r := ReadReduce();
      } else if QuantifierOf(name).Some? {
        r := ReadQuantifier(QuantifierOf(name).value);
      } else if u == "EXISTS" {
        r := None;
      } else if Sees(LParen) {
        Advance();
        var args := ReadArguments();
        if args.None? {
          return None;
        }
        r := ReadPostfix(Call(name, args.value.0, args.value.1));
      } else {
        r := ReadPostfix(Var(name));
      }
    }

    method ReadArguments() returns (r: Option<(seq<Expr>, bool)>)
      requires Valid()
      modifies this`pos
      ensures Valid() && Agrees(ParseArguments(old(Ahead())), r, Ahead()) && (r.Some? ==> pos > old(pos))
      decreases |tokens| - pos, 8
    {
      hide ParseArgumentList;
      var distinct := Sees(Distinct);
      if distinct {
        Advance();
      }
      var args := ReadArgumentList();
      if args.None? {
        return None;
      }
      var ok := Expect(RParen);
      r := if ok then Some((args.value, distinct)) else None;
    }

    method ReadArgumentList() returns (r: Option<seq<Expr>>)
      requires Valid()
      modifies this`pos
      ensures Valid() && Agrees(ParseArgumentList(old(Ahead())), r, Ahead()) && (r.Some? ==> pos >= old(pos))
      decreases |tokens| - pos, 7
    {
      hide ParseItems;
      if Sees(Star) {
        Advance();
        r := Some([Wildcard]);
      } else if Sees(RParen) {
        r := Some([]);
      } else {
        r := ReadItems();
      }
    }

    /** `parse_comma_separated_expressions`, and the loop of `parse_list_or_comprehension` */
    method ReadItems() returns (r: Option<seq<Expr>>)
      requires Valid()
      modifies this`pos
      ensures Valid() && Agrees(ParseItems(old(Ahead())), r, Ahead()) && (r.Some? ==> pos > old(pos))
      decreases |tokens| - pos, 6
    {
      hide ParseExpression;
      var items: seq<Expr> := [];
      ghost var whole := ParseItems(Ahead());
      assert whole.Parses? ==> [] + whole.value == whole.value;
      while true
        invariant Valid() && pos >= old(pos)
        invariant whole == After(items, ParseItems(Ahead()))
        decreases |tokens| - pos
      {
        var e := ReadExpression(0);
        if e.None? {
          return None;
        }
        if !Sees(Comma) {
          return Some(items + [e.value]);
        }
        Advance();
        ghost var more := ParseItems(Ahead());
        assert more.Parses? ==> items + ([e.value] + more.value) == (items + [e.value]) + more.value;
        items := items + [e.value];
      }
    }

    method ReadPostfix(e: Expr) returns (r: Option<Expr>)
      requires Valid()
      modifies this`pos
      ensures Valid() && Agrees(ParsePostfix(e, old(Ahead())), r, Ahead()) && (r.Some? ==> pos >= old(pos))
      decreases |tokens| - pos, 1
    {
      hide ParseSubscript;
      r := Some(e);
      while true
        invariant Valid() && pos >= old(pos) && r.Some?
        invariant ParsePostfix(r.value, Ahead()) == ParsePostfix(e, old(Ahead()))
        decreases |tokens| - pos
      {
        ghost var ts := Ahead();
        if Sees(Dot) {
          Advance();
          var name := ExpectIdent();
          if name.None? {
            return None;
          }
          assert Ahead() == ts[2..];
          r := Some(Prop(r.value, name.value));
        } else if Sees(LBracket) {
          Advance();
          r := ReadSubscript(r.value);
          if r.None? {
            return;
          }
        } else {
          return;
        }
      }
    }

    method SkipDots()
      requires Valid() && Sees(Dot)
      modifies this`pos
      ensures Valid() && Ahead() == AfterDots(old(Ahead())) && pos > old(pos)
    {
      Advance();
      if Sees(Dot) {
        Advance();
      }
    }

    method ReadSubscript(e: Expr) returns (r: Option<Expr>)
      requires Valid()
      modifies this`pos
      ensures Valid() && Agrees(ParseSubscript(e, old(Ahead())), r, Ahead()) && (r.Some? ==> pos > old(pos))
      decreases |tokens| - pos, 6
    {
      hide ParseExpression, ParseSliceEnd, AfterDots;
      r := None;
      if Sees(Dot) {
        SkipDots();
        r := ReadSliceEnd(e, None);
      } else if Sees(RBracket) {
        Advance();
        r := Some(e);
      } else {
        ghost var ts := Ahead();
        var index := ReadExpression(0);
        if index.None? {
          return;
        }
        ghost var rest := Ahead();
        assert ParseExpression(ts, 0) == Parses(index.value, rest);
        if Sees(Dot) {
          SkipDots();
          r := ReadSliceEnd(e, index);
        } else {
          var ok := Expect(RBracket);
          if ok {
            r := Some(Index(e, index.value));
          }
        }
      }
    }

    method ReadSliceEnd(e: Expr, from: Option<Expr>) returns (r: Option<Expr>)
      requires Valid()
      modifies this`pos
      ensures Valid() && Agrees(ParseSliceEnd(e, from, old(Ahead())), r, Ahead()) && (r.Some? ==> pos > old(pos))
      decreases |tokens| - pos, 6
    {
      hide ParseExpression;
      ghost var ts := Ahead();
      if Sees(RBracket) {
        Advance();
        return Some(Slice(e, from, None));
      }
      var to := ReadExpression(0);
      if to.None? {
        return None;
      }
      ghost var rest := Ahead();
      assert ParseExpression(ts, 0) == Parses(to.value, rest);
      var ok := Expect(RBracket);
      r := if ok then Some(Slice(e, from, to)) else None;
    }

    method ReadList() returns (r: Option<Expr>)
      requires Valid()
      modifies this`pos
      ensures Valid() && Agrees(ParseList(old(Ahead())), r, Ahead()) && (r.Some? ==> pos > old(pos))
      decreases |tokens| - pos, 7
    {
      hide ParseItems, ParseComprehension;
      if Sees(RBracket) {
        Advance();
        return Some(ListOf([]));
      }
      var saved := pos;
      if tokens[pos].Ident? {
        var variable := tokens[pos].name;
        Advance();
        if Sees(InKw) {
          Advance();
          r := ReadComprehension(variable);
          return;
        }
        pos := saved;
      }
      var items := ReadItems();
      if items.None? {
        return None;
      }
      var ok := Expect(RBracket);
      r := if ok then Some(ListOf(items.value)) else None;
    }

    method ReadOptional(s: Symbol) returns (r: Option<Option<Expr>>)
      requires Valid() && s != Eof
      modifies this`pos
      ensures Valid() && Agrees(ParseOptional(s, old(Ahead())), r, Ahead()) && (r.Some? ==> pos >= old(pos))
      decreases |tokens| - pos, 6
    {
      hide ParseExpression;
      if !Sees(s) {
        return Some(None);
      }
      Advance();
      var e := ReadExpression(0);
      r := if e.Some? then Some(e) else None;
    }

    method ReadComprehension(variable: string) returns (r: Option<Expr>)
      requires Valid()
      modifies this`pos
      ensures Valid() && Agrees(ParseComprehension(variable, old(Ahead())), r, Ahead()) && (r.Some? ==> pos > old(pos))
      decreases |tokens| - pos, 7
    {
      hide ParseExpression, ParseOptional;
      ghost var ts := Ahead();
      var source := ReadExpression(0);
      if source.None? {
        return None;
      }
      ghost var r1 := Ahead();
      assert ParseExpression(ts, 0) == Parses(source.value, r1);
      var filter := ReadOptional(Where);
      if filter.None? {
        return None;
      }
      ghost var r2 := Ahead();
      assert ParseOptional(Where, r1) == Parses(filter.value, r2);
      var projection := ReadOptional(Pipe);
      if projection.None? {
        return None;
      }
      ghost var r3 := Ahead();
      assert ParseOptional(Pipe, r2) == Parses(projection.value, r3);
      var ok := Expect(RBracket);
      r := if ok then Some(Comprehension(variable, source.value, filter.value, projection.value)) else None;
    }

    method ReadMap() returns (r: Option<Expr>)
      requires Valid()
      modifies this`pos
      ensures Valid() && Agrees(ParseMap(old(Ahead())), r, Ahead()) && (r.Some? ==> pos > old(pos))
      decreases |tokens| - pos, 8
    {
      hide ParseEntries;
      if Sees(RBrace) {
        Advance();
        return Some(MapOf([]));
      }
      var entries := ReadEntries();
      if entries.None? {
        return None;
      }
      var ok := Expect(RBrace);
      r := if ok then Some(MapOf(entries.value)) else None;
    }

    method ReadEntry() returns (r: Option<(string, Expr)>)
      requires Valid()
      modifies this`pos
      ensures Valid() && Agrees(ParseEntry(old(Ahead())), r, Ahead()) && (r.Some? ==> pos > old(pos))
      decreases |tokens| - pos, 6
    {
      hide ParseExpression;
      var key := ExpectIdent();
      if key.None? {
        return None;
      }
      var ok := Expect(Colon);
      if !ok {
        return None;
      }
      assert Ahead() == old(Ahead())[2..];
      var value := ReadExpression(0);
      r := if value.Some? then Some((key.value, value.value)) else None;
    }

    method ReadEntries() returns (r: Option<seq<(string, Expr)>>)
      requires Valid()
      modifies this`pos
      ensures Valid() && Agrees(ParseEntries(old(Ahead())), r, Ahead()) && (r.Some? ==> pos > old(pos))
      decreases |tokens| - pos, 7
    {
      hide ParseEntry;
      var entries: seq<(string, Expr)> := [];
      ghost var whole := ParseEntries(Ahead());
      assert whole.Parses? ==> [] + whole.value == whole.value;
      while true
        invariant Valid() && pos >= old(pos)
        invariant whole == After(entries, ParseEntries(Ahead()))
        decreases |tokens| - pos
      {
        var entry := ReadEntry();
        if entry.None? {
          return None;
        }
        if !Sees(Comma) {
          return Some(entries + [entry.value]);
        }
        Advance();
        ghost var more := ParseEntries(Ahead());
        assert more.Parses? ==> entries + ([entry.value] + more.value) == (entries + [entry.value]) + more.value;
        entries := entries + [entry.value];
      }
    }

    method ReadCase() returns (r: Option<Expr>)
      requires Valid()
      modifies this`pos
      ensures Valid() && Agrees(ParseCase(old(Ahead())), r, Ahead()) && (r.Some? ==> pos > old(pos))
      decreases |tokens| - pos, 8
    {
      hide ParseExpression, ParseAlternatives, ParseOptional;
      var subject: Option<Expr> := None;
      if !Sees(When) {
        subject := ReadExpression(0);
        if subject.None? {
          return None;
        }
      }
      ghost var r0 := Ahead();
      assert ParseCase(old(Ahead())) == ParseCaseRest(subject, r0);
      var alternatives := ReadAlternatives();
      if alternatives.None? {
        return None;
      }
      ghost var r1 := Ahead();
      assert ParseAlternatives(r0) == Parses(alternatives.value, r1);
      var default := ReadOptional(Else);
      if default.None? {
        return None;
      }
      ghost var r2 := Ahead();
      assert ParseOptional(Else, r1) == Parses(default.value, r2);
      var ok := Expect(End);
      r := if ok then Some(Case(subject, alternatives.value, default.value)) else None;
    }

    /** A symbol that must be there, and the expression after it. */
    method ReadAfter(s: Symbol) returns (r: Option<Expr>)
      requires Valid() && s != Eof
      modifies this`pos
      ensures Valid() && Agrees(ParseAfter(s, old(Ahead())), r, Ahead()) && (r.Some? ==> pos > old(pos))
      decreases |tokens| - pos, 6
    {
      hide ParseExpression;
      var ok := Expect(s);
      if !ok {
        return None;
      }
      r := ReadExpression(0);
    }

    method ReadAlternative() returns (r: Option<(Expr, Expr)>)
      requires Valid()
      modifies this`pos
      ensures Valid() && Agrees(ParseAlternative(old(Ahead())), r, Ahead()) && (r.Some? ==> pos > old(pos))
      decreases |tokens| - pos, 6
    {
      hide ParseExpression, ParseAfter;
      var condition := ReadExpression(0);
      if condition.None? {
        return None;
      }
      var result := ReadAfter(Then);
      r := if result.Some? then Some((condition.value, result.value)) else None;
    }

    method ReadAlternatives() returns (r: Option<seq<(Expr, Expr)>>)
      requires Valid()
      modifies this`pos
      ensures Valid() && Agrees(ParseAlternatives(old(Ahead())), r, Ahead()) && (r.Some? ==> pos >= old(pos))
      decreases |tokens| - pos, 6
    {
      hide ParseAlternative;
      var found: seq<(Expr, Expr)> := [];
      ghost var whole := ParseAlternatives(Ahead());
      assert whole.Parses? ==> [] + whole.value == whole.value;
      while Sees(When)
        invariant Valid() && pos >= old(pos)
        invariant whole == After(found, ParseAlternatives(Ahead()))
        decreases |tokens| - pos
      {
        Advance();
        ghost var ts := Ahead();
        var alternative := ReadAlternative();
        if alternative.None? {
          return None;
        }
        ghost var rest := Ahead();
        assert ParseAlternative(ts) == Parses(alternative.value, rest);
        ghost var more := ParseAlternatives(rest);
        assert more.Parses? ==> found + ([alternative.value] + more.value) == (found + [alternative.value]) + more.value;
        found := found + [alternative.value];
      }
      assert found + [] == found;
      r := Some(found);
    }

    /** A name between two symbols. */
    method ReadName(open: Symbol, separator: Symbol) returns (name: Option<string>)
      requires Valid() && open != Eof && separator != Eof
      modifies this`pos
      ensures Valid() && name == (if NameBetween(old(Ahead()), open, separator) then Some(old(Ahead())[1].name) else None)
      ensures name.Some? ==> Ahead() == old(Ahead())[3..] && pos > old(pos)
    {
      var ok := Expect(open);
      if !ok {
        return None;
      }
      assert Ahead() == old(Ahead())[1..];
      name := ExpectIdent();
      if name.None? {
        return;
      }
      assert Ahead() == old(Ahead())[2..];
      ok := Expect(separator);
      if !ok {
        return None;
      }
    }

    method ReadReduce() returns (r: Option<Expr>)
      requires Valid()
      modifies this`pos
      ensures Valid() && Agrees(ParseReduce(old(Ahead())), r, Ahead()) && (r.Some? ==> pos > old(pos))
      decreases |tokens| - pos, 6
    {
      hide ParseExpression, NameBetween, ParseReduceRest;
      var acc := ReadName(LParen, EqSign);
      if acc.None? {
        return None;
      }
      var init := ReadExpression(0);
      if init.None? {
        return None;
      }
      r := ReadReduceRest(acc.value, init.value);
    }

    method ReadReduceRest(acc: string, init: Expr) returns (r: Option<Expr>)
      requires Valid()
      modifies this`pos
      ensures Valid() && Agrees(ParseReduceRest(acc, init, old(Ahead())), r, Ahead()) && (r.Some? ==> pos > old(pos))
      decreases |tokens| - pos, 7
    {
      hide ParseBinder;
      var b := ReadBinder(Comma, Pipe);
      r := if b.Some? then Some(Reduce(acc, init, b.value.0, b.value.1, b.value.2)) else None;
    }

    method ReadQuantifier(kind: QuantifierKind) returns (r: Option<Expr>)
      requires Valid()
      modifies this`pos
      ensures Valid() && Agrees(ParseQuantifier(kind, old(Ahead())), r, Ahead()) && (r.Some? ==> pos > old(pos))
      decreases |tokens| - pos, 7
    {
      hide ParseBinder;
      var b := ReadBinder(LParen, Where);
      r := if b.Some? then Some(Quantifier(kind, b.value.0, b.value.1, b.value.2)) else None;
    }

    method ReadBinder(open: Symbol, middle: Symbol) returns (r: Option<(string, Expr, Expr)>)
      requires Valid() && open != Eof && middle != Eof
      modifies this`pos
      ensures Valid() && Agrees(ParseBinder(open, middle, old(Ahead())), r, Ahead()) && (r.Some? ==> pos > old(pos))
      decreases |tokens| - pos, 6
    {
      hide ParseExpression, ParseAfter, NameBetween;
      ghost var ts := Ahead();
      var x := ReadName(open, InKw);
      if x.None? {
        return None;
      }
      ghost var r0 := Ahead();
      var source := ReadExpression(0);
      if source.None? {
        return None;
      }
      ghost var r1 := Ahead();
      assert ParseExpression(r0, 0) == Parses(source.value, r1);
      var last := ReadAfter(middle);
      if last.None? {
        return None;
      }
      ghost var r2 := Ahead();
      assert ParseAfter(middle, r1) == Parses(last.value, r2);
      var ok := Expect(RParen);
      r := if ok then Some((x.value, source.value, last.value)) else None;
    }

    predicate SeesNull()
      reads this
      requires Valid()
      ensures SeesNull() == AtNull(Ahead())
    {
      Sees(NullKw) || (tokens[pos].Ident? && Upper(tokens[pos].name) == "NULL")
    }
  }

  /** A printed expression is read back, to its last token. */
  method Reread(e: Expr) returns (r: Option<Expr>, done: bool)
    requires Printing.Printable(e)
    ensures r == Some(e) && done
  {
    hide Printing.Printable, Printing.Print, ParseExpression;
    var end := [Sym(Eof)];
    var parser := new ExprParser(Printing.Print(e) + end);
    Printing.RoundTrip(e, end, 0);
    r := parser.ReadExpression(0);
    done := parser.Sees(Eof);
  }
}
