/** What the binding powers (src/cypher/parser.rs:1437-1475, 1569-1582) mean: a chain of operators without
    parentheses is read by precedence, and from the left where precedence does not decide. */
module Precedence {
  import opened Frames
  import opened Ast
  import opened Grammar
  import opened Printing

  /** How tightly an operator binds: OR least, then XOR, AND, comparison, sum, product, power. */
  function Level(op: InfixOp): nat {
    match op
    case Or => 1
    case Xor => 2
    case And => 3
    case Add => 5
    case Sub => 5
    case Mul => 6
    case Div => 6
    case Mod => 6
    case Pow => 7
    case _ => 4
  }

  /** An operator and the operand after it. */
  datatype Link = Link(op: InfixOp, operand: Expr)

  /** May stand between operators. */
  predicate Operand(e: Expr) {
    Printable(e) && IsLeft(e)
  }

  ghost predicate Fine(tail: seq<Link>) {
    forall i | 0 <= i < |tail| :: !tail[i].op.Regex? && Operand(tail[i].operand)
  }

  function LinkTokens(tail: seq<Link>): Tokens {
    if tail == [] then [] else OpTokens(tail[0].op) + (Print(tail[0].operand) + LinkTokens(tail[1..]))
  }

  /** The last of the operators that bind least. */
  function LastLoosest(tail: seq<Link>): (i: nat)
    requires tail != []
    ensures i < |tail|
  {
    if |tail| == 1 then 0
    else
      var m := LastLoosest(tail[1..]) + 1;
      if Level(tail[0].op) < Level(tail[m].op) then 0 else m
  }

  /** The tree a chain stands for: the last loosest operator is its root. */
  function Tree(x: Expr, tail: seq<Link>): Expr
    decreases |tail|
  {
    if tail == [] then x
    else
      var i := LastLoosest(tail);
      Infix(tail[i].op, Tree(x, tail[..i]), Tree(tail[i].operand, tail[i + 1..]))
  }

  /** How many links from the start bind at least this tightly. */
  function Taken(tail: seq<Link>, minBp: nat): (n: nat)
    ensures n <= |tail|
    ensures forall i | 0 <= i < n :: 10 * Level(tail[i].op) >= minBp
    ensures n < |tail| ==> 10 * Level(tail[n].op) < minBp
  {
    if tail == [] || 10 * Level(tail[0].op) < minBp then 0 else 1 + Taken(tail[1..], minBp)
  }

  /** The binding powers are the levels. */
  lemma Powers(op: InfixOp)
    requires !op.Regex?
    ensures BindingPower(op) == (10 * Level(op), 10 * Level(op) + 1)
  {
  }

  // ---------------------------------------------------------------- trees

  lemma {:induction false} LoosestAfter(a: seq<Link>, b: seq<Link>)
    requires b != [] && forall i | 0 <= i < |a| :: Level(a[i].op) > Level(b[LastLoosest(b)].op)
    ensures LastLoosest(a + b) == |a| + LastLoosest(b)
  {
    if a == [] {
      assert a + b == b;
    } else {
      assert (a + b)[1..] == a[1..] + b;
      LoosestAfter(a[1..], b);
    }
  }

  lemma {:induction false} LoosestIsLeast(b: seq<Link>)
    requires b != []
    ensures forall i | 0 <= i < |b| :: Level(b[LastLoosest(b)].op) <= Level(b[i].op)
  {
    if |b| > 1 {
      LoosestIsLeast(b[1..]);
      assert forall i | 1 <= i < |b| :: b[i] == b[1..][i - 1];
    }
  }

  /** Where the root of a chain is: at its first link if all others bind tighter, else past those that do. */
  lemma RootOf(link: Link, a: seq<Link>, b: seq<Link>)
    requires forall i | 0 <= i < |a| :: Level(a[i].op) > Level(link.op)
    requires b != [] ==> Level(b[0].op) <= Level(link.op)
    ensures LastLoosest([link] + a + b) == if b == [] then 0 else 1 + |a| + LastLoosest(b)
  {
    var all := [link] + a + b;
    if b == [] {
      assert all[1..] == a;
      if a != [] {
        assert a[LastLoosest(a)] == all[LastLoosest(a) + 1];
      }
    } else {
      assert all[1..] == a + b;
      LoosestIsLeast(b);
      LoosestAfter(a, b);
      assert all[1 + |a| + LastLoosest(b)] == b[LastLoosest(b)];
    }
  }

  /** The first operator takes the links that bind tighter as its right side. */
  lemma {:induction false} TreeStep(x: Expr, link: Link, a: seq<Link>, b: seq<Link>)
    requires forall i | 0 <= i < |a| :: Level(a[i].op) > Level(link.op)
    requires b != [] ==> Level(b[0].op) <= Level(link.op)
    ensures Tree(x, [link] + a + b) == Tree(Infix(link.op, x, Tree(link.operand, a)), b)
    decreases |b|
  {
    hide LastLoosest, Level, Tree;
    var all := [link] + a + b;
    RootOf(link, a, b);
    TreeRoot(x, all);
    if b == [] {
      assert all[..0] == [] && all[1..] == a && all[0] == link;
      NoLinks(x);
      NoLinks(Infix(link.op, x, Tree(link.operand, a)));
    } else {
      var i := LastLoosest(b);
      SlicesOf(link, a, b, i);
      TreeStep(x, link, a, b[..i]);
      TreeRoot(Infix(link.op, x, Tree(link.operand, a)), b);
    }
  }

  lemma NoLinks(x: Expr)
    ensures Tree(x, []) == x
  {
  }

  lemma TreeRoot(x: Expr, tail: seq<Link>)
    requires tail != []
    ensures var i := LastLoosest(tail); Tree(x, tail) == Infix(tail[i].op, Tree(x, tail[..i]), Tree(tail[i].operand, tail[i + 1..]))
  {
  }

  lemma SlicesOf(link: Link, a: seq<Link>, b: seq<Link>, i: nat)
    requires i < |b|
    ensures var all, k := [link] + a + b, 1 + |a| + i;
            all[..k] == [link] + a + b[..i] && all[k + 1..] == b[i + 1..] && all[k] == b[i] && (i > 0 ==> b[..i][0] == b[0])
  {
  }

  // ---------------------------------------------------------------- the parser

  /** What follows an operand in a chain does not continue the operand. */
  lemma LinkStarts(tail: seq<Link>, rest: Tokens)
    requires Fine(tail) && Stops(rest)
    ensures var ts := LinkTokens(tail) + rest;
            && !At(ts, Dot) && !At(ts, LBracket) && !At(ts, LParen) && !At(ts, Is)
            && InfixOf(Peek(ts)) == if tail == [] then NoInfix else InfixOp_(tail[0].op)
  {
    hide Printable, Print, InfixOf, OpTokens;
    if tail == [] {
      assert LinkTokens(tail) + rest == rest;
    } else {
      var after := Print(tail[0].operand) + LinkTokens(tail[1..]) + rest;
      assert LinkTokens(tail) + rest == OpTokens(tail[0].op) + after;
      OpTokensAre(tail[0].op, after);
    }
  }

  /** A chain is read as its tree, as far as its operators bind tightly enough. */
  lemma {:induction false} ChainReads(x: Expr, tail: seq<Link>, rest: Tokens, minBp: nat)
    requires Operand(x) && Fine(tail) && Stops(rest)
    ensures var n := Taken(tail, minBp);
            ParseExpression(Print(x) + (LinkTokens(tail) + rest), minBp) == Parses(Tree(x, tail[..n]), LinkTokens(tail[n..]) + rest)
    decreases |tail|, 1
  {
    hide Printable, Print, ParseUnary, LinkTokens, Tree, InfixLoop, Fine, InfixOf;
    var n := Taken(tail, minBp);
    LinkStarts(tail, rest);
    LeftReads(x, LinkTokens(tail) + rest);
    LoopReads(x, tail, rest, minBp);
    FineRest(tail, n);
    LinkStarts(tail[n..], rest);
  }

  lemma FineRest(tail: seq<Link>, n: nat)
    requires Fine(tail) && n <= |tail|
    ensures Fine(tail[n..]) && (n > 0 ==> Operand(tail[0].operand))
  {
  }

  lemma {:induction false} LoopReads(lhs: Expr, tail: seq<Link>, rest: Tokens, minBp: nat)
    requires Fine(tail) && Stops(rest)
    ensures var n := Taken(tail, minBp);
            InfixLoop(lhs, LinkTokens(tail) + rest, minBp) == Parses(Tree(lhs, tail[..n]), LinkTokens(tail[n..]) + rest)
    decreases |tail|, 0
  {
    hide Printable, Print, ParseExpression, InfixLoop, Tree, LinkTokens, InfixOf, Fine, Stops, Level;
    if tail == [] || 10 * Level(tail[0].op) < minBp {
      LoopStops(lhs, tail, rest, minBp);
    } else {
      var link, more := tail[0], tail[1..];
      var rbp := 10 * Level(link.op) + 1;
      var j := Taken(more, rbp);
      var a, b := more[..j], more[j..];
      FineRest(tail, 1);
      ChainReads(link.operand, more, rest, rbp);
      var rhs := Tree(link.operand, a);
      LoopTurn(lhs, tail, rest, minBp, rhs, LinkTokens(b) + rest);
      FineRest(more, j);
      LoopReads(Infix(link.op, lhs, rhs), b, rest, minBp);
      Assembled(lhs, tail, minBp);
    }
  }

  /** The right side and what comes after it make up the tree of the links taken. */
  lemma Assembled(lhs: Expr, tail: seq<Link>, minBp: nat)
    requires tail != [] && 10 * Level(tail[0].op) >= minBp
    ensures var link, more, n := tail[0], tail[1..], Taken(tail, minBp);
            var j := Taken(more, 10 * Level(link.op) + 1);
            var b := more[j..];
            && Tree(lhs, tail[..n]) == Tree(Infix(link.op, lhs, Tree(link.operand, more[..j])), b[..Taken(b, minBp)])
            && tail[n..] == b[Taken(b, minBp)..]
  {
    hide Tree, Level, Taken;
    var link, more := tail[0], tail[1..];
    var j := Taken(more, 10 * Level(link.op) + 1);
    var a, b := more[..j], more[j..];
    var n' := Taken(b, minBp);
    TakenSplit(tail, minBp, j);
    TailSlices(tail, j, n');
    forall i | 0 <= i < |a| ensures Level(a[i].op) > Level(link.op) {
      assert a[i] == more[i];
    }
    if b[..n'] != [] {
      assert b[..n'][0] == more[j];
    }
    TreeStep(lhs, link, a, b[..n']);
  }

  lemma TailSlices(tail: seq<Link>, j: nat, n: nat)
    requires tail != [] && j + n < |tail|
    ensures var more := tail[1..];
            tail[..1 + j + n] == [tail[0]] + more[..j] + more[j..][..n] && tail[1 + j + n..] == more[j..][n..]
  {
  }

  lemma LoopStops(lhs: Expr, tail: seq<Link>, rest: Tokens, minBp: nat)
    requires Fine(tail) && Stops(rest) && (tail == [] || 10 * Level(tail[0].op) < minBp)
    ensures InfixLoop(lhs, LinkTokens(tail) + rest, minBp) == Parses(Tree(lhs, tail[..0]), LinkTokens(tail[0..]) + rest)
  {
    hide ParseExpression, LinkTokens, InfixOf;
    LinkStarts(tail, rest);
    assert tail[..0] == [] && tail[0..] == tail;
    if tail != [] {
      Powers(tail[0].op);
    }
  }

  /** One turn of the loop on the first link. */
  lemma LoopTurn(lhs: Expr, tail: seq<Link>, rest: Tokens, minBp: nat, rhs: Expr, after: Tokens)
    requires Fine(tail) && tail != [] && minBp <= 10 * Level(tail[0].op)
    requires ParseExpression(Print(tail[0].operand) + (LinkTokens(tail[1..]) + rest), 10 * Level(tail[0].op) + 1) == Parses(rhs, after)
    ensures InfixLoop(lhs, LinkTokens(tail) + rest, minBp) == InfixLoop(Infix(tail[0].op, lhs, rhs), after, minBp)
  {
    hide ParseExpression, Print, InfixOf, OpTokens, Printable;
    var op, next := tail[0].op, Print(tail[0].operand) + (LinkTokens(tail[1..]) + rest);
    Powers(op);
    assert LinkTokens(tail) + rest == OpTokens(op) + next;
    OpTokensAre(op, next);
  }

  /** The links taken after the first are those of its right side, and those taken after it. */
  lemma TakenSplit(tail: seq<Link>, minBp: nat, j: nat)
    requires tail != [] && 10 * Level(tail[0].op) >= minBp && j == Taken(tail[1..], 10 * Level(tail[0].op) + 1)
    ensures Taken(tail, minBp) == 1 + j + Taken(tail[1..][j..], minBp)
  {
    TakenFrom(tail[1..], minBp, j);
  }

  lemma {:induction false} TakenFrom(tail: seq<Link>, minBp: nat, j: nat)
    requires j <= |tail| && forall i | 0 <= i < j :: 10 * Level(tail[i].op) >= minBp
    ensures Taken(tail, minBp) == j + Taken(tail[j..], minBp)
  {
    if j == 0 {
      assert tail[j..] == tail;
    } else {
      TakenFrom(tail[1..], minBp, j - 1);
      assert tail[1..][j - 1..] == tail[j..];
    }
  }

  /** A whole chain is read as its tree. */
  lemma ChainMeans(x: Expr, tail: seq<Link>, rest: Tokens)
    requires Operand(x) && Fine(tail) && Stops(rest)
    ensures ParseExpression(Print(x) + (LinkTokens(tail) + rest), 0) == Parses(Tree(x, tail), rest)
  {
    hide ParseExpression, Print, Printable, Tree;
    ChainReads(x, tail, rest, 0);
    assert tail[..|tail|] == tail && tail[|tail|..] == [];
    assert LinkTokens([]) + rest == rest;
  }

  /** NOT takes in comparisons and everything tighter, and stops before AND, XOR and OR. */
  lemma NotTakes(x: Expr, tail: seq<Link>, rest: Tokens)
    requires Operand(x) && Fine(tail) && Stops(rest)
    ensures var n := Taken(tail, 40);
            ParseUnary(S(NotKw) + (Print(x) + (LinkTokens(tail) + rest))) == Parses(Not(Tree(x, tail[..n])), LinkTokens(tail[n..]) + rest)
  {
    hide ParseExpression, Print, Printable, Tree, LinkTokens, ParsePrimary, ParsePostfix;
    ChainReads(x, tail, rest, PREFIX_NOT_BP);
    SameTaken(tail);
    var ts := S(NotKw) + (Print(x) + (LinkTokens(tail) + rest));
    assert ts[1..] == Print(x) + (LinkTokens(tail) + rest);
  }

  lemma {:induction false} SameTaken(tail: seq<Link>)
    ensures Taken(tail, PREFIX_NOT_BP) == Taken(tail, 40)
  {
    if tail != [] {
      SameTaken(tail[1..]);
    }
  }
}
