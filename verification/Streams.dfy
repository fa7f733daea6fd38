/** What an operator has still to give: rows one by one, then the end or an error. */
module Streams {
  import opened Frames
  import opened Graphs

  datatype Stream = Done | Fail | Next(head: Row, tail: Stream)

  function Prepend(rows: seq<Row>, s: Stream): Stream {
    if rows == [] then s else Next(rows[0], Prepend(rows[1..], s))
  }

  function FromSeq(rows: seq<Row>): Stream {
    Prepend(rows, Done)
  }

  /** All the rows, unless the stream fails. */
  function Gather(s: Stream): Option<seq<Row>> {
    match s
    case Done => Some([])
    case Fail => None
    case Next(row, rest) => match Gather(rest) case None => None case Some(rows) => Some([row] + rows)
  }

  /** The stream without its first `n` rows. */
  function SkipRows(n: nat, s: Stream): Stream {
    if n == 0 || !s.Next? then s else SkipRows(n - 1, s.tail)
  }

  /** The first `n` rows; what comes after them is not looked at. */
  function TakeRows(n: nat, s: Stream): Stream {
    if n == 0 then Done else if !s.Next? then s else Next(s.head, TakeRows(n - 1, s.tail))
  }

  /** The rows of `s`, each laid over `outer`, then `after`. */
  function OverRow(outer: Row, s: Stream, after: Stream): Stream {
    match s
    case Done => after
    case Fail => Fail
    case Next(row, rest) => Next(outer + row, OverRow(outer, rest, after))
  }

  /** For each row of `s`, all of `inner`. */
  function NestedLoop(s: Stream, inner: Stream): Stream {
    match s
    case Done => Done
    case Fail => Fail
    case Next(row, rest) => OverRow(row, inner, NestedLoop(rest, inner))
  }

  function Drop<T>(xs: seq<T>, k: nat): seq<T> {
    if k <= |xs| then xs[k..] else []
  }

  lemma {:induction false} PrependAppend(a: seq<Row>, b: seq<Row>, s: Stream)
    ensures Prepend(a + b, s) == Prepend(a, Prepend(b, s))
  {
    if a == [] {
      assert a + b == b;
    } else {
      assert (a + b)[1..] == a[1..] + b;
      PrependAppend(a[1..], b, s);
    }
  }

  lemma {:induction false} GatherIs(s: Stream)
    ensures Gather(s).Some? ==> s == FromSeq(Gather(s).value)
  {
    if s.Next? {
      GatherIs(s.tail);
    }
  }

  lemma {:induction false} GatherPrepend(rows: seq<Row>, s: Stream)
    ensures Gather(Prepend(rows, s)) ==
            match Gather(s) case None => None case Some(more) => Some(rows + more)
  {
    if rows == [] {
      assert Gather(s).Some? ==> rows + Gather(s).value == Gather(s).value;
    } else {
      GatherPrepend(rows[1..], s);
      assert Gather(s).Some? ==> [rows[0]] + (rows[1..] + Gather(s).value) == rows + Gather(s).value;
    }
  }

  lemma GatherSeq(rows: seq<Row>)
    ensures Gather(FromSeq(rows)) == Some(rows)
  {
    GatherPrepend(rows, Done);
    assert rows + [] == rows;
  }

  lemma PrependOne(row: Row, s: Stream)
    ensures Prepend([row], s) == Next(row, s)
    ensures Prepend([], s) == s
  {
    assert [row][1..] == [];
  }

  /** A non-empty rest of a sequence gives its first element next. */
  lemma DropStep(rows: seq<Row>, at: nat)
    ensures FromSeq(Drop(rows, at)) == if at < |rows| then Next(rows[at], FromSeq(Drop(rows, at + 1))) else Done
  {
    if at < |rows| {
      assert Drop(rows, at)[1..] == Drop(rows, at + 1);
    }
  }
}
