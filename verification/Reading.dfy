/** What a connection has read: either kind of command, one read after the other. */
module Reading {
  import opened Decimal
  import opened Parser
  import opened ParserResume
  import opened ParserReads
  import opened ParserVerdicts
  import opened Cstr

  const SPACE: byte := 32

  /** The arguments of an inline command: its pieces, with the last two bytes taken off the last one. */
  function InlineArgs(s: seq<byte>): seq<seq<byte>>
  {
    var p := Pieces(s, SPACE, []);
    p[|p| - 1 := Slice(p[|p| - 1], 0, -2)]
  }

  /** The arguments of an inline command rejoin to all but its last two bytes, which are taken off
      without a look unless one of them is a space. */
  lemma InlineRejoins(line: seq<byte>, tail: seq<byte>)
    requires |tail| == 2 && 32 !in tail
    ensures Join(InlineArgs(line + tail), 32) == line
    ensures forall a :: a in InlineArgs(line + tail) ==> 32 !in a
  {
    var s := line + tail;
    var p := Pieces(s, SPACE, []);
    PiecesJoin(s, SPACE, []);
    PiecesAreFree(s, SPACE, []);
    assert [] + s == s;
    JoinLast(p, SPACE, line, tail);
    var k, l := Slice(p[|p| - 1], 0, -2), p[|p| - 1];
    assert l in p && forall i :: 0 <= i < |k| ==> k[i] == l[i];
  }

  /** Taking the last two bytes off the last piece takes them off the joined text. */
  lemma {:induction false} JoinLast(p: seq<seq<byte>>, sep: byte, line: seq<byte>, tail: seq<byte>)
    requires p != [] && Join(p, sep) == line + tail && |tail| == 2 && sep !in tail
    ensures Join(p[|p| - 1 := Slice(p[|p| - 1], 0, -2)], sep) == line
    ensures forall x :: x in p[|p| - 1 := Slice(p[|p| - 1], 0, -2)] ==>
              x in p || x == Slice(p[|p| - 1], 0, -2)
    ensures Slice(p[|p| - 1], 0, -2) <= p[|p| - 1]
    decreases |p|
  {
    var k := Slice(p[|p| - 1], 0, -2);
    if |p| == 1 {
      assert k == line;
    } else {
      var rest := Join(p[1..], sep);
      var front := p[0] + [sep];
      assert front + rest == line + tail;
      TailOf(front, rest, line, tail);
      JoinLast(p[1..], sep, rest[..|rest| - 2], tail);
      assert p[|p| - 1 := k][1..] == p[1..][|p| - 2 := k];
    }
  }

  lemma TailOf(front: seq<byte>, rest: seq<byte>, line: seq<byte>, tail: seq<byte>)
    requires |tail| == 2 && front != [] && front[|front| - 1] !in tail && front + rest == line + tail
    ensures |rest| >= 2 && line == front + rest[..|rest| - 2] && rest == rest[..|rest| - 2] + tail
  {
    var s := front + rest;
    assert s[|line|] == tail[0] && s[|line| + 1] == tail[1] && s[|front| - 1] == front[|front| - 1];
    assert |front| <= |line|;
    assert s[..|line|] == line && s[..|front|] == front && s[|front|..] == rest;
  }

  // ---------- one read ----------

  /** A pass of `try_process_command` over a buffer that is not empty. */
  function Process(c: seq<byte>, st: State, multi: bool): Result
  {
    if multi || (c != [] && c[0] == STAR) then Pass(c, st)
    else if |c| > MAX_COMMAND_LEN_LIMIT then Result(st, c, Failed(OverLimit))
    else if FindCrlf(c, 0) < 0 then Result(st, c, InHeader)
    else Result(State(0, 0, InlineArgs(c)), c, Done)
  }

  /** The reading half of a connection: parser state, read buffer, and whether it sent a multi-bulk command. */
  datatype Io = Io(st: State, buf: seq<byte>, multi: bool)

  /** After `cio_create` or `cio_clear`. */
  const NEW := Io(FRESH, [], false)

  /** `_read_process` of the bytes `b`. */
  function Receive(io: Io, b: seq<byte>): (Io, Verdict)
    requires b != []
  {
    var c := io.buf + b;
    var a := Process(c, io.st, io.multi);
    (Io(a.st, KeptAsWritten(c, a), io.multi || c[0] == STAR), a.verdict)
  }

  /** What every read leaves: nothing is pending outside a multi-bulk command. */
  predicate IoOk(io: Io)
  {
    StateOk(io.st) && (!io.multi ==> io.st.nbulk == 0 && (io.buf != [] ==> io.buf[0] != STAR))
  }

  lemma ReceiveKeeps(io: Io, b: seq<byte>)
    requires IoOk(io) && b != []
    ensures IoOk(Receive(io, b).0) && |Receive(io, b).0.buf| <= |io.buf + b|
    ensures Receive(io, b).1.Done? ==> Receive(io, b).0.st.nbulk == 0
  {
    hide Pass, FindCrlf, InlineArgs;
    var c := io.buf + b;
    if io.multi || c[0] == STAR {
      PassShape(c, io.st);
      TrimsAgreeIff(c, io.st);
    }
  }

  /** An inline connection: what is refused, what is waited for, and what is complete. */
  lemma InlineVerdict(io: Io, b: seq<byte>)
    requires b != [] && !io.multi && (io.buf + b)[0] != 42
    ensures var c := io.buf + b;
            var (next, v) := Receive(io, b);
            && (v == Failed(OverLimit) <==> |c| > 66112)
            && (v == InHeader <==> |c| <= 66112 && !HasLine(c))
            && (v == Done <==> |c| <= 66112 && HasLine(c))
            && next == Io(if v.Done? then State(0, 0, InlineArgs(c)) else io.st, c, false)
  {
    hide FindCrlf, InlineArgs, HasLine;
    LineIsFound(io.buf + b);
  }

  /** A multi-bulk connection: the pass decides, and the connection stays multi-bulk. */
  lemma MultiVerdict(io: Io, b: seq<byte>)
    requires b != [] && (io.multi || (io.buf + b)[0] == 42)
    ensures var c := io.buf + b;
            var (next, v) := Receive(io, b);
            var a := Pass(c, io.st);
            v == a.verdict && next == Io(a.st, KeptAsWritten(c, a), true)
  {
    hide Pass, KeptAsWritten;
  }

  /** One read after the other, until a command is complete or fails. */
  function ReadAll(io: Io, chunks: seq<seq<byte>>): (Io, Verdict)
    requires Reads(chunks)
    decreases |chunks|
  {
    if chunks == [] then (io, More)
    else
      var (next, v) := Receive(io, chunks[0]);
      if Unfinished(v) then ReadAll(next, chunks[1..]) else (next, v)
  }

  /** From chunk `i` on. */
  lemma ReadAllAt(io: Io, chunks: seq<seq<byte>>, i: nat)
    requires Reads(chunks) && i <= |chunks|
    ensures i == |chunks| ==> ReadAll(io, chunks[i..]) == (io, More)
    ensures i < |chunks| ==>
              var (next, v) := Receive(io, chunks[i]);
              ReadAll(io, chunks[i..]) == if Unfinished(v) then ReadAll(next, chunks[i + 1..]) else (next, v)
  {
    hide Receive;
    if i < |chunks| { assert chunks[i..][0] == chunks[i] && chunks[i..][1..] == chunks[i + 1..]; }
  }

  /** A multi-bulk command is read as Parser and ParserResume say. */
  lemma {:induction false} ReadAllIsSession(io: Io, chunks: seq<seq<byte>>)
    requires Reads(chunks) && (io.multi || (io.buf == [] && (chunks != [] ==> chunks[0][0] == STAR)))
    ensures var (t, v) := ReadAll(io, chunks); (t.st, v) == Session(false, io.st, io.buf, chunks)
    decreases |chunks|
  {
    hide Pass, KeptAsWritten;
    if chunks != [] {
      var (next, v) := Receive(io, chunks[0]);
      if Unfinished(v) { ReadAllIsSession(next, chunks[1..]); }
    }
  }

  /** An inline command survives every cutting: its arguments are those of the whole line. */
  lemma {:induction false} InlineIsAtOnce(line: seq<byte>, buf: seq<byte>, chunks: seq<seq<byte>>)
    requires Reads(chunks) && buf + Concat(chunks) == line + CRLF && |line + CRLF| <= MAX_COMMAND_LEN_LIMIT
    requires (line + CRLF)[0] != STAR && FindCrlf(line + CRLF, 0) == |line| && FindCrlf(buf, 0) < 0
    ensures var (t, v) := ReadAll(Io(FRESH, buf, false), chunks);
            v == Done && t.st == State(0, 0, InlineArgs(line + CRLF))
    decreases |chunks|
  {
    hide FindCrlf, InlineArgs;
    var s := line + CRLF;
    assert buf + [] == buf;
    if chunks != [] {
      var c, m := buf + chunks[0], Concat(chunks[1..]);
      assert c + m == s && c[0] == s[0];
      FindMore(c, m, 0);
      if FindCrlf(c, 0) < 0 {
        InlineIsAtOnce(line, c, chunks[1..]);
      } else {
        assert c == s;
      }
    }
  }

  // ---------- commands still to come ----------

  /** Some of the reads completes a command. */
  predicate Finishes(io: Io, chunks: seq<seq<byte>>)
    requires Reads(chunks)
    decreases |chunks|
  {
    chunks != [] && (Receive(io, chunks[0]).1.Done? || Finishes(Receive(io, chunks[0]).0, chunks[1..]))
  }

  /** Whatever the client sends, no command is ever completed. */
  ghost predicate Doomed(io: Io)
  {
    forall chunks :: Bounded(chunks) ==> !Finishes(io, chunks)
  }

  lemma DoomedStays(io: Io, b: seq<byte>)
    requires Doomed(io) && 0 < |b| <= READ_MAX
    ensures !Receive(io, b).1.Done? && Doomed(Receive(io, b).0)
  {
    hide Receive;
    assert Bounded([b]) && !Finishes(io, [b]);
    forall chunks | Bounded(chunks) ensures !Finishes(Receive(io, b).0, chunks) {
      var all := [b] + chunks;
      assert Bounded(all) && all[1..] == chunks && !Finishes(io, all);
    }
  }
}
