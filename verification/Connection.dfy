/** The connection object: reading and parsing commands, building replies, and sending them. */
module Connection {
  import opened Options
  import opened Decimal
  import opened Cstr
  import opened Parser
  import opened Sending
  import opened Reading
  import opened ParserReads
  import opened ParserVerdicts
  import opened ParserHeaders
  import R = ParserResume
  import Cuts = ParserCuts

  /** The ASCII codes of a message. */
  function Ascii(s: string): (r: seq<byte>)
    ensures |r| == |s|
  {
    seq(|s|, i requires 0 <= i < |s| => if s[i] < 128 as char then s[i] as int else 0)
  }

  /** Every character stands for its code. */
  lemma AsciiCodes(s: string)
    ensures forall i :: 0 <= i < |s| && s[i] < 128 as char ==> Ascii(s)[i] == s[i] as int
    ensures Ascii("-ERR\r\n") == [45, 69, 82, 82, 13, 10]
  {
  }

  function Message(f: Fault): (r: seq<byte>)
    ensures |r| <= 64
  {
    match f
    case UnknownProtocol => Ascii("-ERR: unknown protocol\r\n")
    case OverLimit => Ascii("-ERR reach the max command recv limit\r\n")
    case BadCount => Ascii("-ERR: error number of bulk \r\n")
    case NoDollar => Ascii("-ERR unknow protocol\r\n")
    case BadLength => Ascii("-ERR: error bulk length \r\n")
  }

  lemma MessageTexts()
    ensures Message(UnknownProtocol) == Ascii("-ERR: unknown protocol\r\n")
    ensures Message(OverLimit) == Ascii("-ERR reach the max command recv limit\r\n")
    ensures Message(BadCount) == Ascii("-ERR: error number of bulk \r\n")
    ensures Message(NoDollar) == Ascii("-ERR unknow protocol\r\n")
    ensures Message(BadLength) == Ascii("-ERR: error bulk length \r\n")
  {
  }

  /** The return code of a pass. */
  function Code(v: Verdict): int
  {
    match v
    case Done => 0
    case Failed(_) => -1
    case _ => 1
  }

  // ---------- the object ----------

  datatype Input = Bytes(b: seq<byte>) | WouldBlock | Closed

  class Cio {
    const rbuf: Str
    const wbuf: Str
    var wcount: int
    var nbulk: nat
    var bulkLen: nat
    var argv: array<seq<byte>>
    var argc: nat
    var multi: bool                // reqtype
    var flag: bool                 // IOF_CLOSE_AFTER_WRITE
    var armed: nat                 // how often WRITE was armed for a reply
    ghost var sent: seq<byte>      // what left the connection since the last cio_clear

    ghost predicate Valid()
      reads this, rbuf, wbuf
    {
      && rbuf != wbuf && rbuf.Valid() && wbuf.Valid() && rbuf.buf != wbuf.buf
      && argc <= argv.Length && (nbulk > 0 ==> argc + nbulk == argv.Length) && (nbulk == 0 ==> bulkLen == 0)
      && (nbulk > 0 ==> multi)
    }

    ghost function Model(): State
      requires Valid()
      reads this, argv, rbuf, wbuf
    {
      State(nbulk, bulkLen, argv[..argc])
    }

    /** The reading half. */
    ghost function Received(): Io
      requires Valid()
      reads this, argv, rbuf, rbuf.buf, wbuf
    {
      Io(Model(), rbuf.Contents(), multi)
    }

    /** The bytes still to be sent are the last `wcount` of the write buffer. */
    ghost predicate Drains()
      requires Valid()
      reads this, rbuf, wbuf, wbuf.buf
    {
      var w := wbuf.Contents();
      0 <= wcount <= |w| && sent == w[..|w| - wcount]
    }

    /** `cio_create`. */
    constructor ()
      ensures Valid() && Drains() && Received() == NEW && wbuf.Contents() == []
      ensures !flag && armed == 0 && fresh(rbuf) && fresh(wbuf) && fresh(rbuf.buf) && fresh(wbuf.buf) && fresh(argv)
    {
      rbuf := new Str(1024);
      wbuf := new Str(1024);
      wcount, nbulk, bulkLen, argc, multi, flag, armed := 0, 0, 0, 0, false, false, 0;
      argv := new seq<byte>[0];
      sent := [];
    }

    /** Append to the write buffer and count. */
    method Append(b: seq<byte>)
      requires Valid() && Drains() && (|wbuf.Contents()| + |b|) * 2 <= UINT32_MAX
      modifies `wcount, wbuf, wbuf.buf
      ensures Valid() && Drains() && wbuf.Contents() == old(wbuf.Contents()) + b && wcount == old(wcount) + |b|
      ensures wbuf.buf == old(wbuf.buf) || fresh(wbuf.buf)
    {
      wbuf.Ncat(b);
      wcount := wcount + |b|;
    }

    /** `set_protocol_error` and `reply_str` on a persistent connection: one reply, one arming. */
    method Protest(f: Fault)
      requires Valid() && Drains() && (|wbuf.Contents()| + 64) * 2 <= UINT32_MAX
      modifies `wcount, `flag, `armed, wbuf, wbuf.buf
      ensures Valid() && Drains() && flag && armed == old(armed) + 1
      ensures wbuf.Contents() == old(wbuf.Contents()) + Message(f) && wcount == old(wcount) + |Message(f)|
      ensures wbuf.buf == old(wbuf.buf) || fresh(wbuf.buf)
    {
      hide Message;
      flag := true;
      Append(Message(f));
      armed := armed + 1;
    }

    /** `strstr(rbuf + pos, "\r\n")`; it relies on the NUL after the contents. */
    method Strstr(pos: nat) returns (e: int)
      requires Valid() && rbuf.Terminated() && pos <= |rbuf.Contents()|
      ensures e == FindCrlf(rbuf.Contents(), pos)
    {
      ghost var c := rbuf.Contents();
      e := pos;
      while true
        invariant pos <= e <= |c| && FindCrlf(c, e) == FindCrlf(c, pos)
        decreases |c| - e
      {
        if rbuf.buf[e] == 0 { return -1; }
        assert rbuf.buf[e] == c[e];
        if rbuf.buf[e] == CR && rbuf.buf[e + 1] == LF { return; }
        e := e + 1;
      }
    }

    /** The number between a prefix byte at `pos` and the CRLF at `e`. */
    method NumberAt(pos: nat, e: nat) returns (r: Option<int>)
      requires Valid() && pos < e && e + 2 <= |rbuf.Contents()| && rbuf.Contents()[e] == CR
      ensures r == Str2ll(rbuf.Contents()[pos + 1..e])
    {
      ghost var c := rbuf.Contents();
      var p := rbuf.buf[pos + 1..e + 1];
      assert forall k :: 0 <= k < |p| ==> p[k] == c[pos + 1 + k];
      assert p == c[pos + 1..e + 1];
      Inner(c, pos, e);
      r := ParseLl(p, e - pos - 1);
    }

    /** What the count header says: `Done` when it is complete, announcing `n` bulks from `pos` on. */
    method ReadCount() returns (v: Verdict, n: nat, pos: nat)
      requires Valid() && rbuf.Terminated() && nbulk == 0 && rbuf.Contents() != []
      ensures var c := rbuf.Contents();
              var a := Pass(c, Model());
              if v.Done? then
                && 0 < n && pos <= |c|
                && a == Bulks(c[pos..], State(n, bulkLen, []), |c| > MAX_COMMAND_LEN_LIMIT)
              else (v.InHeader? || v.Failed?) && a == Result(Model(), c, v)
    {
      hide FindCrlf, Str2ll, Bulks;
      n, pos := 0, 0;
      ghost var c := rbuf.Contents();
      var nread := rbuf.len - rbuf.free;
      assert rbuf.buf[0] == c[0];
      if rbuf.buf[0] != STAR { return Failed(UnknownProtocol), 0, 0; }
      var e := Strstr(0);
      if e < 0 {
        v := if nread > MAX_COMMAND_LEN_LIMIT then Failed(OverLimit) else InHeader;
        return;
      }
      var len := NumberAt(0, e);
      if len.None? || len.value > MAX_BULKS || len.value <= 0 { return Failed(BadCount), 0, 0; }
      return Done, len.value, e + 2;
    }

    /** The count header.  `rc` is 2 when the loop over the bulks is to begin at `pos`. */
    method CountHeader() returns (rc: int, pos: nat)
      requires Valid() && Drains() && rbuf.Terminated() && nbulk == 0 && multi && rbuf.Contents() != []
      requires (|wbuf.Contents()| + 64) * 2 <= UINT32_MAX
      modifies this, wbuf, wbuf.buf
      ensures Valid() && Drains() && rbuf.Terminated() && rbuf.Contents() == old(rbuf.Contents())
      ensures wbuf.buf == old(wbuf.buf) || fresh(wbuf.buf)
      ensures argv == old(argv) || fresh(argv)
      ensures multi == old(multi)
      ensures var a := Pass(old(rbuf.Contents()), old(Model()));
              if rc == 2 then
                && pos <= |rbuf.Contents()| && nbulk > 0
                && Quiet(old(flag), old(armed), old(wbuf.Contents()), old(wcount))
                && a == Bulks(rbuf.Contents()[pos..], Model(), |rbuf.Contents()| > MAX_COMMAND_LEN_LIMIT)
              else rc == Code(a.verdict) && rc != 0 && !a.verdict.More? && Model() == a.st
                   && Reported(a.verdict, old(flag), old(armed), old(wbuf.Contents()), old(wcount))
    {
      hide Pass, Bulks, Message;
      var v, n, at := ReadCount();
      if v.Failed? {
        Protest(v.fault);
        return -1, 0;
      }
      if v.InHeader? { return 1, 0; }
      nbulk := n;
      argc := 0;
      argv := new seq<byte>[nbulk](_ => []);
      assert argv[..0] == [];
      return 2, at;
    }

    /** What the header of a bulk string at `pos` says: `Done` when it is complete, for `n` bytes from `next` on. */
    method ReadLength(pos: nat) returns (v: Verdict, n: nat, next: nat)
      requires Valid() && rbuf.Terminated() && nbulk > 0 && bulkLen == 0 && pos <= |rbuf.Contents()|
      ensures var c := rbuf.Contents();
              var big := |c| > MAX_COMMAND_LEN_LIMIT;
              var a := Bulks(c[pos..], Model(), big);
              if v.Done? then 0 < n && next <= |c| && a == Bulks(c[next..], Model().(bulkLen := n), big)
              else (v.More? || v.Failed?) && a == Result(Model(), c[pos..], v)
    {
      hide FindCrlf, Str2ll, Bulks;
      n, next := 0, pos;
      ghost var c := rbuf.Contents();
      var nread := rbuf.len - rbuf.free;
      HeaderAt(c, pos, Model(), nread > MAX_COMMAND_LEN_LIMIT);
      var e := Strstr(pos);
      if e < 0 {
        v := if nread > MAX_COMMAND_LEN_LIMIT then Failed(OverLimit) else More;
        return;
      }
      assert rbuf.buf[pos] == c[pos];
      if rbuf.buf[pos] != DOLLAR { return Failed(NoDollar), 0, pos; }
      var len := NumberAt(pos, e);
      if len.None? || len.value > MAX_COMMAND_LEN_LIMIT || len.value <= 0 { return Failed(BadLength), 0, pos; }
      return Done, len.value, e + 2;
    }

    /** The header of one bulk string, at `pos`.  `rc` is 2 when its body is to be taken. */
    method BulkHeader(pos: nat) returns (rc: int, next: nat)
      requires Valid() && Drains() && rbuf.Terminated() && nbulk > 0 && bulkLen == 0 && pos <= |rbuf.Contents()|
      requires (|wbuf.Contents()| + 64) * 2 <= UINT32_MAX
      modifies this, wbuf, wbuf.buf
      ensures Valid() && Drains() && rbuf.Terminated() && rbuf.Contents() == old(rbuf.Contents())
      ensures wbuf.buf == old(wbuf.buf) || fresh(wbuf.buf)
      ensures argv == old(argv) && multi == old(multi) && Model().argv == old(Model()).argv && nbulk == old(nbulk)
      ensures var big := |rbuf.Contents()| > MAX_COMMAND_LEN_LIMIT;
              var a := Bulks(rbuf.Contents()[pos..], old(Model()), big);
              if rc == 2 then
                && next <= |rbuf.Contents()| && bulkLen > 0
                && Quiet(old(flag), old(armed), old(wbuf.Contents()), old(wcount))
                && a == Bulks(rbuf.Contents()[next..], Model(), big)
              else
                && rc == Code(a.verdict) && rc != 0 && !a.verdict.InHeader? && next == pos
                && a == Result(Model(), rbuf.Contents()[pos..], a.verdict)
                && Reported(a.verdict, old(flag), old(armed), old(wbuf.Contents()), old(wcount))
    {
      hide Bulks, Message;
      var v, n, at := ReadLength(pos);
      if v.Failed? {
        Protest(v.fault);
        return -1, pos;
      }
      if v.More? { return 1, pos; }
      bulkLen := n;
      return 2, at;
    }

    /** The body of one bulk string, at `pos`. */
    method TakeBody(pos: nat) returns (next: nat)
      requires Valid() && Drains() && nbulk > 0 && bulkLen > 0 && pos + bulkLen + 2 <= |rbuf.Contents()|
      modifies this, argv
      ensures Valid() && Drains() && next == pos + old(bulkLen) + 2 && argv == old(argv)
      ensures nbulk == old(nbulk) - 1 && bulkLen == 0
      ensures multi == old(multi) && flag == old(flag) && armed == old(armed)
      ensures wcount == old(wcount) && sent == old(sent)
      ensures forall big ::
                Bulks(rbuf.Contents()[pos..], old(Model()), big) == Bulks(rbuf.Contents()[next..], Model(), big)
    {
      hide Bulks;
      ghost var c, before := rbuf.Contents(), argv[..argc];
      forall big { TakenBody(c, pos, Model(), big); }
      var body := rbuf.buf[pos..pos + bulkLen];
      assert body == c[pos..pos + bulkLen];
      argv[argc] := body;
      argc := argc + 1;
      assert argv[..argc] == before + [body];
      next := pos + bulkLen + 2;
      bulkLen := 0;
      nbulk := nbulk - 1;
    }

    /** The loop over the bulk strings, from `start`; it ends at `pos`. */
    method ProcessBulks(start: nat) returns (ret: int, pos: nat)
      requires Valid() && Drains() && rbuf.Terminated() && nbulk > 0 && start <= |rbuf.Contents()|
      requires (|wbuf.Contents()| + 64) * 2 <= UINT32_MAX
      modifies this, wbuf, wbuf.buf, argv
      ensures Valid() && Drains() && rbuf.Terminated() && rbuf.Contents() == old(rbuf.Contents())
      ensures wbuf.buf == old(wbuf.buf) || fresh(wbuf.buf)
      ensures argv == old(argv) && multi == old(multi) && pos <= |rbuf.Contents()|
      ensures var c := rbuf.Contents();
              var a := Bulks(c[start..], old(Model()), |c| > MAX_COMMAND_LEN_LIMIT);
              && a == Result(Model(), c[pos..], a.verdict) && ret == Code(a.verdict) && !a.verdict.InHeader?
              && Reported(a.verdict, old(flag), old(armed), old(wbuf.Contents()), old(wcount))
    {
      hide Bulks, Message, Drains;
      ghost var c, big := rbuf.Contents(), |rbuf.Contents()| > MAX_COMMAND_LEN_LIMIT;
      ghost var a := Bulks(c[start..], Model(), big);
      var nread := rbuf.len - rbuf.free;
      pos := start;
      while nbulk != 0
        invariant Valid() && Drains() && rbuf.Terminated() && rbuf.Contents() == c && pos <= |c|
        invariant multi == old(multi) && Quiet(old(flag), old(armed), old(wbuf.Contents()), old(wcount))
        invariant argv == old(argv) && (wbuf.buf == old(wbuf.buf) || fresh(wbuf.buf))
        invariant a == Bulks(c[pos..], Model(), big)
        decreases nbulk
      {
        if bulkLen == 0 {
          var more;
          more, pos := BulkHeader(pos);
          if more != 2 { return more, pos; }
        }
        BulksShort(c[pos..], Model(), big);
        if nread - pos < bulkLen + 2 { return 1, pos; }
        pos := TakeBody(pos);
      }
      BulksEnds(c[pos..], Model(), big);
      ret := 0;
    }

    /** `try_process_multibluk_command`: one pass, as Parser.Pass describes it. */
    method TryProcessMultibulk() returns (rc: int)
      requires Valid() && Drains() && rbuf.Terminated() && rbuf.Contents() != [] && multi
      requires (|wbuf.Contents()| + 64) * 2 <= UINT32_MAX
      modifies this, rbuf, wbuf, rbuf.buf, wbuf.buf, argv
      ensures Valid() && Drains() && rbuf.Terminated() && multi == old(multi)
      ensures wbuf.buf == old(wbuf.buf) || fresh(wbuf.buf)
      ensures rbuf.buf == old(rbuf.buf) && (argv == old(argv) || fresh(argv))
      ensures var a := Pass(old(rbuf.Contents()), old(Model()));
              && rc == Code(a.verdict) && Model() == a.st
              && rbuf.Contents() == R.KeptAsWritten(old(rbuf.Contents()), a)
              && Reported(a.verdict, old(flag), old(armed), old(wbuf.Contents()), old(wcount))
    {
      hide Pass, Bulks, Message, Slice;
      ghost var c, a := rbuf.Contents(), Pass(rbuf.Contents(), Model());
      var pos: nat := 0;
      if nbulk == 0 {
        rc, pos := CountHeader();
        if rc != 2 { return; }
      } else {
        PassResumed(c, Model());
      }
      assert a == Bulks(c[pos..], Model(), |c| > MAX_COMMAND_LEN_LIMIT);
      rc, pos := ProcessBulks(pos);
      assert a == Result(Model(), c[pos..], a.verdict);
      if rc == 1 {
        rbuf.Range(pos + bulkLen, -1);
      }
    }

    /** An inline command: split at spaces, and two bytes taken off the last piece. */
    method SplitInline()
      requires Valid() && nbulk == 0 && rbuf.Contents() != []
      modifies `argv, `argc
      ensures Valid() && fresh(argv) && Model() == State(0, 0, InlineArgs(rbuf.Contents()))
    {
      hide Slice, Pieces;
      var c := rbuf.buf[..rbuf.len - rbuf.free];
      var pieces, size := Split(c, SPACE);
      ghost var p := pieces[..size];
      var last := new Str.New(pieces[size - 1]);
      last.Range(0, -2);
      var trimmed := last.buf[..last.len - last.free];
      assert trimmed == Slice(p[size - 1], 0, -2);
      argv := new seq<byte>[size](i requires 0 <= i < size reads pieces => if i < pieces.Length then pieces[i] else []);
      argc := size;
      argv[size - 1] := trimmed;
      assert argv[..argc] == p[size - 1 := trimmed];
    }

    /** `try_process_command` without a count header: the limit, the missing CRLF, or an inline command. */
    method TryProcessInline() returns (rc: int)
      requires Valid() && Drains() && rbuf.Terminated() && rbuf.Contents() != []
      requires !multi && rbuf.Contents()[0] != STAR && (|wbuf.Contents()| + 64) * 2 <= UINT32_MAX
      modifies `wcount, `flag, `armed, `argv, `argc, wbuf, wbuf.buf
      ensures Valid() && Drains()
      ensures wbuf.buf == old(wbuf.buf) || fresh(wbuf.buf)
      ensures argv == old(argv) || fresh(argv)
      ensures var a := Process(rbuf.Contents(), old(Model()), false);
              && rc == Code(a.verdict) && Model() == a.st
              && rbuf.Contents() == old(rbuf.Contents()) == R.KeptAsWritten(rbuf.Contents(), a)
              && Reported(a.verdict, old(flag), old(armed), old(wbuf.Contents()), old(wcount))
    {
      hide Process, R.KeptAsWritten, Pass, FindCrlf, Message, InlineArgs, Slice;
      ghost var c, st := rbuf.Contents(), Model();
      ghost var a := Process(c, st, false);
      ProcessIs(c, st, false);
      if rbuf.len - rbuf.free > MAX_COMMAND_LEN_LIMIT {
        Protest(OverLimit);
        return -1;
      }
      var end := Strstr(0);
      if end < 0 { return 1; }
      assert a == Result(State(0, 0, InlineArgs(c)), c, Done);
      SplitInline();
      assert rbuf.Contents() == c && Drains();
      return 0;
    }

    /** `try_process_command`. */
    method TryProcessCommand() returns (rc: int)
      requires Valid() && Drains() && rbuf.Terminated()
      requires (|wbuf.Contents()| + 64) * 2 <= UINT32_MAX
      modifies this, rbuf, wbuf, rbuf.buf, wbuf.buf, argv
      ensures Valid() && Drains() && rbuf.Terminated()
      ensures wbuf.buf == old(wbuf.buf) || fresh(wbuf.buf)
      ensures rbuf.buf == old(rbuf.buf) && (argv == old(argv) || fresh(argv))
      ensures old(rbuf.Contents()) == [] ==> rc == -1 && rbuf.Contents() == [] && Model() == old(Model())
      ensures old(rbuf.Contents()) != [] ==>
                var c := old(rbuf.Contents());
                var a := Process(c, old(Model()), old(multi));
                && rc == Code(a.verdict) && Model() == a.st && rbuf.Contents() == R.KeptAsWritten(c, a)
                && multi == (old(multi) || c[0] == STAR)
                && Reported(a.verdict, old(flag), old(armed), old(wbuf.Contents()), old(wcount))
    {
      hide Process, R.KeptAsWritten, Pass, Message, Slice;
      ghost var c := rbuf.Contents();
      if rbuf.len - rbuf.free <= 0 { return -1; }
      ProcessIs(c, Model(), multi);
      assert rbuf.buf[0] == c[0];
      if multi || rbuf.buf[0] == STAR {
        multi := true;
        rc := TryProcessMultibulk();
      } else {
        rc := TryProcessInline();
      }
    }

    /** `_read_process`: one read of at most 2048 bytes. */
    method ReadProcess(input: Input) returns (rc: int)
      requires Valid() && Drains() && (input.Bytes? ==> 0 < |input.b| <= 2048)
      requires (|rbuf.Contents()| + 2048) * 2 <= UINT32_MAX && (|wbuf.Contents()| + 64) * 2 <= UINT32_MAX
      modifies this, rbuf, wbuf, rbuf.buf, wbuf.buf, argv
      ensures Valid() && Drains()
      ensures (wbuf.buf == old(wbuf.buf) || fresh(wbuf.buf)) && (rbuf.buf == old(rbuf.buf) || fresh(rbuf.buf))
      ensures argv == old(argv) || fresh(argv)
      ensures !input.Bytes? ==> rc == (if input.WouldBlock? then 1 else -1) && Received() == old(Received())
      ensures input.Bytes? ==>
                var (io, v) := Receive(old(Received()), input.b);
                && Received() == io && rc == Code(v)
                && Reported(v, old(flag), old(armed), old(wbuf.Contents()), old(wcount))
    {
      hide Process, Message, Slice;
      match input
      case WouldBlock => return 1;
      case Closed => return -1;
      case Bytes(b) =>
        rbuf.Ncat(b);
        rc := TryProcessCommand();
    }

    /** Everything that was read, one read after the other, until a command is complete or fails. */
    method Feed(chunks: seq<seq<byte>>) returns (rc: int)
      requires Valid() && Drains() && Bounded(chunks) && IoOk(Received())
      requires (|rbuf.Contents()| + |R.Concat(chunks)| + 2048) * 2 <= UINT32_MAX
      requires (|wbuf.Contents()| + 64) * 2 <= UINT32_MAX
      modifies this, rbuf, wbuf, rbuf.buf, wbuf.buf, argv
      ensures Valid() && Drains()
      ensures var (io, v) := ReadAll(old(Received()), chunks);
              && Received() == io && rc == Code(v)
              && Reported(v, old(flag), old(armed), old(wbuf.Contents()), old(wcount))
    {
      hide ReadAll, Receive, R.Concat, Message, IoOk, Drains;
      rc := 1;
      var i := 0;
      ghost var target := ReadAll(Received(), chunks);
      assert chunks[0..] == chunks;
      ReadAllAt(Received(), chunks, |chunks|);
      while i < |chunks| && rc == 1
        invariant i <= |chunks| && Valid() && Drains()
        invariant (wbuf.buf == old(wbuf.buf) || fresh(wbuf.buf)) && (rbuf.buf == old(rbuf.buf) || fresh(rbuf.buf))
        invariant argv == old(argv) || fresh(argv)
        invariant rc == 1 ==> IoOk(Received()) && target == ReadAll(Received(), chunks[i..])
        invariant rc == 1 ==> (|rbuf.Contents()| + |R.Concat(chunks[i..])| + 2048) * 2 <= UINT32_MAX
        invariant rc == 1 ==> Quiet(old(flag), old(armed), old(wbuf.Contents()), old(wcount))
        invariant rc != 1 ==> (Received(), rc) == (target.0, Code(target.1))
                              && Reported(target.1, old(flag), old(armed), old(wbuf.Contents()), old(wcount))
        decreases |chunks| - i
      {
        ReceiveKeeps(Received(), chunks[i]);
        ReadAllAt(Received(), chunks, i);
        ConcatAt(chunks, i);
        rc := ReadProcess(Bytes(chunks[i]));
        i := i + 1;
      }
      if rc == 1 { ReadAllAt(Received(), chunks, i); }
    }

    // ---------- replies ----------

    /** The 64-byte buffer of `_reply_prefix_len`: the text that is appended. */
    static method PrefixLine(prefix: byte, l: int) returns (line: seq<byte>)
      requires InRange(l)
      ensures line == Head(prefix, Print(l))
    {
      hide Print, Head;
      var buf := new byte[64](_ => 0);
      buf[0] := prefix;
      PrintLength(l);
      ghost var t, blank := Print(l), buf[..];
      assert blank[..1] == [prefix] && blank[1 + |t|..] == seq(63 - |t|, _ => 0);
      var written := PrintLl(l, buf, 1, 63);
      ghost var image := buf[..];
      NumberInside(prefix, t, image);
      NoNul(l);
      var len := 0;
      while buf[1 + len] != 0
        invariant 0 <= len <= |t| && buf[..] == image
        decreases |t| - len
      {
        assert image[1 + len] != 0;
        len := len + 1;
      }
      assert image[1 + len] == 0;
      buf[len + 1] := CR;
      buf[len + 2] := LF;
      assert buf[..] == image[len + 1 := CR][len + 2 := LF];
      line := buf[..3 + len];
      LineOf(prefix, t, image, line);
    }

    /** `_reply_prefix_len`. */
    method ReplyPrefixLen(prefix: byte, l: int)
      requires Valid() && Drains() && InRange(l) && (|wbuf.Contents()| + 64) * 2 <= UINT32_MAX
      modifies `wcount, wbuf, wbuf.buf
      ensures Valid() && Drains() && wbuf.Contents() == old(wbuf.Contents()) + Head(prefix, Print(l))
      ensures wcount == old(wcount) + |Head(prefix, Print(l))|
      ensures wbuf.buf == old(wbuf.buf) || fresh(wbuf.buf)
    {
      hide Print;
      PrintLength(l);
      var line := PrefixLine(prefix, l);
      Append(line);
    }

    /** `reply_bulk` of a string object: one bulk string, and WRITE armed once. */
    method ReplyBulk(body: seq<byte>)
      requires Valid() && Drains() && (|wbuf.Contents()| + |body| + 128) * 2 <= UINT32_MAX
      modifies `wcount, `armed, wbuf, wbuf.buf
      ensures Valid() && Drains() && armed == old(armed) + 1
      ensures wbuf.Contents() == old(wbuf.Contents()) + Whole(ItemOf(body))
      ensures wbuf.buf == old(wbuf.buf) || fresh(wbuf.buf)
    {
      ghost var w, h := wbuf.Contents(), Head(DOLLAR, Print(|body|));
      ReplyParts(w, body);
      hide Head, Print, Whole, Drains;
      ReplyPrefixLen(DOLLAR, |body|);
      Append(body);
      Append(CRLF);
      armed := armed + 1;
    }

    // ---------- sending ----------

    /** `_response`: write until the buffer is out, the kernel wants no more, or it fails.
        `k` are the results of the successive writes; after them the kernel wants no more. */
    method SendSome(k: seq<Write>) returns (rs: int)
      requires Valid() && Drains()
      modifies `wcount, `sent
      ensures Valid() && Drains() && wcount == old(wcount) - Taken(k, old(wcount))
      ensures rs == Outcome(k, old(wcount))
    {
      var total := wbuf.len - wbuf.free;
      var i := 0;
      while wcount > 0
        invariant Valid() && Drains() && wcount <= old(wcount) && i <= |k|
        invariant if wcount > 0 then Offered(k) == old(wcount) - wcount + Offered(k[i..]) && Breaks(k) == Breaks(k[i..])
                  else Offered(k) >= old(wcount)
        decreases |k| - i
      {
        if i == |k| { return 1; }
        match k[i] {
          case Again => return 1;
          case Broken => return -1;
          case Wrote(n) =>
            assert k[i..][1..] == k[i + 1..];
            var nwrite := if n < wcount then n else wcount;
            sent := sent + wbuf.Contents()[total - wcount..total - wcount + nwrite];
            wcount := wcount - nwrite;
        }
        i := i + 1;
      }
      return 0;
    }

    /** `cio_clear`. */
    method Clear()
      requires Valid()
      modifies this, rbuf, wbuf, rbuf.buf, wbuf.buf
      ensures Valid() && Drains() && Model() == FRESH && !flag && !multi && wcount == 0
      ensures rbuf.Contents() == [] && wbuf.Contents() == [] && armed == old(armed)
      ensures wbuf.buf == old(wbuf.buf) && rbuf.buf == old(rbuf.buf)
    {
      rbuf.Clear();
      wbuf.Clear();
      argv := new seq<byte>[0];
      argc, nbulk, bulkLen, multi, flag, wcount := 0, 0, 0, false, false, 0;
      sent := [];
    }

    /** `response`.  `out` is all that was sent of the reply when the call returned.
        A persistent connection clears an unfinished reply; the other kind keeps it and waits
        for the next write event. */
    method Response(persist: bool, k: seq<Write>) returns (rs: int, ghost out: seq<byte>)
      requires Valid() && Drains()
      modifies this, rbuf, wbuf, rbuf.buf, wbuf.buf
      ensures Valid() && Drains()
      ensures out == old(wbuf.Contents())[..|old(sent)| + Taken(k, old(wcount))]
      ensures out == old(wbuf.Contents()) <==> Offered(k) >= old(wcount)
      ensures armed == old(armed) + if !persist && Outcome(k, old(wcount)) == 1 then 1 else 0
      ensures if !persist && Outcome(k, old(wcount)) == 1
              then rs == 1 && sent == out && wbuf.Contents() == old(wbuf.Contents())
                   && wcount == old(wcount) - Taken(k, old(wcount))
              else rs == (if Outcome(k, old(wcount)) < 0 then -1 else 0) && wbuf.Contents() == [] && Model() == FRESH
      ensures wbuf.buf == old(wbuf.buf) && rbuf.buf == old(rbuf.buf)
    {
      WholeReplyIff(k);
      rs := SendSome(k);
      out := sent;
      if !persist && rs == 1 {
        armed := armed + 1;
        return;
      }
      if rs < 0 {
        Clear();
        return;
      }
      Clear();
      rs := 0;
    }

    /** The whole reply is out exactly when the kernel takes as many bytes as were waiting. */
    lemma WholeReplyIff(k: seq<Write>)
      requires Valid() && Drains()
      ensures var w := wbuf.Contents(); w[..|sent| + Taken(k, wcount)] == w <==> Offered(k) >= wcount
    {
      var w := wbuf.Contents();
      assert |sent| + wcount == |w| && w[..|w|] == w;
    }

    /** Successive write events of a connection that is not persistent, until the reply is out or fails. */
    method SendAll(events: seq<seq<Write>>) returns (rs: int, ghost out: seq<byte>)
      requires Valid() && Drains()
      modifies this, rbuf, wbuf, rbuf.buf, wbuf.buf
      ensures Valid() && Drains()
      ensures rs == Schedule(events, old(wcount)).0
      ensures out == old(wbuf.Contents())[..|old(sent)| + Schedule(events, old(wcount)).1]
      ensures rs == 0 ==> out == old(wbuf.Contents())
      ensures rs == 1 ==> sent == out && wbuf.Contents() == old(wbuf.Contents())
    {
      hide Schedule;
      ghost var w := wbuf.Contents();
      ScheduleAt(events, 0, wcount);
      rs := 1;
      out := sent;
      var e := 0;
      assert events[0..] == events;
      while e < |events| && rs == 1
        invariant e <= |events| && Valid() && Drains()
        invariant wbuf.buf == old(wbuf.buf) && rbuf.buf == old(rbuf.buf)
        invariant rs == 1 ==> sent == out && wbuf.Contents() == w && wcount <= old(wcount)
        invariant rs == 1 ==>
                    var (last, more) := Schedule(events[e..], wcount);
                    Schedule(events, old(wcount)) == (last, old(wcount) - wcount + more)
        invariant rs != 1 ==> rs == Schedule(events, old(wcount)).0
                              && out == w[..|old(sent)| + Schedule(events, old(wcount)).1]
      {
        ScheduleAt(events, e, wcount);
        rs, out := Response(false, events[e]);
        e := e + 1;
      }
      if rs == 1 { ScheduleAt(events, e, wcount); }
    }

    /** Nothing was reported to the client. */
    ghost predicate Quiet(f: bool, n: nat, w: seq<byte>, k: int)
      requires Valid()
      reads this, rbuf, wbuf, wbuf.buf
    {
      flag == f && armed == n && wbuf.Contents() == w && wcount == k
    }

    /** A fault sets the close flag and arms exactly one reply, which says what was wrong;
        any other verdict reports nothing. */
    ghost predicate Reported(v: Verdict, f: bool, n: nat, w: seq<byte>, k: int)
      requires Valid()
      reads this, rbuf, wbuf, wbuf.buf
    {
      if v.Failed? then
        flag && armed == n + 1 && wbuf.Contents() == w + Message(v.fault) && wcount == k + |Message(v.fault)|
      else Quiet(f, n, w, k)
    }

    /** What the client reads after each fault. */
    lemma ReportedTexts(v: Verdict, f: bool, n: nat, w: seq<byte>, k: int)
      requires Valid() && Reported(v, f, n, w, k)
      ensures v == Failed(UnknownProtocol) ==> wbuf.Contents() == w + Ascii("-ERR: unknown protocol\r\n")
      ensures v == Failed(OverLimit) ==> wbuf.Contents() == w + Ascii("-ERR reach the max command recv limit\r\n")
      ensures v == Failed(BadCount) ==> wbuf.Contents() == w + Ascii("-ERR: error number of bulk \r\n")
      ensures v == Failed(NoDollar) ==> wbuf.Contents() == w + Ascii("-ERR unknow protocol\r\n")
      ensures v == Failed(BadLength) ==> wbuf.Contents() == w + Ascii("-ERR: error bulk length \r\n")
      ensures !v.Failed? ==> wbuf.Contents() == w && flag == f && armed == n
      ensures v.Failed? ==> flag && armed == n + 1
    {
      MessageTexts();
      hide Ascii, Message;
    }
  }

  /** The four ways of a pass over a buffer that is not empty. */
  lemma ProcessIs(c: seq<byte>, st: State, multi: bool)
    requires c != []
    ensures multi || c[0] == STAR ==> Process(c, st, multi) == Pass(c, st)
    ensures !multi && c[0] != STAR ==>
              var a := Process(c, st, multi);
              && (|c| > MAX_COMMAND_LEN_LIMIT ==> a == Result(st, c, Failed(OverLimit)))
              && (|c| <= MAX_COMMAND_LEN_LIMIT && FindCrlf(c, 0) < 0 ==> a == Result(st, c, InHeader))
              && (|c| <= MAX_COMMAND_LEN_LIMIT && FindCrlf(c, 0) >= 0 ==>
                    a == Result(State(0, 0, InlineArgs(c)), c, Done))
              && R.KeptAsWritten(c, a) == c
  {
    hide Pass, FindCrlf, InlineArgs;
  }

  lemma ReplyParts(w: seq<byte>, body: seq<byte>)
    requires |body| <= UINT32_MAX
    ensures var h := Head(DOLLAR, Print(|body|)); |h| <= 24 && w + h + body + CRLF == w + Whole(ItemOf(body))
  {
    TwentyDigits(|body|);
  }

  lemma Inner(c: seq<byte>, pos: nat, e: nat)
    requires pos < e < |c|
    ensures c[pos + 1..e + 1][..e - pos - 1] == c[pos + 1..e] && c[pos + 1..e + 1][e - pos - 1] == c[e]
  {
  }

  /** Searching from `pos` is searching in what follows `pos`. */
  lemma {:induction false} FindShift(c: seq<byte>, pos: nat, at: nat)
    requires pos <= at && pos <= |c|
    ensures FindCrlf(c, at) == if FindCrlf(c[pos..], at - pos) < 0 then -1 else FindCrlf(c[pos..], at - pos) + pos
    decreases |c| - at
  {
    if at + 1 < |c| { FindShift(c, pos, at + 1); }
  }

  /** The header of a bulk string at `pos`. */
  lemma HeaderAt(c: seq<byte>, pos: nat, st: State, big: bool)
    requires st.nbulk > 0 && st.bulkLen == 0 && pos <= |c|
    ensures var e, a := FindCrlf(c, pos), Bulks(c[pos..], st, big);
            if e < 0 then a == Result(st, c[pos..], if big then Failed(OverLimit) else More)
            else if c[pos] != DOLLAR then a == Result(st, c[pos..], Failed(NoDollar))
            else var len := Str2ll(c[pos + 1..e]);
                 a == if GoodLength(len) then Bulks(c[e + 2..], st.(bulkLen := len.value), big)
                      else Result(st, c[pos..], Failed(BadLength))
  {
    hide FindCrlf, Str2ll;
    FindShift(c, pos, pos);
    var e, r := FindCrlf(c, pos), c[pos..];
    if e >= 0 && c[pos] == DOLLAR {
      assert r[1..e - pos] == c[pos + 1..e] && r[e - pos + 2..] == c[e + 2..];
    }
  }

  /** The body of a bulk string at `pos`. */
  lemma TakenBody(c: seq<byte>, pos: nat, st: State, big: bool)
    requires st.nbulk > 0 && st.bulkLen > 0 && pos + st.bulkLen + 2 <= |c|
    ensures Bulks(c[pos..], st, big)
         == Bulks(c[pos + st.bulkLen + 2..], State(st.nbulk - 1, 0, st.argv + [c[pos..pos + st.bulkLen]]), big)
  {
    var r := c[pos..];
    assert r[..st.bulkLen] == c[pos..pos + st.bulkLen] && r[st.bulkLen + 2..] == c[pos + st.bulkLen + 2..];
  }

  /** However small the pieces that the kernel takes one after the other: when their sizes reach that of the
      reply, the whole reply leaves in one event, on either kind of connection. */
  method PiecesDeliver(reply: seq<byte>, k: seq<Write>, persist: bool) returns (io: Cio, rs: int, ghost out: seq<byte>)
    requires |reply| * 2 <= UINT32_MAX && (forall i :: 0 <= i < |k| ==> k[i].Wrote?) && Sum(k) >= |reply|
    ensures io.Valid() && out == reply && rs == 0 && io.wbuf.Contents() == [] && io.armed == 0
  {
    io := new Cio();
    io.Append(reply);
    assert [] + reply == reply;
    EventMeans(k, [], |reply|);
    EventEnds(k, []);
    rs, out := io.Response(persist, k);
  }

  /** A persistent connection loses a reply of two bytes when the kernel takes one of them:
      that byte is all that leaves, and nothing of the reply is kept. */
  method ShortWriteLoses(reply: seq<byte>) returns (io: Cio, rs: int, ghost out: seq<byte>)
    requires |reply| == 2
    ensures io.Valid() && out == reply[..1] && rs == 0
    ensures io.wbuf.Contents() == [] && io.wcount == 0
  {
    io := new Cio();
    io.Append(reply);
    assert [] + reply == reply;
    var k := [Wrote(1), Again];
    assert k[1..] == [Again];
    rs, out := io.Response(true, k);
  }

  /** A new connection that is sent a printed command in pieces ends up with its arguments
      if and only if every piece but the last ends at a cut that the trim survives. */
  method ReceiveCommand(ghost args: seq<seq<byte>>, chunks: seq<seq<byte>>) returns (io: Cio, rc: int)
    requires Encodable(args) && |Encode(args)| <= MAX_COMMAND_LEN_LIMIT
    requires Bounded(chunks) && R.Concat(chunks) == Encode(args)
    ensures io.Valid() && (rc == 0 && io.Model() == State(0, 0, args) <==> Cuts.AllAligned(args, 0, chunks))
  {
    io := new Cio();
    assert chunks != [] && chunks[0][0] == R.Concat(chunks)[0] == STAR;
    Cuts.ResumedExactlyWhenAligned(args, chunks);
    ReadAllIsSession(NEW, chunks);
    rc := io.Feed(chunks);
  }

  /** A count header in one read on a new connection.  A number from 1 to 1024 is waited on; anything else is
      refused with one reply, and the connection is flagged for closing. */
  method ReceiveCount(text: seq<byte>) returns (io: Cio, rc: int)
    requires 13 !in text && 0 !in text && |text| <= 2045
    ensures io.Valid()
    ensures if exists n :: 1 <= n <= 1024 && Str2ll(text) == Some(n) then
              && rc == 1 && !io.flag && io.armed == 0 && io.wbuf.Contents() == []
              && io.Model() == State(Str2ll(text).value, 0, [])
            else
              && rc == -1 && io.flag && io.armed == 1 && io.Model() == State(0, 0, [])
              && io.wbuf.Contents() == Ascii("-ERR: error number of bulk \r\n")
  {
    hide Ascii, Message, Pass, Str2ll, R.Concat, Numeral;
    MessageTexts();
    io := new Cio();
    var b := [42] + text + [13, 10];
    CountAlone(text);
    MultiVerdict(NEW, b);
    assert [] + b == b;
    rc := io.ReadProcess(Bytes(b));
  }

  lemma CountAlone(text: seq<byte>)
    requires 13 !in text && 0 !in text && |text| <= 2045
    ensures var s := [42] + text + [13, 10];
            Pass(s, FRESH) == if Numeral(text, 1024) then Result(State(Str2ll(text).value, 0, []), [], More)
                              else Result(FRESH, s, Failed(BadCount))
    ensures Numeral(text, 1024) <==> exists n :: 1 <= n <= 1024 && Str2ll(text) == Some(n)
  {
    hide Pass, Str2ll, Bulks, LineAt;
    var s := [42] + text + [13, 10];
    assert s + [] == s;
    BadCountIff(text, [], FRESH);
    HeadLine(text, []);
    if Numeral(text, 1024) {
      LoopBegins(s, FRESH, |text| + 1);
      assert s[|text| + 3..] == [];
      NothingYet(State(Str2ll(text).value, 0, []));
    }
  }

  lemma PassResumed(c: seq<byte>, st: State)
    requires st.nbulk > 0
    ensures Pass(c, st) == Bulks(c[0..], st, |c| > MAX_COMMAND_LEN_LIMIT)
  {
    assert c[0..] == c;
  }

  lemma BulksShort(r: seq<byte>, st: State, big: bool)
    requires st.nbulk > 0 && st.bulkLen > 0
    ensures |r| < st.bulkLen + 2 ==> Bulks(r, st, big) == Result(st, r, More)
  {
  }

  lemma ConcatAt(chunks: seq<seq<byte>>, i: nat)
    requires i < |chunks|
    ensures R.Concat(chunks[i..]) == chunks[i] + R.Concat(chunks[i + 1..])
  {
    assert chunks[i..][0] == chunks[i] && chunks[i..][1..] == chunks[i + 1..];
  }

  /** A number without NULs, written after a prefix into a zeroed buffer, ends at the first NUL. */
  lemma NumberInside(prefix: byte, t: seq<byte>, image: seq<byte>)
    requires |t| <= 21 && |image| == 64
    requires image == [prefix] + t + seq(63 - |t|, _ => 0)
    ensures image[1..1 + |t|] == t && image[0] == prefix && image[1 + |t|] == 0
    ensures 0 !in t ==> forall k :: 1 <= k <= |t| ==> image[k] != 0
  {
    assert forall k :: 1 <= k <= |t| ==> image[k] == t[k - 1];
  }

  lemma LineOf(prefix: byte, t: seq<byte>, image: seq<byte>, line: seq<byte>)
    requires |t| <= 21 && |image| == 64 && image[1..1 + |t|] == t && image[0] == prefix
    requires line == image[|t| + 1 := CR][|t| + 2 := LF][..|t| + 3]
    ensures line == Head(prefix, t)
  {
    var h := Head(prefix, t);
    forall k | 0 <= k < |h| ensures line[k] == h[k] {
      if 1 <= k <= |t| { assert image[k] == image[1..1 + |t|][k - 1]; }
    }
  }

  /** A printed number holds no NUL. */
  lemma NoNul(l: int)
    ensures 0 !in Print(l)
  {
    if l < 0 { assert Print(l) == [MINUS] + Digits(-l); }
  }

  lemma PrintLength(l: int)
    requires InRange(l)
    ensures |Print(l)| <= 21
  {
    TwentyDigits(if l < 0 then -l else l);
  }
}
