/** Whole commands from the first byte to the last byte of the reply: one connection is served again and
    again, and a connection that says quit is closed. */
module Serving {
  import opened Options
  import opened Events
  import opened Decimal
  import opened Protocol
  import opened ProtocolInv
  import opened ProtocolRuns
  import opened Parser
  import opened ParserResume
  import opened ParserReads
  import opened Reading
  import opened GuardedReads

  // ---------- one stage after the other ----------

  /** The polling thread hands the connection to the workers. */
  lemma Hand(j: Joint, f: Fired)
    requires j.s.pc == Got(f) && !f.mask.w && j.s.queue == []
    ensures Run(j, [GO, GO] + [GO])
    ensures End(j, [GO, GO] + [GO])
         == Joint(Disarm(j.s, f.fd, Mask(true, false, false)).(pc := Ready, queue := [f]), j.io)
  {
    hide Run, End, Pollable, Fits, DoTake, DoWrite;
    RunTwo(j, GO, GO);
    RunOne(Next(Next(j, GO), GO), GO);
    RunAppend(j, [GO, GO], [GO]);
    assert [f] + [] == [f];
  }

  /** A worker takes it and arms a reply. */
  lemma Work(j: Joint, f: Fired, w: Worker, quit: bool)
    requires j.s.pc == Ready && j.s.queue == [f] && w !in j.s.held && f.fd in j.s.conns
    ensures var x := [Step(Pop(w), []), Step(Reply(w, quit), [])];
            var c := j.s.conns[f.fd];
            && Run(j, x)
            && End(j, x) == Joint(Arm(j.s, f.fd, Mask(false, true, false), 3).(queue := [],
                                    conns := j.s.conns[f.fd := c.(flag := c.flag || quit,
                                                                  replies := c.replies + [c.current])]), j.io)
  {
    hide Run, End, Pollable, Fits, DoTake, DoWrite, DoMain;
    var p, r := Step(Pop(w), []), Step(Reply(w, quit), []);
    assert j.s.held[w := f] - {w} == j.s.held;
    RunTwo(j, p, r);
  }

  /** The reply can be written, and nothing else happens. */
  function Writable(fd: Fd): seq<Step>
  {
    [Step(Poll([Fired(fd, WRITE)]), []), Step(Take(Outcome.More), [])]
  }

  lemma Write(j: Joint, fd: Fd)
    requires j.s.pc == Ready && j.s.batch == [] && fd in j.s.conns && fd != j.s.listener
    requires Look(j.s, fd).mask == Mask(false, true, true)
    ensures Run(j, Writable(fd))
    ensures End(j, Writable(fd)) == Joint(j.s.(pc := Tail(Fired(fd, Mask(false, true, true)))), j.io)
  {
    hide Run, End, DoWrite, DoMain;
    var p, t := Step(Poll([Fired(fd, WRITE)]), []), Step(Take(Outcome.More), []);
    assert [Fired(fd, WRITE)][1..] == [];
    RunTwo(j, p, t);
  }

  /** The whole reply goes out: the connection is new again, or about to be closed. */
  lemma Send(j: Joint, fd: Fd)
    requires j.s.pc == Tail(Fired(fd, Mask(false, true, true))) && fd in j.s.conns
    requires Look(j.s, fd).mask == Mask(false, true, true) && Look(j.s, fd).writeProc == 3
    ensures Run(j, [GO, GO] + [GO])
    ensures var t, c, e := End(j, [GO, GO] + [GO]), j.s.conns[fd], Look(j.s, fd);
            && t.io == j.io[fd := NEW]
            && t.s == j.s.(pc := Ready, reg := t.s.reg, conns := j.s.conns[fd := c.(flag := false, current := None)])
            && (forall x :: x != fd ==> Look(t.s, x) == Look(j.s, x))
            && (if c.flag then Look(t.s, fd).mask == Mask(false, true, true) && Look(t.s, fd).writeProc == 4
                else Look(t.s, fd).mask == Mask(true, false, true) && Look(t.s, fd).readProc == 2)
  {
    hide Run, End, Pollable, Fits, DoTake;
    RunTwo(j, GO, GO);
    RunOne(Next(Next(j, GO), GO), GO);
    RunAppend(j, [GO, GO], [GO]);
  }

  /** A connection that was given up is closed. */
  lemma Close(j: Joint, fd: Fd)
    requires j.s.pc == Tail(Fired(fd, Mask(false, true, true))) && fd in j.s.conns
    requires Look(j.s, fd).mask == Mask(false, true, true) && Look(j.s, fd).writeProc == 4
    ensures Run(j, [GO, GO] + [GO])
    ensures var t := End(j, [GO, GO] + [GO]);
            && t.s.pc == Ready && t.s.conns == j.s.conns - {fd} && t.s.destroyed == j.s.destroyed + [j.s.conns[fd].id]
            && t.s.connections == j.s.connections - 1 && Look(t.s, fd).mask == Mask(false, false, false)
  {
    hide Run, End, Pollable, Fits, DoTake;
    RunTwo(j, GO, GO);
    RunOne(Next(Next(j, GO), GO), GO);
    RunAppend(j, [GO, GO], [GO]);
  }

  // ---------- a whole command ----------

  /** The reads of a command that becomes complete. */
  lemma {:induction false} ReadsComplete(j: Joint, fd: Fd, chunks: seq<seq<byte>>)
    requires Waits(j, fd) && Bounded(chunks) && ReadAll(j.io[fd], chunks).1.Done?
    ensures Run(j, Visits(j.io[fd], fd, chunks))
    ensures End(j, Visits(j.io[fd], fd, chunks)) == Taken(j, fd, ReadAll(j.io[fd], chunks).0)
    decreases |chunks|
  {
    hide Receive, Inv, Look, Visit, Run, End, RunEnabled, GuardedRun, Actions;
    var io, b := j.io[fd], chunks[0];
    var (next, v) := Receive(io, b);
    VisitRun(j, fd, b);
    if v.Done? {
      assert Visit(io, fd, b) + [] == Visit(io, fd, b);
    } else {
      var t := End(j, Visit(io, fd, b));
      ReadsComplete(t, fd, chunks[1..]);
      RunAppend(j, Visit(io, fd, b), Visits(next, fd, chunks[1..]));
    }
  }

  /** From the complete command to the armed reply: the polling thread hands it over, worker `w` answers. */
  function Answering(w: Worker, quit: bool): seq<Step>
  {
    [GO, GO] + [GO] + [Step(Pop(w), []), Step(Reply(w, quit), [])]
  }

  lemma Answer(j: Joint, fd: Fd, next: Io, w: Worker, quit: bool)
    requires Waits(j, fd) && !j.s.conns[fd].flag && j.s.queue == [] && w !in j.s.held
    ensures var x, t := Answering(w, quit), Taken(j, fd, next);
            var c := j.s.conns[fd];
            && Run(t, x)
            && var u := End(t, x);
               && u.io == j.io[fd := next]
               && u.s == j.s.(reg := u.s.reg, conns := j.s.conns[fd :=
                          Conn(c.id, quit, Some(c.complete), c.complete + 1, c.replies + [Some(c.complete)])])
               && (forall x :: x != fd ==> Look(u.s, x) == Look(j.s, x))
               && Look(u.s, fd).mask == Mask(false, true, true) && Look(u.s, fd).writeProc == 3
  {
    hide Run, End, BatchOk, ProtocolInv.CountOk, PcOk, AllAnswered, OneOutstanding, Fds, OnePlace;
    assert ConnOk(j.s, fd);
    var t, f := Taken(j, fd, next), Fired(fd, Mask(true, false, true));
    Hand(t, f);
    var u := End(t, [GO, GO] + [GO]);
    Work(u, f, w, quit);
    RunAppend(t, [GO, GO] + [GO], [Step(Pop(w), []), Step(Reply(w, quit), [])]);
  }

  /** One command: it is read in any pieces from which it can be read, answered by any free worker, and the
      reply goes out.  The connection is then as new, and one command and one reply further. */
  function Serve(io: Io, fd: Fd, chunks: seq<seq<byte>>, w: Worker, quit: bool): seq<Step>
    requires Bounded(chunks)
  {
    Visits(io, fd, chunks) + Answering(w, quit) + Writable(fd) + ([GO, GO] + [GO])
  }

  lemma ServeRun(j: Joint, fd: Fd, chunks: seq<seq<byte>>, w: Worker, quit: bool)
    requires Waits(j, fd) && Bounded(chunks) && ReadAll(j.io[fd], chunks).1.Done?
    requires !j.s.conns[fd].flag && j.s.queue == [] && w !in j.s.held
    ensures var x := Serve(j.io[fd], fd, chunks, w, quit);
            var c := j.s.conns[fd];
            && Run(j, x)
            && var t := End(j, x);
               && t.io == j.io[fd := NEW]
               && t.s == j.s.(reg := t.s.reg, conns := j.s.conns[fd :=
                          Conn(c.id, false, None, c.complete + 1, c.replies + [Some(c.complete)])])
               && (forall x :: x != fd ==> Look(t.s, x) == Look(j.s, x))
               && (if quit then Look(t.s, fd).mask == Mask(false, true, true) && Look(t.s, fd).writeProc == 4
                   else Look(t.s, fd).mask == Mask(true, false, true) && Look(t.s, fd).readProc == 2)
  {
    hide Run, End, Visits, Receive, Inv, Answering, Writable, Look;
    var visits, last := Visits(j.io[fd], fd, chunks), [GO, GO] + [GO];
    NotListener(j, fd);
    ReadsComplete(j, fd, chunks);
    var t1 := End(j, visits);
    Answer(j, fd, ReadAll(j.io[fd], chunks).0, w, quit);
    RunAppend(j, visits, Answering(w, quit));
    var t2 := End(t1, Answering(w, quit));
    Write(t2, fd);
    RunAppend(j, visits + Answering(w, quit), Writable(fd));
    var t3 := End(t2, Writable(fd));
    SameLook(t2.s, t3.s);
    Send(t3, fd);
    RunAppend(j, visits + Answering(w, quit) + Writable(fd), last);
  }

  lemma SameLook(s: Protocol.State, t: Protocol.State)
    requires s.reg == t.reg
    ensures forall x :: Look(s, x) == Look(t, x)
  {
  }

  lemma NotListener(j: Joint, fd: Fd)
    requires Waits(j, fd)
    ensures fd != j.s.listener
  {
  }

  // ---------- command after command ----------

  predicate NoCompletion(steps: seq<Step>)
  {
    forall i :: 0 <= i < |steps| ==> steps[i].a != Take(Outcome.Complete)
  }

  lemma {:induction false} NoCompletionKeeps(j: Joint, steps: seq<Step>)
    requires Inv(j.s) && Run(j, steps) && NoCompletion(steps)
    ensures Inv(End(j, steps).s)
    decreases |steps|
  {
    hide Inv, Enabled, ReadsConn, Brings, NextIo, Do;
    if steps != [] {
      StepKeeps(j.s, steps[0].a);
      NoCompletionKeeps(Next(j, steps[0]), steps[1..]);
    }
  }

  lemma {:induction false} CompleteWithoutFault(io: Io, chunks: seq<seq<byte>>)
    requires Reads(chunks) && ReadAll(io, chunks).1.Done?
    ensures !Breaks(io, false, chunks)
    decreases |chunks|
  {
    hide Receive;
    if chunks != [] && !Receive(io, chunks[0]).1.Done? {
      CompleteWithoutFault(Receive(io, chunks[0]).0, chunks[1..]);
    }
  }

  /** Serving a command leaves the hand-off protocol in order. */
  lemma ServeKeeps(j: Joint, fd: Fd, chunks: seq<seq<byte>>, w: Worker, quit: bool)
    requires Waits(j, fd) && Bounded(chunks) && ReadAll(j.io[fd], chunks).1.Done?
    requires !j.s.conns[fd].flag && j.s.queue == [] && w !in j.s.held
    requires Run(j, Serve(j.io[fd], fd, chunks, w, quit))
    ensures Inv(End(j, Serve(j.io[fd], fd, chunks, w, quit)).s)
  {
    hide Run, End, Visits, Receive, Inv, Look, RunEnabled, GuardedRun, Actions, Breaks;
    var visits, rest := Visits(j.io[fd], fd, chunks), Answering(w, quit) + Writable(fd) + ([GO, GO] + [GO]);
    assert Serve(j.io[fd], fd, chunks, w, quit) == visits + rest;
    VisitsRun(j, fd, chunks);
    CompleteWithoutFault(j.io[fd], chunks);
    RunIsRun(j, visits);
    RunKeeps(j.s, Actions(visits));
    RunSplit(j, visits, rest);
    NoCompletionKeeps(End(j, visits), rest);
  }

  lemma {:induction false} RunSplit(j: Joint, x: seq<Step>, y: seq<Step>)
    requires Run(j, x + y)
    ensures Run(j, x) && Run(End(j, x), y) && End(j, x + y) == End(End(j, x), y)
    decreases |x|
  {
    hide Possible, Next;
    if x == [] {
      assert x + y == y;
    } else {
      assert (x + y)[1..] == x[1..] + y;
      RunSplit(Next(j, x[0]), x[1..], y);
    }
  }

  function ServeEach(fd: Fd, commands: seq<seq<seq<byte>>>, w: Worker): seq<Step>
    requires forall i :: 0 <= i < |commands| ==> Bounded(commands[i])
  {
    if commands == [] then [] else Serve(NEW, fd, commands[0], w, false) + ServeEach(fd, commands[1..], w)
  }

  /** Any number of commands on one connection, each read in pieces from which it can be read: a run of the
      whole system answers every one of them, and the connection waits for the next as if it were new. */
  lemma {:induction false} ServeEachRun(j: Joint, fd: Fd, commands: seq<seq<seq<byte>>>, w: Worker)
    requires Waits(j, fd) && !j.s.conns[fd].flag && j.io[fd] == NEW && j.s.queue == [] && w !in j.s.held
    requires forall i :: 0 <= i < |commands| ==> Bounded(commands[i]) && ReadAll(NEW, commands[i]).1.Done?
    ensures var x, c := ServeEach(fd, commands, w), j.s.conns[fd];
            && Run(j, x)
            && var t := End(j, x);
               && Waits(t, fd) && t.io == j.io && t.s.queue == [] && t.s.held == j.s.held
               && t.s.conns[fd].id == c.id && !t.s.conns[fd].flag
               && t.s.conns[fd].complete == c.complete + |commands| == |t.s.conns[fd].replies|
    decreases |commands|
  {
    hide Run, End, Inv, Look, Serve;
    if commands == [] {
      Answered(j, fd);
      NoSteps(j);
    } else {
      ServeRun(j, fd, commands[0], w, false);
      ServeKeeps(j, fd, commands[0], w, false);
      var x := Serve(NEW, fd, commands[0], w, false);
      var t := End(j, x);
      ServeEachRun(t, fd, commands[1..], w);
      RunAppend(j, x, ServeEach(fd, commands[1..], w));
    }
  }

  lemma Answered(j: Joint, fd: Fd)
    requires Waits(j, fd) && !j.s.conns[fd].flag
    ensures |j.s.conns[fd].replies| == j.s.conns[fd].complete
  {
    assert ConnOk(j.s, fd);
  }

  /** A connection that says quit gets its reply and is closed. */
  lemma QuitCloses(j: Joint, fd: Fd, chunks: seq<seq<byte>>, w: Worker)
    requires Waits(j, fd) && Bounded(chunks) && ReadAll(j.io[fd], chunks).1.Done?
    requires !j.s.conns[fd].flag && j.s.queue == [] && w !in j.s.held
    ensures var x := Serve(j.io[fd], fd, chunks, w, true) + Writable(fd) + ([GO, GO] + [GO]);
            && Run(j, x)
            && var t := End(j, x);
               && t.s.conns == j.s.conns - {fd} && t.s.destroyed == j.s.destroyed + [j.s.conns[fd].id]
               && t.s.connections == j.s.connections - 1 && t.s.pc == Ready
               && Look(t.s, fd).mask == Mask(false, false, false)
  {
    hide Run, End, Inv, Look, Serve, Writable;
    NotListener(j, fd);
    ServeRun(j, fd, chunks, w, true);
    var x := Serve(j.io[fd], fd, chunks, w, true);
    var t1 := End(j, x);
    Write(t1, fd);
    RunAppend(j, x, Writable(fd));
    var t2 := End(t1, Writable(fd));
    SameLook(t1.s, t2.s);
    Close(t2, fd);
    RunAppend(j, x + Writable(fd), [GO, GO] + [GO]);
    assert t1.s.conns - {fd} == j.s.conns - {fd};
  }
}
