/** The hand-off protocol and the parser together: every read brings bytes, and the bytes decide how it ends. */
module GuardedReads {
  import opened Options
  import opened Events
  import opened Decimal
  import opened Protocol
  import opened ProtocolInv
  import opened ProtocolRuns
  import opened Parser
  import opened ParserResume
  import opened ParserReads
  import opened ParserHeaders
  import opened ParserFaults
  import opened Reading

  type Conns = map<Fd, Io>

  datatype Joint = Joint(s: Protocol.State, io: Conns)

  /** An action, and the bytes it reads if it reads any. */
  datatype Step = Step(a: Action, input: seq<byte>)

  /** The action calls `read_event_proc`. */
  predicate ReadsConn(s: Protocol.State, a: Action)
  {
    a.Take? && s.batch != [] && s.batch[0].mask.r && s.batch[0].fd != s.listener
  }

  /** The action sends a reply, which ends in `cio_clear`. */
  predicate Answers(s: Protocol.State, a: Action)
  {
    a.Main? && s.pc.Tail? && s.pc.f.mask.w && Look(s, s.pc.f.fd).mask != NONE
    && Look(s, s.pc.f.fd).writeProc != DESTROY
  }

  function Told(v: Verdict): Outcome
  {
    match v
    case Done => Complete
    case Failed(_) => Bad
    case _ => Outcome.More
  }

  /** A read gives EAGAIN, the end of file or an error, or bytes and what the parser makes of them. */
  predicate Brings(io: Io, outcome: Outcome, b: seq<byte>)
  {
    if b == [] then outcome.More? || outcome.Gone?
    else |b| <= READ_MAX && outcome == Told(Receive(io, b).1)
  }

  predicate Possible(j: Joint, e: Step)
  {
    && Enabled(j.s, e.a)
    && (ReadsConn(j.s, e.a) ==>
          j.s.batch[0].fd in j.io && Brings(j.io[j.s.batch[0].fd], e.a.outcome, e.input))
  }

  function NextIo(j: Joint, e: Step): Conns
    requires Possible(j, e)
  {
    if ReadsConn(j.s, e.a) then
      var fd := j.s.batch[0].fd;
      if e.input == [] then j.io else j.io[fd := Receive(j.io[fd], e.input).0]
    else if e.a.Take? && j.s.batch[0].mask.r && e.a.outcome.Opened? then j.io[e.a.outcome.fd := NEW]
    else if Answers(j.s, e.a) then j.io[j.s.pc.f.fd := NEW]
    else j.io
  }

  function Next(j: Joint, e: Step): Joint
    requires Possible(j, e)
  {
    Joint(Do(j.s, e.a), NextIo(j, e))
  }

  function Start(listener: Fd): Joint { Joint(Init(listener), map[]) }

  predicate Run(j: Joint, steps: seq<Step>)
    decreases |steps|
  {
    steps == [] || (Possible(j, steps[0]) && Run(Next(j, steps[0]), steps[1..]))
  }

  function End(j: Joint, steps: seq<Step>): Joint
    requires Run(j, steps)
    decreases |steps|
  {
    if steps == [] then j else End(Next(j, steps[0]), steps[1..])
  }

  function Actions(steps: seq<Step>): seq<Action>
  {
    if steps == [] then [] else [steps[0].a] + Actions(steps[1..])
  }

  lemma ActionsCons(steps: seq<Step>)
    requires steps != []
    ensures Actions(steps) != [] && Actions(steps)[0] == steps[0].a && Actions(steps)[1..] == Actions(steps[1..])
  {
  }

  /** A run of both is a run of the protocol. */
  lemma {:induction false} RunIsRun(j: Joint, steps: seq<Step>)
    requires Run(j, steps)
    ensures RunEnabled(j.s, Actions(steps)) && After(j.s, Actions(steps)) == End(j, steps).s
    decreases |steps|
  {
    hide Enabled, ReadsConn, Brings, NextIo, Do;
    if steps != [] {
      ActionsCons(steps);
      RunIsRun(Next(j, steps[0]), steps[1..]);
    }
  }

  // ---------- faults after which nothing completes ----------

  /** What the buffer of a connection says once a fault was reported: no command can complete any more. */
  predicate Final(io: Io)
  {
    if !io.multi then true
    else if io.st.nbulk == 0 then FindCrlf(io.buf, 0) >= 0 || !Extensible(STAR, io.buf, MAX_BULKS)
    else Hopeless(io.st, io.buf)
  }

  /** An inline line over the limit stays over it. */
  lemma {:induction false} InlineIsStuck(io: Io, chunks: seq<seq<byte>>)
    requires !io.multi && |io.buf| > MAX_COMMAND_LEN_LIMIT && io.buf[0] != STAR && Reads(chunks)
    ensures !Finishes(io, chunks)
    decreases |chunks|
  {
    hide Pass, FindCrlf, InlineArgs;
    if chunks != [] { InlineIsStuck(Receive(io, chunks[0]).0, chunks[1..]); }
  }

  lemma {:induction false} FinishesIsCompletes(io: Io, chunks: seq<seq<byte>>)
    requires io.multi && Reads(chunks)
    ensures Finishes(io, chunks) <==> Completes(io.st, io.buf, chunks)
    decreases |chunks|
  {
    hide Pass, KeptAsWritten;
    if chunks != [] { FinishesIsCompletes(Receive(io, chunks[0]).0, chunks[1..]); }
  }

  lemma DoomedIffNone(io: Io)
    requires io.multi
    ensures Doomed(io) <==> !CanComplete(io.st, io.buf)
  {
    hide Finishes, Completes;
    forall chunks | Bounded(chunks) ensures Finishes(io, chunks) <==> Completes(io.st, io.buf, chunks) {
      FinishesIsCompletes(io, chunks);
    }
  }

  /** After any fault of any read: nothing that the client sends completes a command if and only if the
      buffer says so. */
  lemma FinalIff(io: Io, b: seq<byte>)
    requires IoOk(io) && b != [] && Receive(io, b).1.Failed?
    ensures Doomed(Receive(io, b).0) <==> Final(Receive(io, b).0)
  {
    var c, t := io.buf + b, Receive(io, b).0;
    if t.multi {
      hide Pass, CanComplete, FindCrlf, Extensible, Hopeless, Doomed;
      DoomedIffNone(t);
      PassShape(c, io.st);
      PassSettles(c, io.st);
      if t.st.nbulk > 0 { LaterCompletionIff(t.st, c); } else { CountCompletionIff(c, io.st); }
    } else {
      hide Pass, FindCrlf, InlineArgs, Finishes;
      forall chunks | Bounded(chunks) ensures !Finishes(t, chunks) { InlineIsStuck(t, chunks); }
    }
  }

  /** The same fault by fault, when no body was pending (ParserFaults.Recoverable). */
  lemma FinalByFault(io: Io, b: seq<byte>)
    requires IoOk(io) && b != [] && Receive(io, b).1.Failed? && Receive(io, b).0.multi && io.st.bulkLen == 0
    ensures Final(Receive(io, b).0) <==> !Recoverable(io.buf + b, io.st, Pass(io.buf + b, io.st))
  {
    hide Pass, CanComplete, FindCrlf, Extensible, Hopeless, Doomed, Final, Recoverable;
    FinalIff(io, b);
    DoomedIffNone(Receive(io, b).0);
    FaultsRecoverableIff(io.buf + b, io.st);
  }

  // ---------- faults that are final keep ownership ----------

  /** Every connection has a reading half, and one that may still be read from after a fault is doomed. */
  ghost predicate JointInv(j: Joint)
  {
    && Inv(j.s)
    && (forall fd :: fd in j.s.conns ==> fd in j.io && IoOk(j.io[fd]))
    && (forall fd :: Readable(j.s, fd) ==> fd in j.io && Doomed(j.io[fd]))
  }

  /** Flagged for closing, with READ still armed. */
  predicate Readable(s: Protocol.State, fd: Fd)
  {
    fd in s.conns && s.conns[fd].flag && Look(s, fd).mask.r
  }

  /** The read reports a fault. */
  predicate Faults(s: Protocol.State, a: Action) { ReadsConn(s, a) && a.outcome.Bad? }

  predicate StaysFinal(j: Joint, e: Step)
    requires Possible(j, e)
  {
    Faults(j.s, e.a) ==> Final(NextIo(j, e)[j.s.batch[0].fd])
  }

  /** Every fault of the run is final. */
  predicate AllFinal(j: Joint, steps: seq<Step>)
    requires Run(j, steps)
    decreases |steps|
  {
    steps == [] || (StaysFinal(j, steps[0]) && AllFinal(Next(j, steps[0]), steps[1..]))
  }

  /** What `fd` was before the action, if it is readable after a fault now. */
  ghost predicate WasReadable(s: Protocol.State, a: Action, fd: Fd)
    requires Enabled(s, a)
  {
    && (Readable(s, fd) || (Faults(s, a) && fd == s.batch[0].fd))
    && (Answers(s, a) ==> fd != s.pc.f.fd)
    && (a.Take? && s.batch[0].mask.r && a.outcome.Opened? ==> fd != a.outcome.fd)
  }

  lemma ReadableMain(s: Protocol.State, sent: bool, fd: Fd)
    requires Inv(s) && Enabled(s, Main(sent)) && Readable(Do(s, Main(sent)), fd)
    ensures WasReadable(s, Main(sent), fd)
  {
    hide BatchOk, ProtocolInv.CountOk, PcOk, AllAnswered, OneOutstanding, Away, Busy, OnePlace;
    if Moving(s.pc).Some? { MovingOk(s, Moving(s.pc).value); }
  }

  lemma ReadableReply(s: Protocol.State, w: Worker, quit: bool, fd: Fd)
    requires Inv(s) && Enabled(s, Reply(w, quit)) && Readable(Do(s, Reply(w, quit)), fd)
    ensures WasReadable(s, Reply(w, quit), fd)
  {
    hide BatchOk, ProtocolInv.CountOk, PcOk, AllAnswered, OneOutstanding, Fds, OnePlace;
    InHeld(s.held, w);
    assert ConnOk(s, s.held[w].fd);
  }

  /** A connection becomes readable after a fault by that fault only. */
  lemma ReadableBefore(s: Protocol.State, a: Action, fd: Fd)
    requires Inv(s) && Enabled(s, a) && Readable(Do(s, a), fd)
    ensures WasReadable(s, a, fd)
  {
    hide Inv;
    match a
    case Main(sent) => ReadableMain(s, sent, fd);
    case Reply(w, quit) => ReadableReply(s, w, quit, fd);
    case _ =>
  }

  lemma NewConns(s: Protocol.State, a: Action)
    requires Enabled(s, a)
    ensures forall fd :: fd in Do(s, a).conns && fd !in s.conns ==>
              a.Take? && s.batch[0].mask.r && a.outcome == Opened(fd) && !ReadsConn(s, a)
  {
  }

  lemma ReadsAConn(s: Protocol.State, a: Action)
    requires Inv(s) && Enabled(s, a) && ReadsConn(s, a)
    ensures var fd := s.batch[0].fd; fd in s.conns && Look(s, fd).mask.r && !a.outcome.Opened?
  {
    assert s.batch[0] in s.batch;
  }

  lemma ListenerApart(s: Protocol.State)
    requires Inv(s)
    ensures s.listener !in s.conns
  {
  }

  lemma NewIsOk()
    ensures IoOk(NEW)
  {
  }

  /** What the read of a step makes of the connection that is read. */
  lemma ReadKeeps(j: Joint, e: Step)
    requires JointInv(j) && Possible(j, e) && StaysFinal(j, e) && ReadsConn(j.s, e.a)
    ensures Guarded(j.s, e.a)
    ensures var fd := j.s.batch[0].fd;
            var io := NextIo(j, e)[fd];
            IoOk(io) && (Readable(j.s, fd) || e.a.outcome.Bad? ==> Doomed(io))
  {
    hide Inv, Enabled, Doomed, Final, IoOk, Receive, Look;
    ReadsAConn(j.s, e.a);
    var fd := j.s.batch[0].fd;
    if e.input != [] {
      ReceiveKeeps(j.io[fd], e.input);
      if Readable(j.s, fd) { DoomedStays(j.io[fd], e.input); }
      if e.a.outcome.Bad? { FinalIff(j.io[fd], e.input); }
    }
  }

  lemma JointKeeps(j: Joint, e: Step)
    requires JointInv(j) && Possible(j, e) && StaysFinal(j, e)
    ensures Guarded(j.s, e.a) && JointInv(Next(j, e))
  {
    hide Inv, Enabled, Do, Doomed, Final, IoOk, Receive, Look, Readable, StaysFinal, Brings, Answers;
    var t := Next(j, e);
    ListenerApart(j.s);
    NewIsOk();
    if ReadsConn(j.s, e.a) { ReadKeeps(j, e); }
    StepKeeps(j.s, e.a);
    NewConns(j.s, e.a);
    forall fd | Readable(t.s, fd) ensures fd in t.io && Doomed(t.io[fd]) {
      ReadableBefore(j.s, e.a, fd);
    }
  }

  lemma {:induction false} FinalRunIsGuarded(j: Joint, steps: seq<Step>)
    requires JointInv(j) && Run(j, steps) && AllFinal(j, steps)
    ensures RunEnabled(j.s, Actions(steps)) && GuardedRun(j.s, Actions(steps)) && JointInv(End(j, steps))
    decreases |steps|
  {
    hide JointInv, Possible, StaysFinal, Guarded, Enabled, Do;
    RunIsRun(j, steps);
    if steps != [] {
      ActionsCons(steps);
      JointKeeps(j, steps[0]);
      FinalRunIsGuarded(Next(j, steps[0]), steps[1..]);
    }
  }

  lemma StartOk(listener: Fd)
    ensures JointInv(Start(listener))
  {
    hide Inv;
    InitOk(listener);
  }

  /** In every run from the start, whatever the clients send and however the threads interleave:
      when every fault is final, no connection ever has two owners. */
  lemma FinalFaultsKeepOwnership(listener: Fd, steps: seq<Step>)
    requires Run(Start(listener), steps) && AllFinal(Start(listener), steps)
    ensures RunEnabled(Init(listener), Actions(steps)) && OwnedThroughout(Init(listener), Actions(steps))
  {
    hide JointInv, OwnedThroughout, GuardedRun, Inv;
    StartOk(listener);
    FinalRunIsGuarded(Start(listener), steps);
    InitOk(listener);
    OwnershipIff(Init(listener), Actions(steps));
  }

  // ---------- faults that are not final lose it ----------

  /** The polling thread is about to poll, and `fd` waits for input. */
  ghost predicate Waits(j: Joint, fd: Fd)
  {
    && Inv(j.s) && j.s.pc == Ready && j.s.batch == []
    && fd in j.s.conns && fd in j.io && Look(j.s, fd).mask.r
  }

  const GO := Step(Main(true), [])

  /** One poll in which only `fd` has something to read, namely `b`, up to the next poll. */
  function Visit(io: Io, fd: Fd, b: seq<byte>): seq<Step>
    requires b != []
  {
    var v := Receive(io, b).1;
    [Step(Poll([Fired(fd, READ)]), []), Step(Take(Told(v)), b)]
    + if v.Done? then [] else if v.Failed? then [GO, GO] else [GO]
  }

  function Visits(io: Io, fd: Fd, chunks: seq<seq<byte>>): seq<Step>
    requires Reads(chunks)
    decreases |chunks|
  {
    if chunks == [] then []
    else
      var (next, v) := Receive(io, chunks[0]);
      Visit(io, fd, chunks[0]) + if v.Done? then [] else Visits(next, fd, chunks[1..])
  }

  lemma RunOne(j: Joint, e: Step)
    requires Possible(j, e)
    ensures Run(j, [e]) && End(j, [e]) == Next(j, e) && Actions([e]) == [e.a] && RunEnabled(j.s, [e.a])
    ensures GuardedRun(j.s, [e.a]) <==> Guarded(j.s, e.a)
  {
    hide Enabled, ReadsConn, Guarded, Do, NextIo;
    assert [e][1..] == [] && [e.a][1..] == [];
  }

  lemma {:induction false} RunAppend(j: Joint, x: seq<Step>, y: seq<Step>)
    requires Run(j, x) && Run(End(j, x), y)
    ensures Run(j, x + y) && End(j, x + y) == End(End(j, x), y)
    decreases |x|
  {
    hide Possible, Next;
    if x == [] {
      assert x + y == y;
    } else {
      assert (x + y)[1..] == x[1..] + y;
      RunAppend(Next(j, x[0]), x[1..], y);
    }
  }

  /** Neither part completes a command on a flagged connection. */
  lemma {:induction false} GuardedAppend(j: Joint, x: seq<Step>, y: seq<Step>)
    requires Run(j, x) && Run(End(j, x), y)
    ensures Run(j, x + y) && RunEnabled(j.s, Actions(x + y))
    ensures RunEnabled(j.s, Actions(x)) && RunEnabled(End(j, x).s, Actions(y))
    ensures GuardedRun(j.s, Actions(x + y)) <==> GuardedRun(j.s, Actions(x)) && GuardedRun(End(j, x).s, Actions(y))
    decreases |x|
  {
    hide Possible, Guarded, Enabled, Do, NextIo;
    RunAppend(j, x, y);
    RunIsRun(j, x + y);
    RunIsRun(j, x);
    RunIsRun(End(j, x), y);
    if x == [] {
      assert x + y == y;
    } else {
      assert (x + y)[1..] == x[1..] + y;
      ActionsCons(x + y);
      ActionsCons(x);
      GuardedAppend(Next(j, x[0]), x[1..], y);
    }
  }

  /** The record of `fd` is polled. */
  lemma PollStep(j: Joint, fd: Fd)
    requires Waits(j, fd)
    ensures var e := Step(Poll([Fired(fd, READ)]), []);
            Possible(j, e) && Next(j, e) == j.(s := j.s.(batch := [Fired(fd, READ)])) && Guarded(j.s, e.a)
    ensures fd != j.s.listener && Look(j.s, fd).mask.p
  {
    hide BatchOk, ProtocolInv.CountOk, PcOk, AllAnswered, OneOutstanding, Fds, OnePlace;
    assert ConnOk(j.s, fd);
  }

  /** The state after a read by the polling thread, about to poll again. */
  function Visited(s: Protocol.State, fd: Fd, v: Verdict): Protocol.State
    requires fd in s.conns
  {
    if v.Failed? then Arm(SetConn(s, fd, s.conns[fd].(flag := true)), fd, WRITE, RESPOND) else s
  }

  /** ... and read. */
  lemma TakeStep(j: Joint, fd: Fd, b: seq<byte>)
    requires fd in j.s.conns && fd in j.io && 0 < |b| <= READ_MAX && fd != j.s.listener && j.s.pc == Ready
    requires j.s.batch == [Fired(fd, READ)] && Look(j.s, fd).mask.p
    ensures var (next, v) := Receive(j.io[fd], b);
            var e := Step(Take(Told(v)), b);
            && Possible(j, e) && (Guarded(j.s, e.a) <==> !(v.Done? && j.s.conns[fd].flag))
            && (!v.Done? ==>
                  var t := Next(j, e);
                  var rest := if v.Failed? then [GO, GO] else [GO];
                  && t.io == j.io[fd := next]
                  && Run(t, rest) && RunEnabled(t.s, Actions(rest)) && GuardedRun(t.s, Actions(rest))
                  && End(t, rest) == Joint(Visited(j.s.(batch := []), fd, v), t.io))
  {
    hide Receive;
    var (next, v) := Receive(j.io[fd], b);
    var e := Step(Take(Told(v)), b);
    if !v.Done? {
      var t := Next(j, e);
      assert j.s.batch[1..] == [];
      RunOne(t, GO);
      if v.Failed? {
        RunOne(Next(t, GO), GO);
        GuardedAppend(t, [GO], [GO]);
        RunAppend(t, [GO], [GO]);
      }
    }
  }

  lemma RunTwo(j: Joint, e: Step, f: Step)
    requires Possible(j, e) && Possible(Next(j, e), f)
    ensures Run(j, [e, f]) && End(j, [e, f]) == Next(Next(j, e), f) && RunEnabled(j.s, Actions([e, f]))
    ensures GuardedRun(j.s, Actions([e, f])) <==> Guarded(j.s, e.a) && Guarded(Next(j, e).s, f.a)
  {
    hide Possible, Guarded, Enabled, Do, NextIo, Run, End, GuardedRun, RunEnabled, Actions;
    RunOne(j, e);
    RunOne(Next(j, e), f);
    GuardedAppend(j, [e], [f]);
    RunAppend(j, [e], [f]);
    assert [e] + [f] == [e, f];
  }

  /** A command of `fd` is complete, and nothing was done about it yet. */
  ghost function Taken(j: Joint, fd: Fd, next: Io): Joint
    requires fd in j.s.conns
  {
    var c := j.s.conns[fd];
    Joint(j.s.(batch := [], conns := j.s.conns[fd := c.(current := Some(c.complete), complete := c.complete + 1)],
               pc := Got(Fired(fd, Mask(true, false, true)))),
          j.io[fd := next])
  }

  lemma CompleteStep(j: Joint, fd: Fd, b: seq<byte>)
    requires fd in j.s.conns && fd in j.io && 0 < |b| <= READ_MAX && fd != j.s.listener && j.s.pc == Ready
    requires j.s.batch == [Fired(fd, READ)] && Look(j.s, fd).mask.p && Receive(j.io[fd], b).1.Done?
    ensures var e := Step(Take(Outcome.Complete), b);
            Possible(j, e) && Next(j, e) == Taken(j, fd, Receive(j.io[fd], b).0)
  {
    hide Receive;
    assert j.s.batch[1..] == [];
  }

  /** Such a poll breaks ownership exactly when it completes a command on a flagged connection. */
  lemma VisitRun(j: Joint, fd: Fd, b: seq<byte>)
    requires Waits(j, fd) && 0 < |b| <= READ_MAX
    ensures var (next, v) := Receive(j.io[fd], b);
            var x := Visit(j.io[fd], fd, b);
            && Run(j, x) && RunEnabled(j.s, Actions(x))
            && (GuardedRun(j.s, Actions(x)) <==> !(v.Done? && j.s.conns[fd].flag))
            && (!v.Done? ==> Waits(End(j, x), fd) && End(j, x).io[fd] == next
                             && End(j, x).s.conns[fd].flag == (j.s.conns[fd].flag || v.Failed?))
            && (!v.Done? ==> End(j, x) == Joint(Visited(j.s, fd, v), j.io[fd := next]))
            && (v.Done? ==> End(j, x) == Taken(j, fd, next))
  {
    hide Receive, Inv, Possible, Enabled, Guarded;
    var (next, v) := Receive(j.io[fd], b);
    var p, e := Step(Poll([Fired(fd, READ)]), []), Step(Take(Told(v)), b);
    PollStep(j, fd);
    TakeStep(Next(j, p), fd, b);
    RunTwo(j, p, e);
    RunIsRun(j, [p, e]);
    var rest := if v.Done? then [] else if v.Failed? then [GO, GO] else [GO];
    assert Visit(j.io[fd], fd, b) == [p, e] + rest;
    if v.Done? {
      assert [p, e] + [] == [p, e];
      CompleteStep(Next(j, p), fd, b);
    } else {
      GuardedAppend(j, [p, e], rest);
      RunAppend(j, [p, e], rest);
      RunIsRun(j, [p, e] + rest);
      RunKeeps(j.s, Actions([p, e] + rest));
    }
  }

  /** Reads of one connection, as long as no command is complete: a command comes after a fault. */
  predicate Breaks(io: Io, flag: bool, chunks: seq<seq<byte>>)
    requires Reads(chunks)
    decreases |chunks|
  {
    chunks != [] &&
    var (next, v) := Receive(io, chunks[0]);
    if v.Done? then flag else Breaks(next, flag || v.Failed?, chunks[1..])
  }

  lemma {:induction false} VisitsRun(j: Joint, fd: Fd, chunks: seq<seq<byte>>)
    requires Waits(j, fd) && Bounded(chunks)
    ensures var x := Visits(j.io[fd], fd, chunks);
            && Run(j, x) && RunEnabled(j.s, Actions(x))
            && (GuardedRun(j.s, Actions(x)) <==> !Breaks(j.io[fd], j.s.conns[fd].flag, chunks))
    decreases |chunks|
  {
    hide Receive, Inv, Look, Visit, Run, End, RunEnabled, GuardedRun, Actions;
    if chunks == [] {
      NoSteps(j);
    } else {
      var io, b := j.io[fd], chunks[0];
      var (next, v) := Receive(io, b);
      VisitRun(j, fd, b);
      if v.Done? {
        assert Visit(io, fd, b) + [] == Visit(io, fd, b);
      } else {
        var t := End(j, Visit(io, fd, b));
        VisitsRun(t, fd, chunks[1..]);
        GuardedAppend(j, Visit(io, fd, b), Visits(next, fd, chunks[1..]));
      }
    }
  }

  lemma NoSteps(j: Joint)
    ensures Run(j, []) && End(j, []) == j && Actions([]) == [] && RunEnabled(j.s, []) && GuardedRun(j.s, [])
  {
  }

  lemma {:induction false} BreaksIffFinishes(io: Io, chunks: seq<seq<byte>>)
    requires Reads(chunks)
    ensures Breaks(io, true, chunks) <==> Finishes(io, chunks)
    decreases |chunks|
  {
    hide Receive;
    if chunks != [] { BreaksIffFinishes(Receive(io, chunks[0]).0, chunks[1..]); }
  }

  /** A run in which some connection has two owners. */
  ghost predicate Loses(j: Joint, steps: seq<Step>)
  {
    Run(j, steps) && RunEnabled(j.s, Actions(steps)) && !OwnedThroughout(j.s, Actions(steps))
  }

  /** A run from the start in which every fault so far was final, and then a read `b` that reports a fault:
      later reads of the same connection can give it two owners if and only if this fault is not final. */
  lemma FaultBreaksIff(listener: Fd, steps: seq<Step>, fd: Fd, b: seq<byte>)
    requires Run(Start(listener), steps) && AllFinal(Start(listener), steps)
    requires Waits(End(Start(listener), steps), fd)
    requires 0 < |b| <= READ_MAX && Receive(End(Start(listener), steps).io[fd], b).1.Failed?
    ensures var io := End(Start(listener), steps).io[fd];
            !Final(Receive(io, b).0)
            <==> exists chunks :: Bounded([b] + chunks)
                                  && Loses(Start(listener), steps + Visits(io, fd, [b] + chunks))
  {
    hide Receive, Look, Visits, Run, End, RunEnabled, GuardedRun, OwnedThroughout, Actions;
    hide IoOk, Final, Inv, Init, AllFinal;
    var start := Start(listener);
    var j := End(start, steps);
    var t := Receive(j.io[fd], b).0;
    StartOk(listener);
    FinalRunIsGuarded(start, steps);
    FinalIff(j.io[fd], b);
    forall chunks | Bounded([b] + chunks)
      ensures Bounded(chunks)
      ensures Loses(start, steps + Visits(j.io[fd], fd, [b] + chunks)) <==> Finishes(t, chunks)
    {
      var x := Visits(j.io[fd], fd, [b] + chunks);
      AfterFault(j, fd, b, chunks);
      GuardedAppend(start, steps, x);
      OwnershipIff(start.s, Actions(steps + x));
    }
    if !Doomed(t) {
      var chunks :| Bounded(chunks) && Finishes(t, chunks);
      BoundedCons(b, chunks);
    }
  }

  /** The reads after a fault: ownership is kept exactly when they complete no command. */
  lemma AfterFault(j: Joint, fd: Fd, b: seq<byte>, chunks: seq<seq<byte>>)
    requires Waits(j, fd) && Bounded([b] + chunks) && b != [] && Receive(j.io[fd], b).1.Failed?
    ensures var x := Visits(j.io[fd], fd, [b] + chunks);
            && Run(j, x) && RunEnabled(j.s, Actions(x)) && Bounded(chunks)
            && (GuardedRun(j.s, Actions(x)) <==> !Finishes(Receive(j.io[fd], b).0, chunks))
  {
    hide Receive, Visits, Run, RunEnabled, GuardedRun, Actions, Inv;
    var all := [b] + chunks;
    assert all[0] == b && all[1..] == chunks;
    forall i | 0 <= i < |chunks| ensures 0 < |chunks[i]| <= READ_MAX { assert all[i + 1] == chunks[i]; }
    VisitsRun(j, fd, all);
    BreaksIffFinishes(Receive(j.io[fd], b).0, chunks);
  }

  // ---------- such a run ----------

  /** Listener 3 has accepted connection 4. */
  const ACCEPTED: Protocol.State :=
    Init(3).(reg := map[3 := Event(RP, ACCEPT, 0, 0), 4 := Event(RP, RECEIVE, 0, 0)],
             conns := map[4 := Conn(0, false, None, 0, [])], connections := 1, accepted := 1)

  const ACCEPTING: seq<Step> := [Step(Poll([Fired(3, READ)]), []), Step(Take(Opened(4)), []), GO, GO, GO]

  /** An accepted connection is armed and counted. */
  lemma ArmAndCount(j: Joint, f: Fired, fd: Fd)
    requires j.s.pc == Accepted(f, fd) && !f.mask.w
    ensures Run(j, [GO, GO] + [GO])
    ensures var s := Arm(j.s, fd, RP, RECEIVE);
            End(j, [GO, GO] + [GO]) == Joint(s.(pc := Ready, connections := s.connections + 1), j.io)
  {
    hide Run, End, Pollable, Fits, DoTake, DoWrite;
    RunTwo(j, GO, GO);
    RunOne(Next(Next(j, GO), GO), GO);
    RunAppend(j, [GO, GO], [GO]);
  }

  lemma AcceptRun()
    ensures Run(Start(3), ACCEPTING) && End(Start(3), ACCEPTING) == Joint(ACCEPTED, map[4 := NEW])
  {
    hide Run, End, DoMain;
    var j, f := Start(3), Fired(3, Mask(true, false, true));
    var p, t := ACCEPTING[0], ACCEPTING[1];
    assert Possible(j, p) && Possible(Next(j, p), t);
    var k := Next(Next(j, p), t);
    RunTwo(j, p, t);
    ArmAndCount(k, f, 4);
    RunAppend(j, [p, t], [GO, GO] + [GO]);
    assert ACCEPTING == [p, t] + ([GO, GO] + [GO]);
  }

  lemma AcceptedWaits()
    ensures Waits(Joint(ACCEPTED, map[4 := NEW]), 4)
  {
  }

  /** "*2" in one read; one argument and a line that is no length in the next: the fault is not final, and
      whatever comes then completes the command, with the argument twice, while the error reply is unsent. */
  lemma FlaggedCompletionReachable(body: seq<byte>, m: seq<byte>) returns (chunks: seq<seq<byte>>)
    requires body != [] && |Whole(ItemOf(body))| + 3 <= READ_MAX && 0 < |m| <= READ_MAX
    ensures chunks == [Head(STAR, Print(2)), Whole(ItemOf(body)) + ([88] + CRLF), m]
    ensures Bounded(chunks) && Loses(Start(3), ACCEPTING + Visits(NEW, 4, chunks))
  {
    hide Receive, Look, Visits, Run, End, RunEnabled, GuardedRun, OwnedThroughout, Actions, Inv, Init, Bulks, Head;
    hide Whole, Breaks, Print, Possible;
    var head, line := Head(STAR, Print(2)), Whole(ItemOf(body)) + ([88] + CRLF);
    chunks := [head, line, m];
    var j := Joint(ACCEPTED, map[4 := NEW]);
    SmallHead();
    AcceptRun();
    AcceptedWaits();
    InitOk(3);
    ReadsOfTheRun(body, m);
    VisitsRun(j, 4, chunks);
    var x := Visits(NEW, 4, chunks);
    GuardedAppend(Start(3), ACCEPTING, x);
    OwnershipIff(Init(3), Actions(ACCEPTING + x));
  }

  lemma SmallHead()
    ensures 0 < |Head(STAR, Print(2))| <= READ_MAX
  {
    TwentyDigits(2);
  }

  /** A read that wants more, one that fails, and one that completes a command. */
  lemma ThreeReads(a: seq<byte>, b: seq<byte>, c: seq<byte>)
    requires a != [] && b != [] && c != []
    requires var (x, v) := Receive(NEW, a);
             var (y, w) := Receive(x, b);
             Unfinished(v) && w.Failed? && Receive(y, c).1.Done?
    ensures Breaks(NEW, false, [a, b, c])
  {
    hide Receive;
    assert [a, b, c][1..] == [b, c] && [b, c][1..] == [c];
    var x := Receive(NEW, a).0;
    assert Breaks(Receive(x, b).0, true, [c]);
    assert Breaks(x, false, [b, c]);
  }

  /** The first read leaves two bulks to come. */
  lemma FirstRead()
    ensures Head(STAR, Print(2)) != []
    ensures var (next, v) := Receive(NEW, Head(STAR, Print(2)));
            next == Io(FRESH.(nbulk := 2), [], true) && Unfinished(v)
  {
    hide Head, Print, Pass, KeptAsWritten;
    CountOfTwo();
    assert [] + Head(STAR, Print(2)) == Head(STAR, Print(2));
  }

  /** The second takes one of them and fails; the third takes it again. */
  lemma SecondRead(body: seq<byte>, m: seq<byte>)
    requires 0 < |body| <= MAX_COMMAND_LEN_LIMIT && m != []
    ensures var line := Whole(ItemOf(body)) + ([88] + CRLF);
            var failed := Io(FRESH.(nbulk := 1, argv := [body]), line, true);
            && Receive(Io(FRESH.(nbulk := 2), [], true), line) == (failed, Failed(NoDollar))
            && Receive(failed, m).1.Done?
  {
    hide Whole, Pass, KeptAsWritten;
    var line := Whole(ItemOf(body)) + ([88] + CRLF);
    ReplayedArgument(body, m);
    assert [] + line == line;
  }

  lemma ReadsOfTheRun(body: seq<byte>, m: seq<byte>)
    requires body != [] && |Whole(ItemOf(body))| + 3 <= READ_MAX && 0 < |m| <= READ_MAX
    ensures Head(STAR, Print(2)) != []
    ensures Breaks(NEW, false, [Head(STAR, Print(2)), Whole(ItemOf(body)) + ([88] + CRLF), m])
  {
    assert |body| <= |Whole(ItemOf(body))|;
    hide Whole, Head, Print, Breaks, Receive;
    var head, line := Head(STAR, Print(2)), Whole(ItemOf(body)) + ([88] + CRLF);
    FirstRead();
    SecondRead(body, m);
    ThreeReads(head, line, m);
  }
}
