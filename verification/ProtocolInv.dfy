/** The invariant of the hand-off protocol, kept by every action of every interleaving. */
module ProtocolInv {
  import opened Options
  import opened Events
  import opened Protocol

  ghost function Fds(records: seq<Fired>): set<Fd> { set f | f in records :: f.fd }

  ghost function HeldFds(held: map<Worker, Fired>): set<Fd> { set w | w in held :: held[w].fd }

  /** Queued or held. */
  ghost predicate Busy(s: State, fd: Fd) { fd in Fds(s.queue) || fd in HeldFds(s.held) }

  /** No descriptor stands twice in the queue, is held twice, or is both queued and held. */
  ghost predicate OnePlace(s: State)
  {
    && (forall i, j :: 0 <= i < j < |s.queue| ==> s.queue[i].fd != s.queue[j].fd)
    && (forall v, w :: v in s.held && w in s.held && v != w ==> s.held[v].fd != s.held[w].fd)
    && Fds(s.queue) !! HeldFds(s.held)
  }

  /** The connection that the polling thread is in the middle of moving. */
  function Moving(pc: Pc): Option<Fd>
  {
    match pc
    case Ready => None
    case Tail(_) => None
    case Accepted(_, fd) => Some(fd)
    case Installed(_, fd) => Some(fd)
    case Unhooked(fd) => Some(fd)
    case Uncounted(fd) => Some(fd)
    case _ => Some(pc.f.fd)
  }

  // ---------- one connection ----------

  /** Commands read and replies armed, in step. */
  ghost predicate AllAnswered(c: Conn)
  {
    |c.replies| == c.complete && forall k :: 0 <= k < |c.replies| ==> c.replies[k] == Some(k)
  }

  /** All but the last command are answered, and the last one is in argv. */
  ghost predicate OneOutstanding(c: Conn)
  {
    && c.complete == |c.replies| + 1 && c.current == Some(|c.replies|) && !c.flag
    && forall k :: 0 <= k < |c.replies| ==> c.replies[k] == Some(k)
  }

  /** A connection that waits for the poll: for a command, to send a reply (also after an
      error, with READ still armed), or to be closed. */
  ghost predicate Idle(c: Conn, e: Event)
  {
    && AllAnswered(c)
    && ((e.mask == RP && !c.flag) || (e.mask == WP && (c.flag ==> e.writeProc == RESPOND))
        || (e.mask == RWP && e.writeProc == RESPOND && c.flag))
  }

  ghost predicate Away(c: Conn, e: Event) { OneOutstanding(c) && e.mask == PERSIST }

  /** A connection in the middle of a transition of the polling thread. */
  ghost predicate InMotion(pc: Pc, c: Conn, e: Event)
  {
    match pc
    case Ready => false
    case Tail(_) => false
    case Got(_) => OneOutstanding(c) && e.mask == RP
    case Disarmed(_) => Away(c, e)
    case Protest(_) => AllAnswered(c) && c.flag && (e.mask == RP || (e.mask == RWP && e.writeProc == RESPOND))
    case Hangup(_, _) => AllAnswered(c) && !c.flag && (e.mask == RP || e.mask == WP || e.mask == RWP)
    case Hung(_, _) => AllAnswered(c) && !c.flag && (e.mask == WP || e.mask == RWP) && e.writeProc == DESTROY
    case Rearm(_) => AllAnswered(c) && !c.flag && e.mask == WP
    case Rearmed(_) => AllAnswered(c) && !c.flag && e.mask == RWP
    case Accepted(_, _) => AllAnswered(c) && !c.flag && e.mask == NONE
    case Installed(_, _) => AllAnswered(c) && !c.flag && e.mask == RP
    case Unhooked(_) => AllAnswered(c) && e.mask == NONE
    case Uncounted(_) => AllAnswered(c) && e.mask == NONE
  }

  ghost predicate ConnOk(s: State, fd: Fd)
    requires fd in s.conns
  {
    if Busy(s, fd) then Away(s.conns[fd], Look(s, fd))
    else if Moving(s.pc) == Some(fd) then InMotion(s.pc, s.conns[fd], Look(s, fd))
    else Idle(s.conns[fd], Look(s, fd))
  }

  // ---------- the whole state ----------

  ghost predicate PlacesOk(s: State)
  {
    && OnePlace(s)
    && (forall fd :: Busy(s, fd) ==> fd in s.conns)
    && (forall f :: f in s.queue ==> f.mask.p)
    && (forall w :: w in s.held ==> s.held[w].mask.p)
    && s.listener !in s.conns && Look(s, s.listener) == Event(RP, ACCEPT, 0, 0)
    && (forall fd :: fd !in s.conns && fd != s.listener ==> Look(s, fd).mask == NONE)
    && (Moving(s.pc).Some? ==> Moving(s.pc).value in s.conns && !Busy(s, Moving(s.pc).value))
  }

  /** Records not yet looked at stay true: their descriptors are with the polling thread. */
  ghost predicate BatchOk(s: State)
  {
    && (forall i, j :: 0 <= i < j < |s.batch| ==> s.batch[i].fd != s.batch[j].fd)
    && (forall f :: f in s.batch ==> f.fd == s.listener || f.fd in s.conns)
    && (forall f :: f in s.batch ==> Within(f.mask, Look(s, f.fd).mask) && !f.mask.p)
    && (forall f :: f in s.batch && (f.mask.r || f.mask.w) ==> !Busy(s, f.fd))
    && (forall f :: f in s.batch ==> Moving(s.pc) != Some(f.fd))
  }

  /** The current record came from a connection on which WRITE was not armed. */
  predicate ReadOnly(pc: Pc)
  {
    match pc
    case Got(_) => true
    case Disarmed(_) => true
    case Hangup(_, back) => back
    case Hung(_, back) => back
    case _ => false
  }

  /** If the write half of the current record fired, its connection is still with the polling thread. */
  ghost predicate PcOk(s: State)
  {
    match s.pc
    case Ready => true
    case Unhooked(fd) => fd !in Fds(s.batch)
    case Uncounted(fd) => fd !in Fds(s.batch)
    case pc =>
      && pc.f.mask.p && pc.f.fd !in Fds(s.batch)
      && (pc.Accepted? || pc.Installed? ==> pc.f.fd == s.listener && !pc.f.mask.w)
      && (ReadOnly(pc) ==> !pc.f.mask.w)
      && ((pc.Tail? || pc.Protest?) && pc.f.mask.w ==>
            pc.f.fd in s.conns && !Busy(s, pc.f.fd) && Look(s, pc.f.fd).mask.w)
  }

  /** Connections accepted but not yet counted, or uncounted but not yet closed. */
  function InTransit(pc: Pc): int
  {
    if pc.Accepted? || pc.Installed? || pc.Uncounted? then 1 else 0
  }

  ghost predicate CountOk(s: State)
  {
    && s.connections == |s.conns| - InTransit(s.pc)
    && |s.destroyed| + |s.conns| == s.accepted
    && (forall fd :: fd in s.conns ==> s.conns[fd].id < s.accepted && s.conns[fd].id !in s.destroyed)
    && (forall fd, fe :: fd in s.conns && fe in s.conns && fd != fe ==> s.conns[fd].id != s.conns[fe].id)
    && (forall i, j :: 0 <= i < j < |s.destroyed| ==> s.destroyed[i] != s.destroyed[j])
    && (forall id :: id in s.destroyed ==> id < s.accepted)
  }

  ghost predicate ConnsOk(s: State) { forall fd :: fd in s.conns ==> ConnOk(s, fd) }

  ghost predicate Inv(s: State)
  {
    PlacesOk(s) && BatchOk(s) && PcOk(s) && CountOk(s) && ConnsOk(s)
  }

  /** The assumption on clients: a connection that is being closed after an error
      does not complete another command. */
  predicate Guarded(s: State, a: Action)
  {
    a == Take(Complete) && s.batch != [] && s.batch[0].mask.r && s.batch[0].fd in s.conns ==>
      !s.conns[s.batch[0].fd].flag
  }

  lemma InitOk(listener: Fd)
    ensures Inv(Init(listener))
  {
  }

  lemma PollKeeps(s: State, records: seq<Fired>)
    requires Inv(s) && Enabled(s, Poll(records))
    ensures Inv(Do(s, Poll(records)))
  {
    var t := Do(s, Poll(records));
    assert CountOk(t) by { SameCounts(s, t); }
    assert PlacesOk(t) by { hide ConnsOk, Pollable, CountOk, Fds, HeldFds; }
    assert ConnsOk(t) by {
      hide PlacesOk, Pollable, Idle, Away, InMotion, Busy;
      forall fd | fd in t.conns ensures ConnOk(t, fd) { assert ConnOk(s, fd); }
    }
    assert BatchOk(t) by {
      hide CountOk, Idle, InMotion, OnePlace, Fds, HeldFds;
      forall f | f in t.batch
        ensures f.fd == s.listener || f.fd in s.conns
        ensures f.mask.r || f.mask.w ==> !Busy(s, f.fd)
      {
        if Busy(s, f.fd) { assert ConnOk(s, f.fd); }
      }
    }
  }

  // ---------- steps that touch one connection ----------

  /** `t` differs from `s` at most in connection `x`, its registry entry, and the thread's position. */
  ghost predicate Local(s: State, t: State, x: Fd)
  {
    && t.queue == s.queue && t.held == s.held && t.listener == s.listener
    && t.accepted == s.accepted && t.destroyed == s.destroyed
    && t.connections + InTransit(t.pc) == s.connections + InTransit(s.pc)
    && x in s.conns && !Busy(s, x) && t.conns.Keys == s.conns.Keys && t.conns[x].id == s.conns[x].id
    && (forall fd :: fd in s.conns && fd != x ==> t.conns[fd] == s.conns[fd])
    && (forall fd :: fd != x ==> Look(t, fd) == Look(s, fd))
    && (Moving(s.pc) == None || Moving(s.pc) == Some(x))
    && (Moving(t.pc) == None || Moving(t.pc) == Some(x))
    && if Moving(t.pc) == Some(x) then InMotion(t.pc, t.conns[x], Look(t, x)) else Idle(t.conns[x], Look(t, x))
  }

  lemma LocalPlaces(s: State, t: State, x: Fd)
    requires PlacesOk(s) && ConnsOk(s) && Local(s, t, x)
    ensures PlacesOk(t)
  {
    hide Idle, InMotion, Away, Fds, HeldFds, ConnsOk;
  }

  lemma LocalConns(s: State, t: State, x: Fd)
    requires PlacesOk(s) && ConnsOk(s) && Local(s, t, x)
    ensures ConnsOk(t)
  {
    hide Idle, InMotion, Away, Fds, HeldFds, PlacesOk;
    forall fd | fd in t.conns ensures ConnOk(t, fd) { assert ConnOk(s, fd); }
  }

  lemma LocalKeeps(s: State, t: State, x: Fd)
    requires Inv(s) && Local(s, t, x)
    ensures PlacesOk(t) && CountOk(t) && ConnsOk(t)
  {
    hide PlacesOk, ConnsOk, CountOk, Local;
    LocalPlaces(s, t, x);
    LocalCounts(s, t, x);
    LocalConns(s, t, x);
  }

  lemma LocalCounts(s: State, t: State, x: Fd)
    requires CountOk(s) && Local(s, t, x)
    ensures CountOk(t)
  {
    hide Idle, InMotion, Away, Fds, HeldFds;
    assert |t.conns| == |t.conns.Keys| == |s.conns.Keys| == |s.conns|;
    assert forall fd :: fd in t.conns ==> t.conns[fd].id == s.conns[fd].id;
  }

  /** Remaining records are not disturbed by what happens to another connection. */
  lemma LocalBatch(s: State, t: State, x: Fd)
    requires Inv(s) && Local(s, t, x) && x !in Fds(t.batch)
    requires t.batch == s.batch || (s.batch != [] && t.batch == s.batch[1..])
    ensures BatchOk(t)
  {
    hide Idle, InMotion, Away, HeldFds, Fds, PlacesOk, CountOk, ConnsOk, PcOk;
    forall f | f in t.batch ensures f in s.batch && f.fd != x {
      InFds(t.batch, f);
    }
  }

  lemma InFds(q: seq<Fired>, f: Fired)
    requires f in q
    ensures f.fd in Fds(q)
  {
  }

  lemma MovingOk(s: State, x: Fd)
    requires Inv(s) && Moving(s.pc) == Some(x)
    ensures x in s.conns && !Busy(s, x) && InMotion(s.pc, s.conns[x], Look(s, x))
  {
    assert ConnOk(s, x);
  }

  lemma IdleOk(s: State, x: Fd)
    requires Inv(s) && x in s.conns && !Busy(s, x) && Moving(s.pc) != Some(x)
    ensures Idle(s.conns[x], Look(s, x))
  {
    assert ConnOk(s, x);
  }

  // ---------- the polling thread takes a record ----------

  lemma FdsHead(q: seq<Fired>)
    requires q != [] && forall i, j :: 0 <= i < j < |q| ==> q[i].fd != q[j].fd
    ensures Fds(q[1..]) == Fds(q) - {q[0].fd}
  {
    assert q[0] in q;
  }

  /** A record of a connection whose READ fired: the connection is with the polling thread. */
  lemma TakeRead(s: State, outcome: Outcome)
    requires Inv(s) && Enabled(s, Take(outcome)) && Guarded(s, Take(outcome))
    requires s.batch[0].mask.r && s.batch[0].fd != s.listener
    ensures Inv(Do(s, Take(outcome)))
  {
    hide PlacesOk, ConnsOk, CountOk, Fds, Busy;
    var t, f := Do(s, Take(outcome)), s.batch[0];
    assert f in s.batch && Within(f.mask, Look(s, f.fd).mask);
    FdsHead(s.batch);
    IdleOk(s, f.fd);
    assert Local(s, t, f.fd);
    LocalKeeps(s, t, f.fd);
    LocalBatch(s, t, f.fd);
    BusyOnly(s, t, f.fd);
    assert PcOk(t) by { hide BatchOk; }
  }

  /** Same connections and registry: only the batch and the position move on. */
  lemma TakeNothing(s: State, t: State, f: Fired)
    requires Inv(s) && s.batch != [] && s.pc == Ready && f == s.batch[0].(mask := Or(s.batch[0].mask, PERSIST))
    requires t == s.(batch := s.batch[1..], pc := Tail(f)) && (f.mask.r ==> f.fd == s.listener)
    ensures Inv(t)
  {
    hide CountOk, Fds, HeldFds, Idle, Away;
    FdsHead(s.batch);
    assert s.batch[0] in s.batch;
    assert CountOk(t) by { SameCounts(s, t); }
    assert forall g :: g in t.batch ==> g in s.batch;
    assert PlacesOk(t) by { hide BatchOk, PcOk, ConnsOk; }
    assert BatchOk(t) by { hide PlacesOk, PcOk, ConnsOk; }
    assert PcOk(t) by { hide OnePlace, ConnsOk; }
    assert ConnsOk(t) by {
      hide PlacesOk, BatchOk, PcOk, Busy, InMotion;
      forall fd | fd in t.conns ensures ConnOk(t, fd) { assert ConnOk(s, fd); }
    }
  }

  lemma SameCounts(s: State, t: State)
    requires CountOk(s) && t.conns == s.conns && t.accepted == s.accepted && t.destroyed == s.destroyed
    requires t.connections + InTransit(t.pc) == s.connections + InTransit(s.pc)
    ensures CountOk(t)
  {
  }

  /** `x` was accepted: the state before the new connection is armed. */
  ghost predicate Joined(s: State, t: State, x: Fd)
  {
    && s.pc == Ready && s.batch != [] && x !in s.conns && x != s.listener && s.batch[0].fd == s.listener
    && t == s.(batch := s.batch[1..], conns := s.conns[x := Conn(s.accepted, false, None, 0, [])],
               accepted := s.accepted + 1, pc := Accepted(s.batch[0].(mask := Or(s.batch[0].mask, PERSIST)), x))
  }

  lemma OpenedPlaces(s: State, t: State, x: Fd)
    requires PlacesOk(s) && Joined(s, t, x)
    ensures PlacesOk(t) && !Busy(s, x) && Look(s, x).mask == NONE
  {
    hide Fds, HeldFds;
  }

  lemma OpenedConns(s: State, t: State, x: Fd)
    requires PlacesOk(s) && ConnsOk(s) && Joined(s, t, x)
    ensures ConnsOk(t)
  {
    hide Fds, HeldFds, OnePlace, Idle, Away;
    forall fd | fd in t.conns ensures ConnOk(t, fd) { if fd != x { assert ConnOk(s, fd); } }
  }

  lemma OpenedBatch(s: State, t: State, x: Fd)
    requires PlacesOk(s) && BatchOk(s) && Joined(s, t, x)
    ensures BatchOk(t)
  {
    hide Fds, HeldFds, OnePlace;
    assert forall f :: f in t.batch ==> f in s.batch;
  }

  /** accept: the descriptor was free, so it has no entry, no record and no place. */
  lemma TakeOpened(s: State, x: Fd)
    requires Inv(s) && Enabled(s, Take(Opened(x))) && s.batch[0].mask.r && s.batch[0].fd == s.listener
    ensures Inv(Do(s, Take(Opened(x))))
  {
    hide Fds, PlacesOk, ConnsOk, CountOk, Within, Busy;
    var t := Do(s, Take(Opened(x)));
    assert Joined(s, t, x);
    hide Joined;
    OpenedPlaces(s, t, x);
    OpenedConns(s, t, x);
    OpenedBatch(s, t, x);
    OpenedCounts(s, t, x);
    OpenedRecord(s, t, x);
  }

  lemma OpenedRecord(s: State, t: State, x: Fd)
    requires PlacesOk(s) && BatchOk(s) && Joined(s, t, x)
    ensures PcOk(t)
  {
    hide HeldFds, OnePlace, Busy;
    FdsHead(s.batch);
    assert s.batch[0] in s.batch;
  }

  lemma OpenedCounts(s: State, t: State, x: Fd)
    requires CountOk(s) && Joined(s, t, x)
    ensures CountOk(t)
  {
    hide Look, Or;
    assert |t.conns| == |s.conns| + 1 by {
      assert t.conns.Keys == s.conns.Keys + {x};
      assert |t.conns| == |t.conns.Keys| && |s.conns| == |s.conns.Keys|;
    }
    assert forall fd :: fd in t.conns ==> t.conns[fd].id == if fd == x then s.accepted else s.conns[fd].id;
  }

  lemma TakeKeeps(s: State, outcome: Outcome)
    requires Inv(s) && Enabled(s, Take(outcome)) && Guarded(s, Take(outcome))
    ensures Inv(Do(s, Take(outcome)))
  {
    hide Inv;
    var f := s.batch[0].(mask := Or(s.batch[0].mask, PERSIST));
    if f.mask.r && f.fd != s.listener {
      TakeRead(s, outcome);
    } else if f.mask.r && outcome.Opened? {
      TakeOpened(s, outcome.fd);
    } else {
      TakeNothing(s, Do(s, Take(outcome)), f);
    }
  }

  // ---------- the other regions of the polling thread ----------

  /** The read half of a record, after `read_proc`. */
  lemma MainRead(s: State, sent: bool)
    requires Inv(s) && (s.pc.Got? || s.pc.Protest? || s.pc.Hangup? || s.pc.Hung? || s.pc.Rearm? || s.pc.Rearmed?)
    ensures Inv(Do(s, Main(sent)))
  {
    hide PlacesOk, BatchOk, ConnsOk, CountOk, Fds, Busy, AllAnswered;
    var t, x := Do(s, Main(sent)), s.pc.f.fd;
    MovingOk(s, x);
    assert Local(s, t, x);
    LocalKeeps(s, t, x);
    LocalBatch(s, t, x);
    BusyOnly(s, t, x);
    assert PcOk(t);
  }

  /** The record is pushed: the connection changes hands with READ and WRITE disarmed. */
  lemma MainPush(s: State, sent: bool)
    requires Inv(s) && s.pc.Disarmed?
    ensures Inv(Do(s, Main(sent)))
  {
    hide CountOk, HeldFds, Idle, Away, Fds;
    var t, f := Do(s, Main(sent)), s.pc.f;
    assert CountOk(t) by { SameCounts(s, t); }
    FdsPush(f, s.queue);
    assert ConnOk(s, f.fd);
    forall i, j | 0 <= i < j < |t.queue| ensures t.queue[i].fd != t.queue[j].fd {
      InFds(s.queue, s.queue[j - 1]);
    }
    forall fd | fd in t.conns ensures ConnOk(t, fd) { assert ConnOk(s, fd); }
    assert forall f :: f in t.batch ==> f in s.batch;
    forall g | g in s.batch ensures g.fd != f.fd { InFds(s.batch, g); }
  }

  lemma FdsPush(f: Fired, q: seq<Fired>)
    ensures Fds([f] + q) == Fds(q) + {f.fd}
  {
    assert f in [f] + q;
    forall g | g in q ensures g in [f] + q {}
  }

  /** The write half of a record. */
  lemma MainTail(s: State, sent: bool)
    requires Inv(s) && Enabled(s, Main(sent)) && s.pc.Tail?
    ensures Inv(Do(s, Main(sent)))
  {
    if Look(s, s.pc.f.fd).mask != NONE && s.pc.f.mask.w {
      MainWrite(s, sent);
    } else {
      MainNothing(s, Do(s, Main(sent)));
    }
  }

  lemma MainNothing(s: State, t: State)
    requires Inv(s) && s.pc.Tail? && t == s.(pc := Ready)
    ensures Inv(t)
  {
    hide CountOk, Fds, HeldFds, Idle, Away, InMotion;
    assert CountOk(t) by { SameCounts(s, t); }
    forall fd | fd in t.conns ensures ConnOk(t, fd) { assert ConnOk(s, fd); }
  }

  lemma MainWrite(s: State, sent: bool)
    requires Inv(s) && Enabled(s, Main(sent)) && s.pc.Tail? && Look(s, s.pc.f.fd).mask != NONE && s.pc.f.mask.w
    ensures Inv(Do(s, Main(sent)))
  {
    hide PlacesOk, BatchOk, ConnsOk, CountOk, Fds, Busy;
    var t, f := Do(s, Main(sent)), s.pc.f;
    IdleOk(s, f.fd);
    assert Local(s, t, f.fd);
    LocalKeeps(s, t, f.fd);
    LocalBatch(s, t, f.fd);
    assert PcOk(t);
  }

  lemma BusyOnly(s: State, t: State, x: Fd)
    requires t.queue == s.queue && t.held == s.held
    ensures Busy(t, x) <==> Busy(s, x)
  {
  }

  /** Arming and counting a new connection, and uncounting a dying one. */
  lemma MainCount(s: State, sent: bool)
    requires Inv(s) && (s.pc.Accepted? || s.pc.Installed? || s.pc.Unhooked?)
    ensures Inv(Do(s, Main(sent)))
  {
    hide PlacesOk, ConnsOk, CountOk, Fds, Busy, AllAnswered;
    var t, x := Do(s, Main(sent)), s.pc.fd;
    MovingOk(s, x);
    assert Local(s, t, x);
    LocalKeeps(s, t, x);
    forall f | f in s.batch ensures f.fd != x { InFds(s.batch, f); }
    assert x !in Fds(t.batch) by { NotInFds(t.batch, x); }
    LocalBatch(s, t, x);
    assert PcOk(t);
  }

  lemma NotInFds(q: seq<Fired>, x: Fd)
    requires forall f :: f in q ==> f.fd != x
    ensures x !in Fds(q)
  {
  }

  /** A connection is closed: its mask is NONE and nobody else knows it. */
  lemma MainClose(s: State, sent: bool)
    requires Inv(s) && s.pc.Uncounted?
    ensures Inv(Do(s, Main(sent)))
  {
    hide CountOk, Fds, HeldFds, Idle, Away;
    var t, x := Do(s, Main(sent)), s.pc.fd;
    assert ConnOk(s, x);
    assert CountOk(t) by { ClosedCounts(s, t, x); }
    forall fd | fd in t.conns ensures ConnOk(t, fd) { assert ConnOk(s, fd); }
    forall f | f in s.batch ensures f.fd != x { InFds(s.batch, f); }
  }

  lemma ClosedCounts(s: State, t: State, x: Fd)
    requires CountOk(s) && x in s.conns && s.pc == Uncounted(x)
    requires t.pc == Ready && t.conns == s.conns - {x} && t.destroyed == s.destroyed + [s.conns[x].id]
    requires t.connections == s.connections && t.accepted == s.accepted
    ensures CountOk(t)
  {
    assert t.conns.Keys == s.conns.Keys - {x};
    assert |t.conns| == |t.conns.Keys| && |s.conns| == |s.conns.Keys|;
  }

  lemma MainKeeps(s: State, sent: bool)
    requires Inv(s) && Enabled(s, Main(sent))
    ensures Inv(Do(s, Main(sent)))
  {
    hide Inv;
    match s.pc
    case Disarmed(_) => MainPush(s, sent);
    case Tail(_) => MainTail(s, sent);
    case Accepted(_, _) => MainCount(s, sent);
    case Installed(_, _) => MainCount(s, sent);
    case Unhooked(_) => MainCount(s, sent);
    case Uncounted(_) => MainClose(s, sent);
    case _ => MainRead(s, sent);
  }

  // ---------- the workers ----------

  lemma FdsLast(q: seq<Fired>)
    requires q != [] && forall i, j :: 0 <= i < j < |q| ==> q[i].fd != q[j].fd
    ensures Fds(q[..|q| - 1]) == Fds(q) - {q[|q| - 1].fd}
  {
    assert q[|q| - 1] in q;
    assert q == q[..|q| - 1] + [q[|q| - 1]];
  }

  lemma PopKeeps(s: State, w: Worker)
    requires Inv(s) && Enabled(s, Pop(w))
    ensures Inv(Do(s, Pop(w)))
  {
    hide CountOk, Fds, HeldFds, Idle, Away, InMotion;
    var t, f := Do(s, Pop(w)), s.queue[|s.queue| - 1];
    assert t == s.(held := s.held[w := f], queue := s.queue[..|s.queue| - 1]);
    hide Do, Look;
    assert CountOk(t) by { SameCounts(s, t); }
    FdsLast(s.queue);
    HeldMore(s.held, w, f);
    InFds(s.queue, f);
    assert forall fd :: Busy(t, fd) <==> Busy(s, fd);
    forall v | v in s.held ensures s.held[v].fd != f.fd { InHeld(s.held, v); }
    forall fd | fd in t.conns ensures ConnOk(t, fd) { assert ConnOk(s, fd); }
  }

  lemma HeldMore(h: map<Worker, Fired>, w: Worker, f: Fired)
    requires w !in h
    ensures HeldFds(h[w := f]) == HeldFds(h) + {f.fd}
  {
    var g := h[w := f];
    assert g[w] == f;
    forall v | v in h ensures h[v].fd in HeldFds(g) { assert g[v] == h[v]; }
  }

  lemma InHeld(h: map<Worker, Fired>, v: Worker)
    requires v in h
    ensures h[v].fd in HeldFds(h)
  {
  }

  lemma HeldLess(h: map<Worker, Fired>, w: Worker)
    requires w in h && forall v, u :: v in h && u in h && v != u ==> h[v].fd != h[u].fd
    ensures HeldFds(h - {w}) == HeldFds(h) - {h[w].fd}
  {
    var g := h - {w};
    forall v | v in g ensures h[v].fd in HeldFds(h) && h[v].fd != h[w].fd { assert g[v] == h[v]; }
    forall v | v in h && v != w ensures h[v].fd in HeldFds(g) { assert g[v] == h[v]; }
  }

  /** `t` is `s` after connection `x` has been given back to the polling thread. */
  ghost predicate Returned(s: State, t: State, x: Fd)
  {
    && t.queue == s.queue && t.pc == s.pc && t.batch == s.batch && t.listener == s.listener
    && x in s.conns && t.conns.Keys == s.conns.Keys
    && (forall v :: v in t.held ==> v in s.held && t.held[v] == s.held[v])
    && (forall fd :: Busy(t, fd) <==> Busy(s, fd) && fd != x)
    && (forall fd :: fd != x ==> Look(t, fd) == Look(s, fd))
    && (forall fd :: fd in s.conns && fd != x ==> t.conns[fd] == s.conns[fd])
    && Busy(s, x) && Idle(t.conns[x], Look(t, x))
  }

  lemma ReplyPlaces(s: State, t: State, x: Fd)
    requires PlacesOk(s) && Returned(s, t, x) && Fds(t.queue) !! HeldFds(t.held)
    ensures PlacesOk(t)
  {
    hide Idle, Fds, HeldFds;
  }

  lemma ReplyBatch(s: State, t: State, x: Fd)
    requires BatchOk(s) && PcOk(s) && Returned(s, t, x) && PlacesOk(s)
    ensures BatchOk(t) && PcOk(t)
  {
    hide Idle, Fds, HeldFds, Busy, OnePlace;
    forall f | f in t.batch ensures f.fd == x ==> !f.mask.r && !f.mask.w {}
  }

  lemma ReplyConns(s: State, t: State, x: Fd)
    requires ConnsOk(s) && Returned(s, t, x) && PlacesOk(s)
    ensures ConnsOk(t)
  {
    hide Idle, Away, InMotion, Busy, OnePlace;
    forall fd | fd in t.conns ensures ConnOk(t, fd) { assert ConnOk(s, fd); }
  }

  /** What a reply changes, and nothing else. */
  lemma ReplyState(s: State, w: Worker, quit: bool)
    requires Enabled(s, Reply(w, quit))
    ensures var t, x := Do(s, Reply(w, quit)), s.held[w].fd;
            var c := s.conns[x];
            && t.queue == s.queue && t.pc == s.pc && t.batch == s.batch && t.listener == s.listener
            && t.connections == s.connections && t.accepted == s.accepted && t.destroyed == s.destroyed
            && t.held == s.held - {w}
            && t.conns == s.conns[x := c.(flag := c.flag || quit, replies := c.replies + [c.current])]
            && (forall fd :: fd != x ==> Look(t, fd) == Look(s, fd))
            && Look(t, x).mask == Or(Look(s, x).mask, WRITE) && Look(t, x).writeProc == RESPOND
  {
  }

  lemma ReplyReturns(s: State, w: Worker, quit: bool)
    requires PlacesOk(s) && ConnsOk(s) && Enabled(s, Reply(w, quit))
    ensures var t := Do(s, Reply(w, quit));
            Returned(s, t, s.held[w].fd) && Fds(t.queue) !! HeldFds(t.held)
  {
    hide Fds, HeldFds, InMotion, Idle, Do, Look;
    var t, x := Do(s, Reply(w, quit)), s.held[w].fd;
    ReplyState(s, w, quit);
    InHeld(s.held, w);
    HeldLess(s.held, w);
    assert ConnOk(s, x);
    ReplyIdle(s.conns[x], Look(s, x), quit, t.conns[x], Look(t, x));
  }

  /** A reply: the connection is given back to the polling thread by arming WRITE. */
  lemma ReplyKeeps(s: State, w: Worker, quit: bool)
    requires Inv(s) && Enabled(s, Reply(w, quit))
    ensures Inv(Do(s, Reply(w, quit)))
  {
    hide PlacesOk, BatchOk, PcOk, CountOk, ConnsOk, Returned, Fds, HeldFds, Do, Look, Busy;
    var t, x := Do(s, Reply(w, quit)), s.held[w].fd;
    ReplyState(s, w, quit);
    ReplyCounts(s, t, x);
    ReplyReturns(s, w, quit);
    ReplyPlaces(s, t, x);
    ReplyBatch(s, t, x);
    ReplyConns(s, t, x);
  }

  lemma ReplyIdle(c: Conn, e: Event, quit: bool, d: Conn, g: Event)
    requires Away(c, e) && d == c.(flag := c.flag || quit, replies := c.replies + [c.current])
    requires g.mask == Or(e.mask, WRITE) && g.writeProc == RESPOND
    ensures Idle(d, g)
  {
  }

  lemma ReplyCounts(s: State, t: State, x: Fd)
    requires CountOk(s) && x in s.conns && t.pc == s.pc && t.conns.Keys == s.conns.Keys
    requires t.destroyed == s.destroyed && t.connections == s.connections && t.accepted == s.accepted
    requires forall fd :: fd in s.conns ==> t.conns[fd].id == s.conns[fd].id
    ensures CountOk(t)
  {
    assert |t.conns| == |t.conns.Keys| && |s.conns| == |s.conns.Keys|;
  }

  lemma StepKeeps(s: State, a: Action)
    requires Inv(s) && Enabled(s, a) && Guarded(s, a)
    ensures Inv(Do(s, a))
  {
    hide Inv, Enabled, Guarded;
    match a
    case Poll(records) => PollKeeps(s, records);
    case Take(outcome) => TakeKeeps(s, outcome);
    case Main(sent) => MainKeeps(s, sent);
    case Pop(w) => PopKeeps(s, w);
    case Reply(w, quit) => ReplyKeeps(s, w, quit);
  }
}
