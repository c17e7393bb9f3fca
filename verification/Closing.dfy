/** How connections are served and closed: what the polling thread's regions lead to, with any steps of
    the workers in between. */
module Closing {
  import opened Options
  import opened Events
  import opened Protocol
  import opened ProtocolInv
  import opened ProtocolRuns

  /** Steps that let the polling thread finish the record in hand; workers may come between. */
  predicate Finishing(acts: seq<Action>)
  {
    forall i :: 0 <= i < |acts| ==> acts[i].Main? || acts[i].Pop? || acts[i].Reply?
  }

  // ---------- the polling thread comes back ----------

  /** How many regions are left before the polling thread is ready. */
  function Left(pc: Pc): nat
  {
    match pc
    case Ready => 0
    case Tail(f) => if f.mask.w then 4 else 1
    case Got(_) => 3
    case Disarmed(_) => 2
    case Protest(f) => if f.mask.w then 5 else 2
    case Hangup(_, back) => if back then 3 else 2
    case Hung(_, back) => if back then 2 else 1
    case Rearm(_) => 2
    case Rearmed(_) => 1
    case Accepted(_, _) => 3
    case Installed(_, _) => 2
    case Unhooked(_) => 2
    case Uncounted(_) => 1
  }

  /** Every region brings the polling thread nearer to its next record. */
  lemma RegionsEnd(s: State, sent: bool)
    requires Inv(s) && s.pc != Ready
    ensures Enabled(s, Main(sent)) && Left(Do(s, Main(sent)).pc) < Left(s.pc) <= 5
  {
    hide PlacesOk, BatchOk, CountOk, ConnsOk, Busy, Fds, Arm, Disarm;
  }

  function Mains(n: nat): (acts: seq<Action>)
    ensures Finishing(acts)
  {
    if n == 0 then [] else [Main(true)] + Mains(n - 1)
  }

  lemma {:induction false} ReadyAgain(s: State) returns (acts: seq<Action>)
    requires Inv(s)
    ensures Finishing(acts) && |acts| <= Left(s.pc) <= 5 && RunEnabled(s, acts) && After(s, acts).pc == Ready
    decreases Left(s.pc)
  {
    hide Inv, Enabled, Do;
    if s.pc == Ready {
      acts := [];
    } else {
      var m := Main(true);
      RegionsEnd(s, true);
      StepKeeps(s, m);
      var rest := ReadyAgain(Do(s, m));
      acts := [m] + rest;
      assert acts[1..] == rest;
    }
  }

  // ---------- connections on their way ----------

  /** What will have become of a connection when the polling thread is ready again. */
  datatype Fate = Serves | Protests | Dies | Ends | Stays(c: Conn, e: Event) | Handed(n: nat)

  /** Connection `id` is on its way to `fate`, or has come there. */
  ghost predicate Bound(s: State, fd: Fd, id: nat, fate: Fate)
  {
    if fd in s.conns && s.conns[fd].id == id then OnWay(s, fd, fate) && (fate.Handed? || !Busy(s, fd))
    else fate.Ends? && id in s.destroyed
  }

  ghost predicate OnWay(s: State, fd: Fd, fate: Fate)
    requires fd in s.conns
  {
    var c, e, moving := s.conns[fd], Look(s, fd), Moving(s.pc) == Some(fd);
    match fate
    case Serves =>
      !c.flag && if moving then
                   || s.pc.Accepted? || s.pc.Rearm? || ((s.pc.Installed? || s.pc.Rearmed?) && e.readProc == 2)
                 else e.mask == Mask(true, false, true) && e.readProc == 2
    case Protests => c.flag && if moving then s.pc.Protest? else e.mask == Mask(true, true, true) && e.writeProc == 3
    case Dies => if moving then s.pc.Hangup? || s.pc.Hung? else e.mask == Mask(false, true, true) && e.writeProc == 4
    case Ends => moving && (s.pc.Unhooked? || s.pc.Uncounted?)
    case Stays(d, g) => !moving && c == d && e == g
    case Handed(n) =>
      c.complete == n && if moving then s.pc.Got? || s.pc.Disarmed?
                         else Busy(s, fd) || (|c.replies| == n && e.mask == Mask(false, true, true) && e.writeProc == 3)
  }

  /** A region touches one connection only: the one it moves, or whose write half it does. */
  lemma RegionElsewhere(s: State, sent: bool, fd: Fd)
    requires Enabled(s, Main(sent)) && Moving(s.pc) != Some(fd)
    requires s.pc.Tail? && s.pc.f.fd == fd ==> !s.pc.f.mask.w
    ensures var t := Do(s, Main(sent));
            && Look(t, fd) == Look(s, fd) && Moving(t.pc) != Some(fd) && s.destroyed <= t.destroyed
            && (fd in t.conns <==> fd in s.conns) && (fd in s.conns ==> t.conns[fd] == s.conns[fd])
  {
    hide Added, Minus, Cleared;
  }

  lemma RegionMoves(s: State, sent: bool, fd: Fd, fate: Fate)
    requires Inv(s) && Enabled(s, Main(sent)) && Moving(s.pc) == Some(fd) && fd in s.conns && OnWay(s, fd, fate)
    ensures var t := Do(s, Main(sent));
            if fd in t.conns then t.conns[fd].id == s.conns[fd].id && OnWay(t, fd, fate)
            else fate.Ends? && s.conns[fd].id in t.destroyed
    ensures s.pc.Disarmed? ==> fate.Handed?
  {
    hide PlacesOk, BatchOk, CountOk, PcOk, ConnsOk, AllAnswered, OneOutstanding, Busy;
    MovingOk(s, fd);
    BusyAfter(s, sent, fd);
  }

  lemma FateKeptMain(s: State, sent: bool, fd: Fd, id: nat, fate: Fate)
    requires Inv(s) && Enabled(s, Main(sent)) && Bound(s, fd, id, fate)
    requires s.pc.Tail? && s.pc.f.fd == fd ==> !s.pc.f.mask.w
    ensures Bound(Do(s, Main(sent)), fd, id, fate)
  {
    hide Inv, Do, Busy, Look, Enabled;
    BusyAfter(s, sent, fd);
    RegionIds(s, sent);
    if fd in s.conns && s.conns[fd].id == id {
      if Moving(s.pc) == Some(fd) { RegionMoves(s, sent, fd, fate); } else { RegionElsewhere(s, sent, fd); }
    }
  }

  /** Regions give out no ids, and forget none that was destroyed. */
  lemma RegionIds(s: State, sent: bool)
    requires Enabled(s, Main(sent))
    ensures var t := Do(s, Main(sent));
            && s.destroyed <= t.destroyed
            && forall fd :: fd in t.conns ==> fd in s.conns && t.conns[fd].id == s.conns[fd].id
  {
    if s.pc.Tail? {
      WriteIds(s, sent);
    } else {
      hide Look, Added, Minus, DoWrite;
    }
  }

  lemma WriteIds(s: State, sent: bool)
    requires Enabled(s, Main(sent)) && s.pc.Tail?
    ensures var t := Do(s, Main(sent));
            && s.destroyed == t.destroyed
            && forall fd :: fd in t.conns ==> fd in s.conns && t.conns[fd].id == s.conns[fd].id
  {
    hide Look, Added, Minus;
  }

  /** Only the push makes a connection busy. */
  lemma BusyAfter(s: State, sent: bool, fd: Fd)
    requires Enabled(s, Main(sent))
    ensures Busy(Do(s, Main(sent)), fd) <==> Busy(s, fd) || (s.pc.Disarmed? && s.pc.f.fd == fd)
  {
    if s.pc.Disarmed? { FdsPush(s.pc.f, s.queue); }
  }

  lemma FateKeptPop(s: State, w: Worker, fd: Fd, id: nat, fate: Fate)
    requires Inv(s) && Enabled(s, Pop(w)) && Bound(s, fd, id, fate)
    ensures Bound(Do(s, Pop(w)), fd, id, fate)
  {
    hide Fds, HeldFds, CountOk, BatchOk, PcOk, ConnsOk;
    FdsLast(s.queue);
    HeldMore(s.held, w, s.queue[|s.queue| - 1]);
    InFds(s.queue, s.queue[|s.queue| - 1]);
  }

  lemma FateKeptReply(s: State, w: Worker, quit: bool, fd: Fd, id: nat, fate: Fate)
    requires Inv(s) && Enabled(s, Reply(w, quit)) && Bound(s, fd, id, fate)
    ensures Bound(Do(s, Reply(w, quit)), fd, id, fate)
  {
    hide Fds, HeldFds, CountOk, BatchOk, PcOk, ConnsOk, PlacesOk, Do, Look, Idle, Busy;
    ReplyState(s, w, quit);
    ReplyReturns(s, w, quit);
    if s.held[w].fd == fd { Replied(s, w, quit); }
  }

  lemma Replied(s: State, w: Worker, quit: bool)
    requires Inv(s) && Enabled(s, Reply(w, quit))
    ensures var t, fd := Do(s, Reply(w, quit)), s.held[w].fd;
            && Busy(s, fd) && Moving(s.pc) != Some(fd) && |t.conns[fd].replies| == t.conns[fd].complete
            && Look(t, fd).mask == Mask(false, true, true) && Look(t, fd).writeProc == 3
  {
    hide Fds, HeldFds, CountOk, BatchOk, PcOk, OnePlace, Do, Look;
    InHeld(s.held, w);
    ReplyState(s, w, quit);
    assert ConnOk(s, s.held[w].fd);
  }

  /** `fd` will not be written to before the polling thread is ready again. */
  predicate Past(s: State, fd: Fd)
  {
    match s.pc
    case Tail(f) => f.fd == fd ==> !f.mask.w
    case Protest(f) => f.fd == fd ==> !f.mask.w
    case _ => true
  }

  lemma PastKept(s: State, a: Action, fd: Fd)
    requires PcOk(s) && Enabled(s, a) && (a.Main? || a.Pop? || a.Reply?) && Past(s, fd)
    ensures Past(Do(s, a), fd)
  {
    hide Look, Added, Minus, Busy, Fds;
  }

  /** The polling thread, between two records, and the workers at any time leave a fate as it is. */
  lemma FateKept(s: State, a: Action, fd: Fd, id: nat, fate: Fate)
    requires Inv(s) && Enabled(s, a) && (a.Main? || a.Pop? || a.Reply?) && Bound(s, fd, id, fate) && Past(s, fd)
    ensures Bound(Do(s, a), fd, id, fate) && Inv(Do(s, a)) && Past(Do(s, a), fd)
  {
    PastKept(s, a, fd);
    hide Inv, Bound, Do, Enabled;
    StepKeeps(s, a);
    match a
    case Main(sent) => FateKeptMain(s, sent, fd, id, fate);
    case Pop(w) => FateKeptPop(s, w, fd, id, fate);
    case Reply(w, quit) => FateKeptReply(s, w, quit, fd, id, fate);
  }

  lemma {:induction false} FateOfRun(s: State, acts: seq<Action>, fd: Fd, id: nat, fate: Fate)
    requires Inv(s) && Finishing(acts) && RunEnabled(s, acts) && Bound(s, fd, id, fate) && Past(s, fd)
    ensures Bound(After(s, acts), fd, id, fate) && Inv(After(s, acts))
    decreases |acts|
  {
    hide Inv, Bound, Do, Enabled, Past;
    if acts != [] {
      FateKept(s, acts[0], fd, id, fate);
      FateOfRun(Do(s, acts[0]), acts[1..], fd, id, fate);
    }
  }

  // ---------- what a record leads to ----------

  /** Once the polling thread is ready, a fate is a registry entry, or the end of the connection. */
  lemma FateIs(s: State, fd: Fd, id: nat, fate: Fate)
    requires Bound(s, fd, id, fate) && s.pc == Ready
    ensures fate.Ends? <==> !(fd in s.conns && s.conns[fd].id == id)
    ensures fate.Ends? ==> id in s.destroyed
    ensures var e := Look(s, fd);
            && (fate.Serves? ==> e.mask == Mask(true, false, true) && e.readProc == 2 && !s.conns[fd].flag)
            && (fate.Protests? ==> e.mask == Mask(true, true, true) && e.writeProc == 3 && s.conns[fd].flag)
            && (fate.Dies? ==> e.mask == Mask(false, true, true) && e.writeProc == 4)
            && (fate.Stays? ==> e == fate.e && s.conns[fd] == fate.c)
            && (fate.Handed? ==>
                  && s.conns[fd].complete == fate.n
                  && (Busy(s, fd)
                      || (|s.conns[fd].replies| == fate.n && e.mask == Mask(false, true, true) && e.writeProc == 3)))
  {
  }

  /** The workers alone leave a connection that is with the polling thread as it is. */
  lemma {:induction false} WorkersLeave(s: State, acts: seq<Action>, fd: Fd, id: nat, fate: Fate)
    requires Inv(s) && RunEnabled(s, acts) && Bound(s, fd, id, fate)
    requires forall i :: 0 <= i < |acts| ==> acts[i].Pop? || acts[i].Reply?
    ensures var t := After(s, acts); t.pc == s.pc && t.batch == s.batch && Inv(t) && Bound(t, fd, id, fate)
    decreases |acts|
  {
    hide Inv, Bound, Enabled, Look;
    if acts != [] {
      StepKeeps(s, acts[0]);
      match acts[0] {
        case Pop(w) => FateKeptPop(s, w, fd, id, fate);
        case Reply(w, quit) => FateKeptReply(s, w, quit, fd, id, fate);
        case _ =>
      }
      WorkersLeave(Do(s, acts[0]), acts[1..], fd, id, fate);
    }
  }

  /** The write half of a record, which workers may delay.  The reply is sent to its end, or the
      connection is given up; a connection that was given up is closed. */
  lemma WriteRecord(s: State, before: seq<Action>, sent: bool, acts: seq<Action>)
    requires Inv(s) && s.pc.Tail? && s.pc.f.mask.w && s.pc.f.fd in s.conns
    requires RunEnabled(s, before) && forall i :: 0 <= i < |before| ==> before[i].Pop? || before[i].Reply?
    requires Enabled(After(s, before), Main(sent))
    requires Finishing(acts) && RunEnabled(Do(After(s, before), Main(sent)), acts)
    requires After(Do(After(s, before), Main(sent)), acts).pc == Ready
    ensures var t, fd := After(Do(After(s, before), Main(sent)), acts), s.pc.f.fd;
            var c, e := s.conns[fd], Look(t, fd);
            if Look(s, fd).writeProc == 4 then c.id in t.destroyed
            else fd in t.conns && t.conns[fd].id == c.id
                 && (e.mask == Mask(true, false, true) && e.readProc == 2 <==> sent && !c.flag)
                 && (e.mask == Mask(false, true, true) && e.writeProc == 4 <==> !(sent && !c.flag))
  {
    var fd, u := s.pc.f.fd, After(s, before);
    var c, e := s.conns[fd], Look(s, fd);
    assert Bound(s, fd, c.id, Stays(c, e)) by { hide BatchOk, CountOk, ConnsOk, OnePlace; }
    WorkersLeave(s, before, fd, c.id, Stays(c, e));
    assert fd in u.conns && u.conns[fd] == c && Look(u, fd) == e by { hide Inv; StillThere(u, fd, c, e); }
    var fate := if e.writeProc == 4 then Ends else if sent && !c.flag then Serves else Dies;
    WriteBegins(u, sent, fate);
    hide Inv, Bound, Do, Enabled, Past;
    StepKeeps(u, Main(sent));
    FateOfRun(Do(u, Main(sent)), acts, fd, c.id, fate);
    FateIs(After(Do(u, Main(sent)), acts), fd, c.id, fate);
  }

  lemma StillThere(s: State, fd: Fd, c: Conn, e: Event)
    requires Bound(s, fd, c.id, Stays(c, e))
    ensures fd in s.conns && s.conns[fd] == c && Look(s, fd) == e
  {
  }

  lemma WriteBegins(s: State, sent: bool, fate: Fate)
    requires Inv(s) && s.pc.Tail? && s.pc.f.mask.w && s.pc.f.fd in s.conns && Enabled(s, Main(sent))
    requires fate == if Look(s, s.pc.f.fd).writeProc == 4 then Ends
                     else if sent && !s.conns[s.pc.f.fd].flag then Serves else Dies
    ensures Bound(Do(s, Main(sent)), s.pc.f.fd, s.conns[s.pc.f.fd].id, fate) && Past(Do(s, Main(sent)), s.pc.f.fd)
  {
    hide BatchOk, CountOk, ConnsOk, OnePlace, Fds, HeldFds;
    BusyAfter(s, sent, s.pc.f.fd);
  }

  /** What a read of the first record leads to.  `new` is the descriptor that accept returned. */
  function ReadFate(s: State, outcome: Outcome): Option<Fate>
    requires s.batch != [] && s.batch[0].fd in s.conns
  {
    var c, e := s.conns[s.batch[0].fd], Look(s, s.batch[0].fd);
    match outcome
    case More => Some(Stays(c, e))
    case Complete => Some(Handed(c.complete + 1))
    case Bad => Some(Protests)
    case Gone => Some(if c.flag then Stays(c, e) else Dies)
    case _ => None
  }

  lemma ReadBegins(s: State, outcome: Outcome)
    requires Inv(s) && Enabled(s, Take(outcome)) && Guarded(s, Take(outcome))
    requires s.batch[0].mask == Mask(true, false, false) && s.batch[0].fd in s.conns
    ensures var fd, t := s.batch[0].fd, Do(s, Take(outcome));
            && ReadFate(s, outcome).Some? && Past(t, fd)
            && Bound(t, fd, s.conns[fd].id, ReadFate(s, outcome).value)
  {
    hide CountOk, AllAnswered, OneOutstanding, OnePlace, Fds, HeldFds;
    assert s.batch[0] in s.batch;
    assert ConnOk(s, s.batch[0].fd);
    var t, fd := Do(s, Take(outcome)), s.batch[0].fd;
    BusyOnly(s, t, fd);
  }

  /** A read record of a connection on which nothing fired but READ. */
  lemma ReadRecord(s: State, outcome: Outcome, acts: seq<Action>)
    requires Inv(s) && Enabled(s, Take(outcome)) && Guarded(s, Take(outcome))
    requires s.batch[0].mask == Mask(true, false, false) && s.batch[0].fd in s.conns
    requires Finishing(acts) && RunEnabled(Do(s, Take(outcome)), acts)
    requires After(Do(s, Take(outcome)), acts).pc == Ready
    ensures var t, fd := After(Do(s, Take(outcome)), acts), s.batch[0].fd;
            var c, e := s.conns[fd], Look(t, fd);
            && fd in t.conns && t.conns[fd].id == c.id
            && (outcome.More? || (outcome.Gone? && c.flag) ==> t.conns[fd] == c && e == Look(s, fd))
            && (outcome.Gone? && !c.flag ==> e.mask == Mask(false, true, true) && e.writeProc == 4)
            && (outcome.Bad? ==> t.conns[fd].flag && e.mask == Mask(true, true, true) && e.writeProc == 3)
            && (outcome.Complete? ==>
                  && t.conns[fd].complete == c.complete + 1
                  && (Busy(t, fd)
                      || (|t.conns[fd].replies| == c.complete + 1
                          && e.mask == Mask(false, true, true) && e.writeProc == 3)))
  {
    var fd, t := s.batch[0].fd, Do(s, Take(outcome));
    ReadBegins(s, outcome);
    hide Inv, Bound, Do, Enabled, Past, Guarded;
    StepKeeps(s, Take(outcome));
    FateOfRun(t, acts, fd, s.conns[fd].id, ReadFate(s, outcome).value);
    FateIs(After(t, acts), fd, s.conns[fd].id, ReadFate(s, outcome).value);
  }

  /** The write half of the record of a flagged connection is still to come, or behind. */
  ghost predicate Condemned(s: State, fd: Fd, id: nat)
  {
    || (Bound(s, fd, id, Dies) && Past(s, fd))
    || (fd in s.conns && Bound(s, fd, id, Protests)
        && (s.pc.Tail? || s.pc.Protest?) && s.pc.f.fd == fd && s.pc.f.mask.w)
  }

  lemma CondemnedKept(s: State, a: Action, fd: Fd, id: nat)
    requires Inv(s) && Enabled(s, a) && (a.Main? || a.Pop? || a.Reply?) && Condemned(s, fd, id)
    ensures Condemned(Do(s, a), fd, id) && Inv(Do(s, a))
  {
    hide Inv, Do, Enabled, Busy, Look;
    StepKeeps(s, a);
    if Bound(s, fd, id, Dies) && Past(s, fd) {
      FateKept(s, a, fd, id, Dies);
    } else {
      match a
      case Main(sent) =>
        if s.pc.Tail? {
          WriteBegins(s, sent, Dies);
        } else {
          FateKeptMain(s, sent, fd, id, Protests);
          AfterProtest(s, sent);
        }
      case Pop(w) =>
        FateKeptPop(s, w, fd, id, Protests);
        WorkersKeep(s, a);
      case Reply(w, quit) =>
        FateKeptReply(s, w, quit, fd, id, Protests);
        WorkersKeep(s, a);
    }
  }

  lemma WorkersKeep(s: State, a: Action)
    requires Enabled(s, a) && (a.Pop? || a.Reply?)
    ensures Do(s, a).pc == s.pc && Do(s, a).conns.Keys == s.conns.Keys
  {
  }

  lemma AfterProtest(s: State, sent: bool)
    requires s.pc.Protest?
    ensures var t := Do(s, Main(sent)); t.pc == Tail(s.pc.f) && t.conns == s.conns
  {
  }

  lemma {:induction false} CondemnedRun(s: State, acts: seq<Action>, fd: Fd, id: nat)
    requires Inv(s) && Finishing(acts) && RunEnabled(s, acts) && Condemned(s, fd, id)
    ensures Condemned(After(s, acts), fd, id)
    decreases |acts|
  {
    hide Inv, Condemned, Do, Enabled;
    if acts != [] {
      CondemnedKept(s, acts[0], fd, id);
      CondemnedRun(Do(s, acts[0]), acts[1..], fd, id);
    }
  }

  /** READ and WRITE both fired, which happens after a fault only: the connection is given up,
      whatever the read brings. */
  lemma BothRecord(s: State, outcome: Outcome, acts: seq<Action>)
    requires Inv(s) && Enabled(s, Take(outcome)) && Guarded(s, Take(outcome))
    requires s.batch[0].mask == Mask(true, true, false) && s.batch[0].fd in s.conns
    requires Finishing(acts) && RunEnabled(Do(s, Take(outcome)), acts)
    requires After(Do(s, Take(outcome)), acts).pc == Ready
    ensures var t, fd := After(Do(s, Take(outcome)), acts), s.batch[0].fd;
            && fd in t.conns && t.conns[fd].id == s.conns[fd].id
            && Look(t, fd).mask == Mask(false, true, true) && Look(t, fd).writeProc == 4
  {
    var fd, t := s.batch[0].fd, Do(s, Take(outcome));
    var id := s.conns[fd].id;
    BothBegins(s, outcome);
    hide Inv, Condemned, Do, Enabled, Guarded;
    StepKeeps(s, Take(outcome));
    CondemnedRun(t, acts, fd, id);
    CondemnedEnds(After(t, acts), fd, id);
  }

  lemma BothBegins(s: State, outcome: Outcome)
    requires Inv(s) && Enabled(s, Take(outcome)) && Guarded(s, Take(outcome))
    requires s.batch[0].mask == Mask(true, true, false) && s.batch[0].fd in s.conns
    ensures Condemned(Do(s, Take(outcome)), s.batch[0].fd, s.conns[s.batch[0].fd].id)
  {
    hide CountOk, AllAnswered, OneOutstanding, OnePlace, Fds, HeldFds;
    assert s.batch[0] in s.batch;
    assert ConnOk(s, s.batch[0].fd);
    BusyOnly(s, Do(s, Take(outcome)), s.batch[0].fd);
  }

  lemma CondemnedEnds(s: State, fd: Fd, id: nat)
    requires Condemned(s, fd, id) && s.pc == Ready
    ensures fd in s.conns && s.conns[fd].id == id
    ensures Look(s, fd).mask == Mask(false, true, true) && Look(s, fd).writeProc == 4
  {
  }

  /** A new connection: it waits for its first command. */
  lemma AcceptRecord(s: State, x: Fd, acts: seq<Action>)
    requires Inv(s) && Enabled(s, Take(Opened(x))) && s.batch[0].mask.r
    requires Finishing(acts) && RunEnabled(Do(s, Take(Opened(x))), acts)
    requires After(Do(s, Take(Opened(x))), acts).pc == Ready
    ensures var t := After(Do(s, Take(Opened(x))), acts);
            && x in t.conns && t.conns[x].id == s.accepted && !t.conns[x].flag
            && Look(t, x).mask == Mask(true, false, true) && Look(t, x).readProc == 2
  {
    var t := Do(s, Take(Opened(x)));
    assert Bound(t, x, s.accepted, Serves) && Past(t, x) by { hide BatchOk, CountOk, ConnsOk, OnePlace; }
    hide Inv, Bound, Do, Enabled, Past;
    StepKeeps(s, Take(Opened(x)));
    FateOfRun(t, acts, x, s.accepted, Serves);
    FateIs(After(t, acts), x, s.accepted, Serves);
  }

  // ---------- given up for good ----------

  /** The connection `id` is closed, or about to be: it never serves another command. */
  ghost predicate GivenUp(s: State, fd: Fd, id: nat)
  {
    id in s.destroyed || (fd in s.conns && s.conns[fd].id == id && (Bound(s, fd, id, Dies) || Bound(s, fd, id, Ends)))
  }

  lemma GivenUpTake(s: State, outcome: Outcome, fd: Fd, id: nat)
    requires Inv(s) && Enabled(s, Take(outcome)) && GivenUp(s, fd, id)
    ensures GivenUp(Do(s, Take(outcome)), fd, id)
  {
    hide CountOk, ConnsOk, PcOk, OnePlace, Fds, HeldFds;
    var t := Do(s, Take(outcome));
    assert s.batch[0] in s.batch;
    BusyOnly(s, t, fd);
  }

  lemma GivenUpMain(s: State, sent: bool, fd: Fd, id: nat)
    requires Inv(s) && Enabled(s, Main(sent)) && GivenUp(s, fd, id)
    ensures GivenUp(Do(s, Main(sent)), fd, id)
  {
    hide Inv, Do, Bound, Enabled;
    RegionIds(s, sent);
    if id !in s.destroyed {
      var fate := if Bound(s, fd, id, Dies) then Dies else Ends;
      if s.pc.Tail? && s.pc.f.fd == fd && s.pc.f.mask.w {
        DiesAtTail(s, fd, id, fate);
        WriteBegins(s, sent, Ends);
      } else {
        FateKeptMain(s, sent, fd, id, fate);
      }
      BoundEnds(Do(s, Main(sent)), fd, id);
    }
  }

  lemma DiesAtTail(s: State, fd: Fd, id: nat, fate: Fate)
    requires Bound(s, fd, id, fate) && (fate == Dies || fate == Ends) && s.pc.Tail? && id !in s.destroyed
    ensures fate == Dies && Look(s, fd).writeProc == 4
  {
  }

  lemma BoundEnds(s: State, fd: Fd, id: nat)
    requires Bound(s, fd, id, Dies) || Bound(s, fd, id, Ends)
    ensures GivenUp(s, fd, id)
  {
  }

  lemma GivenUpKept(s: State, a: Action, fd: Fd, id: nat)
    requires Inv(s) && Enabled(s, a) && GivenUp(s, fd, id)
    ensures GivenUp(Do(s, a), fd, id)
  {
    match a
    case Poll(_) =>
    case Take(outcome) => GivenUpTake(s, outcome, fd, id);
    case Main(sent) => GivenUpMain(s, sent, fd, id);
    case Pop(w) =>
      hide Inv;
      if id !in s.destroyed {
        FateKeptPop(s, w, fd, id, if Bound(s, fd, id, Dies) then Dies else Ends);
      }
    case Reply(w, quit) =>
      hide Inv;
      if id !in s.destroyed {
        FateKeptReply(s, w, quit, fd, id, if Bound(s, fd, id, Dies) then Dies else Ends);
      }
  }

  /** A connection that was given up is closed before it is ever served again: in every run its entry
      stays that of a dying connection until its id is among the destroyed. */
  lemma {:induction false} GivenUpForGood(s: State, acts: seq<Action>, fd: Fd, id: nat)
    requires Inv(s) && RunEnabled(s, acts) && GuardedRun(s, acts) && GivenUp(s, fd, id)
    ensures var t := After(s, acts);
            && GivenUp(t, fd, id)
            && (t.pc == Ready && id !in t.destroyed ==>
                  && fd in t.conns && t.conns[fd].id == id && !Busy(t, fd)
                  && Look(t, fd).mask == Mask(false, true, true) && Look(t, fd).writeProc == 4)
    decreases |acts|
  {
    hide Inv, Enabled, Do, Guarded;
    if acts != [] {
      GivenUpKept(s, acts[0], fd, id);
      StepKeeps(s, acts[0]);
      hide GivenUp;
      GivenUpForGood(Do(s, acts[0]), acts[1..], fd, id);
    }
  }

  // ---------- the handlers ----------

  /** An armed READ of a connection calls `read_event_proc`, and an armed WRITE `write_event_proc` or
      `cio_close_destroy`. */
  predicate HandlersOk(e: Event)
  {
    (e.mask.r ==> e.readProc == 2) && (e.mask.w ==> e.writeProc == 3 || e.writeProc == 4)
  }

  ghost predicate Handlers(s: State) { forall fd :: fd in s.conns ==> HandlersOk(Look(s, fd)) }

  lemma HandlersAdded(e: Event, m: Mask, proc: int)
    requires HandlersOk(e) && (m.r ==> proc == 2) && (m.w ==> proc == 3 || proc == 4)
    ensures HandlersOk(Added(e, m, proc, 0))
  {
  }

  /** The region arms the connection that it moves, or disarms the one whose write half it does. */
  lemma HandlersHere(s: State, sent: bool, fd: Fd)
    requires Enabled(s, Main(sent)) && HandlersOk(Look(s, fd))
    requires Moving(s.pc) == Some(fd) || (s.pc.Tail? && s.pc.f.fd == fd)
    ensures HandlersOk(Look(Do(s, Main(sent)), fd))
  {
    hide Busy, Added;
    var e := Look(s, fd);
    HandlersAdded(e, WRITE, RESPOND);
    HandlersAdded(e, WP, DESTROY);
    HandlersAdded(e, RP, RECEIVE);
  }

  lemma HandlersMain(s: State, sent: bool)
    requires Enabled(s, Main(sent)) && Handlers(s)
    ensures Handlers(Do(s, Main(sent)))
  {
    RegionIds(s, sent);
    hide Do, Look, HandlersOk, Enabled;
    var t := Do(s, Main(sent));
    forall fd | fd in t.conns ensures HandlersOk(Look(t, fd)) {
      assert HandlersOk(Look(s, fd));
      if Moving(s.pc) == Some(fd) || (s.pc.Tail? && s.pc.f.fd == fd) {
        HandlersHere(s, sent, fd);
      } else {
        RegionElsewhere(s, sent, fd);
      }
    }
  }

  lemma HandlersTake(s: State, outcome: Outcome)
    requires PlacesOk(s) && Enabled(s, Take(outcome)) && Handlers(s)
    ensures Handlers(Do(s, Take(outcome)))
  {
    hide OnePlace, Busy;
    var t := Do(s, Take(outcome));
    forall fd | fd in t.conns ensures HandlersOk(Look(t, fd)) {
      assert Look(t, fd) == Look(s, fd);
    }
  }

  lemma HandlersKept(s: State, a: Action)
    requires Inv(s) && Enabled(s, a) && Handlers(s)
    ensures Handlers(Do(s, a))
  {
    hide CountOk, BatchOk, PcOk, ConnsOk, OnePlace, Fds, HeldFds, Busy;
    match a
    case Main(sent) => HandlersMain(s, sent);
    case Take(outcome) => HandlersTake(s, outcome);
    case _ =>
  }

  lemma {:induction false} HandlersOfRun(s: State, acts: seq<Action>)
    requires Inv(s) && Handlers(s) && RunEnabled(s, acts) && GuardedRun(s, acts)
    ensures Handlers(After(s, acts))
    decreases |acts|
  {
    hide Inv, Enabled, Do, Guarded, Handlers;
    if acts != [] {
      HandlersKept(s, acts[0]);
      StepKeeps(s, acts[0]);
      HandlersOfRun(Do(s, acts[0]), acts[1..]);
    }
  }
}
