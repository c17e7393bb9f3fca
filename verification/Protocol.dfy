/** The hand-off of connections between the polling thread and any number of workers.
    One action is one region that the code keeps atomic: a lock-protected change of the registry
    or of the queue, or work on a connection that only its owner touches.  Everything else
    interleaves freely. */
module Protocol {
  import opened Options
  import opened Events

  type Fd = nat
  type Worker = nat

  /** The handlers: tcp_accept_event_proc, read_event_proc, write_event_proc, cio_close_destroy. */
  const ACCEPT := 1
  const RECEIVE := 2
  const RESPOND := 3
  const DESTROY := 4

  /** A connection.  `current` is the command in argv; `replies` lists the commands
      answered, in the order in which their replies were armed. */
  datatype Conn = Conn(id: nat, flag: bool, current: Option<nat>, complete: nat, replies: seq<Option<nat>>)

  /** Where the polling thread stands between two atomic regions. */
  datatype Pc =
    | Ready                          // next record, or poll
    | Got(f: Fired)                  // read_proc returned 0: READ is to be disarmed
    | Disarmed(f: Fired)             // the record is to be pushed
    | Tail(f: Fired)                 // the write half of the record is to be looked at
    | Protest(f: Fired)              // an error reply was written: WRITE is to be armed
    | Hangup(f: Fired, back: bool)   // cio_close_destroy is to be installed for WRITE
    | Hung(f: Fired, back: bool)     // READ is to be disarmed for good
    | Rearm(f: Fired)                // reply sent: READ is to be armed
    | Rearmed(f: Fired)              // WRITE is to be disarmed
    | Accepted(f: Fired, fd: Fd)     // a new connection is to be armed
    | Installed(f: Fired, fd: Fd)    // ... and counted
    | Unhooked(fd: Fd)               // a dying connection is to be uncounted
    | Uncounted(fd: Fd)              // ... and closed

  datatype State = State(
    listener: Fd,
    reg: map<Fd, Event>,             // absent means a zeroed entry
    conns: map<Fd, Conn>,
    queue: seq<Fired>,               // fired_queue from the left end
    held: map<Worker, Fired>,
    pc: Pc,
    batch: seq<Fired>,               // records of this poll not yet looked at
    connections: int,
    accepted: nat,                   // ids given out so far
    destroyed: seq<nat>)             // ids of closed connections

  /** What a read proc may do. */
  datatype Outcome =
    | More                           // read_event_proc returned 1
    | Complete                       // ... returned 0: a whole command is in argv
    | Bad                            // ... returned -1 after a protocol error reply
    | Gone                           // ... returned -1: end of file or error
    | Refused                        // accept failed
    | Opened(fd: Fd)                 // accept returned a new descriptor

  datatype Action =
    | Poll(records: seq<Fired>)
    | Take(outcome: Outcome)
    | Main(sent: bool)               // the next region of the polling thread; `sent` is false when write failed
    | Pop(w: Worker)
    | Reply(w: Worker, quit: bool)   // the command body, which ends by arming one reply

  const RP := Mask(true, false, true)
  const WP := Mask(false, true, true)
  const RWP := Mask(true, true, true)

  function Look(s: State, fd: Fd): Event
  {
    if fd in s.reg then s.reg[fd] else Event(NONE, 0, 0, 0)
  }

  function Arm(s: State, fd: Fd, m: Mask, proc: int): State
  {
    s.(reg := s.reg[fd := Added(Look(s, fd), m, proc, 0)])
  }

  function Disarm(s: State, fd: Fd, m: Mask): State
  {
    s.(reg := s.reg[fd := Look(s, fd).(mask := Minus(Look(s, fd).mask, m))])
  }

  function SetConn(s: State, fd: Fd, c: Conn): State { s.(conns := s.conns[fd := c]) }

  function Goto(s: State, pc: Pc): State { s.(pc := pc) }

  /** `cio_clear`. */
  function Cleared(c: Conn): Conn { c.(flag := false, current := None) }

  // ---------- the transitions ----------

  /** One record per descriptor, with bits that are armed. */
  predicate Pollable(s: State, records: seq<Fired>)
  {
    && (forall i, j :: 0 <= i < j < |records| ==> records[i].fd != records[j].fd)
    && forall f :: f in records ==> Look(s, f.fd).mask != NONE && Within(f.mask, Look(s, f.fd).mask) && !f.mask.p
  }

  predicate Fits(s: State, f: Fired, outcome: Outcome)
  {
    if f.fd == s.listener then
      || outcome.Refused?
      || (outcome.Opened? && outcome.fd < MAX_EVENTS && outcome.fd != s.listener && outcome.fd !in s.conns)
    else
      f.fd in s.conns && (outcome.More? || outcome.Complete? || outcome.Bad? || outcome.Gone?)
  }

  predicate Enabled(s: State, a: Action)
  {
    match a
    case Poll(records) => s.pc == Ready && s.batch == [] && Pollable(s, records)
    case Take(outcome) =>
      s.pc == Ready && s.batch != [] && Fits(s, s.batch[0], outcome) && Look(s, s.batch[0].fd).mask.p
    case Main(_) => s.pc != Ready && (s.pc.Tail? && s.pc.f.mask.w ==> s.pc.f.fd in s.conns)
    case Pop(w) => w !in s.held && s.queue != []
    case Reply(w, _) => w in s.held && s.held[w].fd in s.conns
  }

  /** Look at the first record: call its read proc if READ fired. */
  function DoTake(s: State, outcome: Outcome): State
    requires Enabled(s, Take(outcome))
  {
    var f := s.batch[0].(mask := Or(s.batch[0].mask, PERSIST));
    var t := s.(batch := s.batch[1..]);
    if !f.mask.r then Goto(t, Tail(f))
    else
      match outcome
      case More => Goto(t, Tail(f))
      case Refused => Goto(t, Tail(f))
      case Opened(fd) =>
        Goto(SetConn(t, fd, Conn(s.accepted, false, None, 0, [])), Accepted(f, fd)).(accepted := s.accepted + 1)
      case Complete =>
        var c := s.conns[f.fd];
        Goto(SetConn(t, f.fd, c.(current := Some(c.complete), complete := c.complete + 1)), Got(f))
      case Bad => Goto(SetConn(t, f.fd, s.conns[f.fd].(flag := true)), Protest(f))
      case Gone => if s.conns[f.fd].flag then Goto(t, Tail(f)) else Goto(t, Hangup(f, true))
  }

  /** `write_event_proc`, or the destruction of a closing connection. */
  function DoWrite(s: State, f: Fired, sent: bool): State
    requires f.fd in s.conns
  {
    if Look(s, f.fd).writeProc == DESTROY then
      Goto(Disarm(s, f.fd, RWP), Unhooked(f.fd))
    else
      var c := s.conns[f.fd];
      Goto(SetConn(s, f.fd, Cleared(c)), if sent && !c.flag then Rearm(f) else Hangup(f, false))
  }

  function DoMain(s: State, sent: bool): State
    requires Enabled(s, Main(sent))
  {
    match s.pc
    case Ready => s
    case Got(f) => Goto(Disarm(s, f.fd, READ), Disarmed(f))
    case Disarmed(f) => Goto(s.(queue := [f] + s.queue), Tail(f))
    case Tail(f) => if Look(s, f.fd).mask != NONE && f.mask.w then DoWrite(s, f, sent) else Goto(s, Ready)
    case Protest(f) => Goto(Arm(s, f.fd, WRITE, RESPOND), Tail(f))
    case Hangup(f, back) => Goto(Arm(s, f.fd, WP, DESTROY), Hung(f, back))
    case Hung(f, back) => Goto(Disarm(s, f.fd, READ), if back then Tail(f) else Ready)
    case Rearm(f) => Goto(Arm(s, f.fd, RP, RECEIVE), Rearmed(f))
    case Rearmed(f) => Goto(Disarm(s, f.fd, WRITE), Ready)
    case Accepted(f, fd) => Goto(Arm(s, fd, RP, RECEIVE), Installed(f, fd))
    case Installed(f, fd) => Goto(s, Tail(f)).(connections := s.connections + 1)
    case Unhooked(fd) => Goto(s, Uncounted(fd)).(connections := s.connections - 1)
    case Uncounted(fd) =>
      if fd in s.conns then
        Goto(s, Ready).(conns := s.conns - {fd}, destroyed := s.destroyed + [s.conns[fd].id])
      else Goto(s, Ready)
  }

  function Do(s: State, a: Action): State
    requires Enabled(s, a)
  {
    match a
    case Poll(records) => s.(batch := records)
    case Take(outcome) => DoTake(s, outcome)
    case Main(sent) => DoMain(s, sent)
    case Pop(w) => s.(held := s.held[w := s.queue[|s.queue| - 1]], queue := s.queue[..|s.queue| - 1])
    case Reply(w, quit) =>
      var fd := s.held[w].fd;
      var c := s.conns[fd];
      Arm(SetConn(s, fd, c.(flag := c.flag || quit, replies := c.replies + [c.current])), fd, WRITE, RESPOND)
        .(held := s.held - {w})
  }

  function Init(listener: Fd): State
  {
    State(listener, map[listener := Event(RP, ACCEPT, 0, 0)], map[], [], map[], Ready, [], 0, 0, [])
  }
}
