/** The event registry with its two backends.  `useEpoll` is the compile-time choice:
    a kernel interest set changed by ADD, MOD and DEL, or two descriptor sets for select. */
module Events {

  const MAX_EVENTS := 10240 * 20
  const J_ERR := -1

  /** CEV_READ, CEV_WRITE and CEV_PERSIST. */
  datatype Mask = Mask(r: bool, w: bool, p: bool)

  const NONE := Mask(false, false, false)
  const READ := Mask(true, false, false)
  const WRITE := Mask(false, true, false)
  const PERSIST := Mask(false, false, true)

  function Or(a: Mask, b: Mask): Mask { Mask(a.r || b.r, a.w || b.w, a.p || b.p) }

  function Minus(a: Mask, b: Mask): Mask { Mask(a.r && !b.r, a.w && !b.w, a.p && !b.p) }

  predicate Within(a: Mask, b: Mask) { (a.r ==> b.r) && (a.w ==> b.w) && (a.p ==> b.p) }

  /** Handlers and private data are only stored, so numbers stand for them. */
  datatype Event = Event(mask: Mask, readProc: int, writeProc: int, priv: int)

  datatype Fired = Fired(fd: nat, mask: Mask)

  /** The bits that epoll is asked to watch. */
  datatype Interest = Interest(epollin: bool, epollout: bool)

  datatype Operation = ADD | MOD | DEL

  /** The new registry entry after `cevents_add_event_inner`. */
  function Added(e: Event, m: Mask, proc: int, priv: int): Event
  {
    Event(Or(e.mask, m), if m.r then proc else e.readProc, if m.w then proc else e.writeProc, priv)
  }

  /** A change of one registry entry. */
  datatype Change = Add(mask: Mask, proc: int, priv: int) | Del(mask: Mask)

  function Changed(e: Event, cs: seq<Change>): Event
    decreases |cs|
  {
    if cs == [] then e else Changed(Once(e, cs[0]), cs[1..])
  }

  function Once(e: Event, c: Change): Event
  {
    match c
    case Add(m, proc, priv) => Added(e, m, proc, priv)
    case Del(m) => e.(mask := Minus(e.mask, m))
  }

  /** What no change touches stays: `priv` without additions, a handler without additions of its bit, and a
      bit that no change names. */
  lemma {:induction false} Untouched(e: Event, cs: seq<Change>)
    ensures var d := Changed(e, cs);
            && ((forall i :: 0 <= i < |cs| ==> !cs[i].Add?) ==> d.priv == e.priv)
            && ((forall i :: 0 <= i < |cs| ==> !(cs[i].Add? && cs[i].mask.r)) ==> d.readProc == e.readProc)
            && ((forall i :: 0 <= i < |cs| ==> !(cs[i].Add? && cs[i].mask.w)) ==> d.writeProc == e.writeProc)
            && ((forall i :: 0 <= i < |cs| ==> !cs[i].mask.r) ==> d.mask.r == e.mask.r)
            && ((forall i :: 0 <= i < |cs| ==> !cs[i].mask.w) ==> d.mask.w == e.mask.w)
            && ((forall i :: 0 <= i < |cs| ==> !cs[i].mask.p) ==> d.mask.p == e.mask.p)
    decreases |cs|
  {
    if cs != [] {
      Untouched(Once(e, cs[0]), cs[1..]);
    }
  }

  lemma {:induction false} ChangedThen(e: Event, a: seq<Change>, b: seq<Change>)
    ensures Changed(e, a + b) == Changed(Changed(e, a), b)
    decreases |a|
  {
    if a == [] {
      assert a + b == b;
    } else {
      assert (a + b)[1..] == a[1..] + b;
      ChangedThen(Once(e, a[0]), a[1..], b);
    }
  }

  /** The last change decides: `priv` is that of the last addition, a handler that of the last addition of its
      bit, and a bit is set if and only if the last change that names it is an addition. */
  lemma LastChange(e: Event, before: seq<Change>, c: Change, cs: seq<Change>)
    ensures var d := Changed(e, before + [c] + cs);
            && (c.Add? && (forall i :: 0 <= i < |cs| ==> !cs[i].Add?) ==> d.priv == c.priv)
            && (c.Add? && c.mask.r && (forall i :: 0 <= i < |cs| ==> !(cs[i].Add? && cs[i].mask.r)) ==>
                  d.readProc == c.proc)
            && (c.Add? && c.mask.w && (forall i :: 0 <= i < |cs| ==> !(cs[i].Add? && cs[i].mask.w)) ==>
                  d.writeProc == c.proc)
            && (c.mask.r && (forall i :: 0 <= i < |cs| ==> !cs[i].mask.r) ==> (d.mask.r <==> c.Add?))
            && (c.mask.w && (forall i :: 0 <= i < |cs| ==> !cs[i].mask.w) ==> (d.mask.w <==> c.Add?))
            && (c.mask.p && (forall i :: 0 <= i < |cs| ==> !cs[i].mask.p) ==> (d.mask.p <==> c.Add?))
  {
    ChangedThen(e, before + [c], cs);
    ChangedThen(e, before, [c]);
    assert [c][1..] == [];
    Untouched(Changed(e, before + [c]), cs);
  }

  ghost function Armed(events: seq<Event>): set<nat>
  {
    set fd: nat | fd < |events| && events[fd].mask != NONE
  }

  class Cevents {
    const useEpoll: bool
    const events: array<Event>
    const fired: array<Fired>
    var maxfd: nat
    var interest: map<nat, Interest>   // epoll
    var rfds: set<nat>                 // select
    var wfds: set<nat>

    /** The backend watches exactly what the registry says. */
    ghost predicate Agrees()
      reads this, events
    {
      if useEpoll then
        && interest.Keys == Armed(events[..])
        && forall fd: nat :: fd < events.Length && fd in interest ==>
             interest[fd] == Interest(events[fd].mask.r, events[fd].mask.w)
      else
        && rfds == (set fd: nat | fd < events.Length && events[fd].mask.r)
        && wfds == (set fd: nat | fd < events.Length && events[fd].mask.w)
    }

    /** `maxfd` bounds the armed descriptors; it may be stale. */
    ghost predicate Bounded()
      reads this, events
    {
      maxfd < events.Length && forall fd :: maxfd < fd < events.Length ==> events[fd].mask == NONE
    }

    ghost predicate Valid()
      reads this, events
    {
      events.Length == MAX_EVENTS == fired.Length && Agrees() && Bounded()
    }

    /** `cevents_create`. */
    constructor (useEpoll: bool)
      ensures Valid() && fresh(events) && fresh(fired) && this.useEpoll == useEpoll
      ensures forall fd :: 0 <= fd < MAX_EVENTS ==> events[fd].mask == NONE
    {
      this.useEpoll := useEpoll;
      events := new Event[MAX_EVENTS](_ => Event(NONE, 0, 0, 0));
      fired := new Fired[MAX_EVENTS](_ => Fired(0, NONE));
      maxfd, interest, rfds, wfds := 0, map[], {}, {};
    }

    /** epoll_ctl: it refuses to add a present descriptor, or to change an absent one. */
    method EpollCtl(op: Operation, fd: nat, e: Interest) returns (rs: int)
      modifies `interest
      ensures rs == if op == ADD <==> fd in old(interest) then -1 else 0
      ensures rs < 0 ==> interest == old(interest)
      ensures rs == 0 ==> interest == if op == DEL then old(interest) - {fd} else old(interest)[fd := e]
    {
      if (op == ADD) == (fd in interest) { return -1; }
      rs := 0;
      interest := if op == DEL then interest - {fd} else interest[fd := e];
    }

    /** `cevents_add_event_impl` of the chosen backend. */
    method AddImpl(fd: nat, mask: Mask) returns (rs: int)
      requires Valid() && fd < MAX_EVENTS
      modifies `interest, `rfds, `wfds
      ensures rs == 0
      ensures var m := Or(events[fd].mask, mask);
              if useEpoll then interest == old(interest)[fd := Interest(m.r, m.w)]
              else rfds == old(rfds) + (if mask.r then {fd} else {}) && wfds == old(wfds) + if mask.w then {fd} else {}
    {
      if useEpoll {
        var oldMask := events[fd].mask;
        var m := Or(mask, oldMask);
        rs := EpollCtl(if oldMask != NONE then MOD else ADD, fd, Interest(m.r, m.w));
      } else {
        if mask.r { rfds := rfds + {fd}; }
        if mask.w { wfds := wfds + {fd}; }
        rs := 0;
      }
    }

    /** `cevents_del_event_impl` of the chosen backend. */
    method DelImpl(fd: nat, mask: Mask) returns (rs: int)
      requires Valid() && fd < MAX_EVENTS && events[fd].mask != NONE
      modifies `interest, `rfds, `wfds
      ensures rs == 0
      ensures var m := Minus(events[fd].mask, mask);
              if useEpoll then
                interest == if m == NONE then old(interest) - {fd} else old(interest)[fd := Interest(m.r, m.w)]
              else
                rfds == old(rfds) - (if mask.r then {fd} else {}) && wfds == old(wfds) - if mask.w then {fd} else {}
    {
      if useEpoll {
        var m := Minus(events[fd].mask, mask);
        rs := EpollCtl(if m != NONE then MOD else DEL, fd, Interest(m.r, m.w));
      } else {
        if mask.r { rfds := rfds - {fd}; }
        if mask.w { wfds := wfds - {fd}; }
        rs := 0;
      }
    }

    /** `cevents_add_event_inner`: the backend never refuses, and agrees again afterwards. */
    method AddEvent(fd: nat, mask: Mask, proc: int, priv: int) returns (rs: int)
      requires Valid() && fd != MAX_EVENTS && mask != NONE
      modifies this, events
      ensures Valid()
      ensures rs == if fd > MAX_EVENTS then J_ERR else 0
      ensures events[..] == if fd > MAX_EVENTS then old(events[..])
                            else old(events[..])[fd := Added(old(events[fd]), mask, proc, priv)]
    {
      if fd > MAX_EVENTS { return J_ERR; }
      rs := AddImpl(fd, mask);
      if rs < 0 { return; }
      events[fd] := Added(events[fd], mask, proc, priv);
      if fd > maxfd && events[fd].mask != NONE { maxfd := fd; }
      return 0;
    }

    /** `cevents_del_event_inner`. */
    method DelEvent(fd: nat, mask: Mask) returns (rs: int)
      requires Valid() && fd != MAX_EVENTS
      modifies this, events
      ensures Valid()
      ensures rs == if fd > MAX_EVENTS then J_ERR else 0
      ensures events[..] == if fd > MAX_EVENTS then old(events[..])
                            else old(events[..])[fd := old(events[fd]).(mask := Minus(old(events[fd]).mask, mask))]
    {
      if fd > MAX_EVENTS { return J_ERR; }
      if events[fd].mask == NONE { return 0; }
      rs := DelImpl(fd, mask);
      events[fd] := events[fd].(mask := Minus(events[fd].mask, mask));
      if maxfd == fd && events[fd].mask == NONE {
        var j := fd - 1;
        while j >= 0
          invariant -1 <= j < fd && maxfd == fd
          invariant forall k :: j < k < events.Length ==> events[k].mask == NONE
        {
          if events[j].mask != NONE {
            maxfd := j;
            break;
          }
          j := j - 1;
        }
      }
      return 0;
    }

    /** The kernel reports only bits it was asked to watch. */
    predicate Watched(e: (nat, Interest))
      reads this
    {
      && e.0 in interest
      && (e.1.epollin ==> interest[e.0].epollin) && (e.1.epollout ==> interest[e.0].epollout)
    }

    /** A record for an armed descriptor, with no bit that is not armed. */
    predicate Due(f: Fired)
      reads events
    {
      f.fd < events.Length && events[f.fd].mask != NONE && Within(f.mask, events[f.fd].mask)
    }

    /** `cevents_poll_impl` over epoll; `ready` is what epoll_wait reported. */
    method PollEpoll(ready: seq<(nat, Interest)>) returns (count: nat)
      requires Valid() && useEpoll && |ready| <= MAX_EVENTS
      requires forall i :: 0 <= i < |ready| ==> Watched(ready[i])
      requires forall i, j :: 0 <= i < j < |ready| ==> ready[i].0 != ready[j].0
      modifies fired
      ensures count == |ready|
      ensures forall i :: 0 <= i < count ==>
                fired[i] == Fired(ready[i].0, Mask(ready[i].1.epollin, ready[i].1.epollout, false))
      ensures forall i :: 0 <= i < count ==> Due(fired[i])
      ensures forall i, j :: 0 <= i < j < count ==> fired[i].fd != fired[j].fd
    {
      count := 0;
      for i := 0 to |ready|
        invariant count == i
        invariant forall k :: 0 <= k < count ==>
                    fired[k] == Fired(ready[k].0, Mask(ready[k].1.epollin, ready[k].1.epollout, false))
      {
        var mask := NONE;
        if ready[i].1.epollin { mask := Or(mask, READ); }
        if ready[i].1.epollout { mask := Or(mask, WRITE); }
        fired[count] := Fired(ready[i].0, mask);
        count := count + 1;
      }
      assert forall i :: 0 <= i < count ==> ready[i].0 in Armed(events[..]);
    }

    /** `cevents_poll_impl` over select; `canRead` and `canWrite` are the descriptors that are ready. */
    method PollSelect(canRead: set<nat>, canWrite: set<nat>) returns (count: nat)
      requires Valid() && !useEpoll
      modifies fired
      ensures count <= MAX_EVENTS
      ensures var ready := Report(events[..], canRead, canWrite, maxfd + 1);
              fired[..count] == if exists f :: f in ready && f.mask != NONE then ready else []
    {
      // select() clears the bits that are not ready, and looks at descriptors up to maxfd only
      var workRead := set fd | fd in rfds && fd in canRead && fd <= maxfd;
      var workWrite := set fd | fd in wfds && fd in canWrite && fd <= maxfd;
      var rs := |workRead| + |workWrite|;
      count := 0;
      SelectReturns(workRead, workWrite, canRead, canWrite);
      if rs > 0 {
        for i := 0 to maxfd + 1
          invariant count <= i
          invariant fired[..count] == Report(events[..], canRead, canWrite, i)
        {
          var event := events[i];
          if event.mask == NONE { continue; }
          var mask := NONE;
          if event.mask.w && i in workWrite { mask := Or(mask, WRITE); }
          if event.mask.r && i in workRead { mask := Or(mask, READ); }
          fired[count] := Fired(i, mask);
          count := count + 1;
        }
      }
    }

    /** select() returns a positive number exactly when something armed is ready. */
    lemma SelectReturns(wr: set<nat>, ww: set<nat>, canRead: set<nat>, canWrite: set<nat>)
      requires Valid() && !useEpoll
      requires wr == set fd | fd in rfds && fd in canRead && fd <= maxfd
      requires ww == set fd | fd in wfds && fd in canWrite && fd <= maxfd
      ensures |wr| + |ww| > 0 <==> exists f :: f in Report(events[..], canRead, canWrite, maxfd + 1) && f.mask != NONE
    {
      var es, n := events[..], maxfd + 1;
      var ready := Report(es, canRead, canWrite, n);
      ReportExact(es, canRead, canWrite, n);
      if |wr| + |ww| > 0 {
        var fd :| fd in wr + ww;
        assert Fired(fd, Ready(es[fd].mask, fd, canRead, canWrite)) in ready;
      }
      if f :| f in ready && f.mask != NONE {
        assert f.fd in wr + ww;
        assert wr + ww != {};
      }
    }
  }

  // ---------- what a select scan reports ----------

  function Ready(m: Mask, fd: nat, canRead: set<nat>, canWrite: set<nat>): Mask
  {
    Mask(m.r && fd in canRead, m.w && fd in canWrite, false)
  }

  /** One record for each armed descriptor below `n`, in order. */
  ghost function Report(es: seq<Event>, canRead: set<nat>, canWrite: set<nat>, n: nat): seq<Fired>
    requires n <= |es|
  {
    if n == 0 then []
    else
      var before := Report(es, canRead, canWrite, n - 1);
      if es[n - 1].mask == NONE then before
      else before + [Fired(n - 1, Ready(es[n - 1].mask, n - 1, canRead, canWrite))]
  }

  lemma {:induction false} ReportExact(es: seq<Event>, canRead: set<nat>, canWrite: set<nat>, n: nat)
    requires n <= |es|
    ensures var s := Report(es, canRead, canWrite, n);
            && |s| <= n
            && (forall i, j :: 0 <= i < j < |s| ==> s[i].fd < s[j].fd)
            && (forall f :: f in s <==>
                  f.fd < n && es[f.fd].mask != NONE && !f.mask.p
                  && (f.mask.r <==> es[f.fd].mask.r && f.fd in canRead)
                  && (f.mask.w <==> es[f.fd].mask.w && f.fd in canWrite))
  {
    if n > 0 { ReportExact(es, canRead, canWrite, n - 1); }
  }

  /** After a select poll, anywhere in the registry: a record has READ exactly for the descriptors that are
      armed for reading and can be read, and WRITE exactly for those armed for writing that can be written.
      Nothing beyond `maxfd` is missed. */
  lemma ScanComplete(c: Cevents, canRead: set<nat>, canWrite: set<nat>, fd: nat, out: seq<Fired>)
    requires c.Valid() && fd < MAX_EVENTS
    requires var ready := Report(c.events[..], canRead, canWrite, c.maxfd + 1);
             out == if exists f :: f in ready && f.mask != NONE then ready else []
    ensures (exists f :: f in out && f.fd == fd && f.mask.r) <==> c.events[fd].mask.r && fd in canRead
    ensures (exists f :: f in out && f.fd == fd && f.mask.w) <==> c.events[fd].mask.w && fd in canWrite
    ensures forall f :: f in out ==> !f.mask.p
    ensures forall i, j :: 0 <= i < j < |out| ==> out[i].fd < out[j].fd
  {
    var es := c.events[..];
    ReportExact(es, canRead, canWrite, c.maxfd + 1);
    var m := Ready(es[fd].mask, fd, canRead, canWrite);
    if m != NONE {
      assert fd <= c.maxfd;
      assert Fired(fd, m) in Report(es, canRead, canWrite, c.maxfd + 1);
      assert Fired(fd, m) in out;
    }
  }
}
