/** What holds of every run of the hand-off protocol. */
module ProtocolRuns {
  import opened Options
  import opened Events
  import opened Protocol
  import opened ProtocolInv
  import Clist

  predicate RunEnabled(s: State, acts: seq<Action>)
    decreases |acts|
  {
    acts == [] || (Enabled(s, acts[0]) && RunEnabled(Do(s, acts[0]), acts[1..]))
  }

  function After(s: State, acts: seq<Action>): State
    requires RunEnabled(s, acts)
    decreases |acts|
  {
    if acts == [] then s else After(Do(s, acts[0]), acts[1..])
  }

  predicate GuardedRun(s: State, acts: seq<Action>)
    requires RunEnabled(s, acts)
    decreases |acts|
  {
    acts == [] || (Guarded(s, acts[0]) && GuardedRun(Do(s, acts[0]), acts[1..]))
  }

  lemma {:induction false} RunKeeps(s: State, acts: seq<Action>)
    requires Inv(s) && RunEnabled(s, acts) && GuardedRun(s, acts)
    ensures Inv(After(s, acts))
    decreases |acts|
  {
    hide Inv, Guarded, Enabled;
    if acts != [] {
      StepKeeps(s, acts[0]);
      RunKeeps(Do(s, acts[0]), acts[1..]);
    }
  }

  // ---------- single ownership ----------

  /** Each live connection is in one place: queued once, held by one worker, or with the polling
      thread.  READ and WRITE are both disarmed exactly when it is away, or while the polling
      thread itself is moving it.  Records still to be looked at name armed bits only. */
  ghost predicate Owned(s: State)
  {
    && OnePlace(s)
    && (forall fd :: Busy(s, fd) ==> fd in s.conns && Moving(s.pc) != Some(fd))
    && (forall fd :: fd in s.conns && Busy(s, fd) ==> Look(s, fd).mask == PERSIST)
    && (forall fd :: fd in s.conns && !Busy(s, fd) && Moving(s.pc) != Some(fd) ==>
                       Look(s, fd).mask.r || Look(s, fd).mask.w)
    && (forall f :: f in s.batch ==> Within(f.mask, Look(s, f.fd).mask))
    && (forall f :: f in s.batch && (f.mask.r || f.mask.w) ==> !Busy(s, f.fd))
  }

  lemma SingleOwnership(s: State)
    requires Inv(s)
    ensures Owned(s)
  {
    forall fd | fd in s.conns
      ensures Busy(s, fd) ==> Look(s, fd).mask == PERSIST
      ensures !Busy(s, fd) && Moving(s.pc) != Some(fd) ==> Look(s, fd).mask.r || Look(s, fd).mask.w
    {
      assert ConnOk(s, fd);
    }
  }

  /** The polling thread finishes handing over the record it has in hand. */
  function HandOver(s: State): State
  {
    if s.pc.Got? then Do(Do(s, Main(true)), Main(true)) else s
  }

  ghost predicate OwnedThroughout(s: State, acts: seq<Action>)
    requires RunEnabled(s, acts)
    decreases |acts|
  {
    Owned(HandOver(s)) && (acts != [] ==> OwnedThroughout(Do(s, acts[0]), acts[1..]))
  }

  lemma HandOverKeeps(s: State)
    requires Inv(s)
    ensures Owned(HandOver(s))
  {
    hide Inv, Owned;
    if s.pc.Got? {
      StepKeeps(s, Main(true));
      StepKeeps(Do(s, Main(true)), Main(true));
    }
    SingleOwnership(HandOver(s));
  }

  /** A command completed on a flagged connection is queued while its WRITE is still armed. */
  lemma FlaggedCompletionBreaks(s: State, a: Action)
    requires Inv(s) && Enabled(s, a) && !Guarded(s, a)
    ensures !Owned(HandOver(Do(s, a)))
  {
    var f := s.batch[0];
    assert f in s.batch && f.fd in s.conns;
    IdleOk(s, f.fd);
    var t := HandOver(Do(s, a));
    assert t.queue[0].fd == f.fd && t.queue[0] in t.queue;
    assert Busy(t, f.fd) && Look(t, f.fd).mask.w;
  }

  /** Ownership holds throughout a run if and only if no command is ever completed on a
      connection that is already flagged for closing. */
  lemma {:induction false} OwnershipIff(s: State, acts: seq<Action>)
    requires Inv(s) && RunEnabled(s, acts)
    ensures GuardedRun(s, acts) <==> OwnedThroughout(s, acts)
    decreases |acts|
  {
    hide Inv, Owned, Guarded, Enabled, HandOver;
    HandOverKeeps(s);
    if acts != [] {
      var t := Do(s, acts[0]);
      if Guarded(s, acts[0]) {
        StepKeeps(s, acts[0]);
        OwnershipIff(t, acts[1..]);
      } else {
        FlaggedCompletionBreaks(s, acts[0]);
        assert !OwnedThroughout(t, acts[1..]);
      }
    }
  }

  // ---------- replies ----------

  /** A complete command of `fd` that no reply has been armed for yet. */
  ghost function Outstanding(s: State, fd: Fd): nat
  {
    if Busy(s, fd) || ((s.pc.Got? || s.pc.Disarmed?) && s.pc.f.fd == fd) then 1 else 0
  }

  /** The k-th reply answers the k-th command, at most one command is outstanding, and it is
      outstanding exactly while it is being pushed, queued or held. */
  lemma RepliesInOrder(s: State, fd: Fd)
    requires Inv(s) && fd in s.conns
    ensures var c := s.conns[fd];
            && c.complete == |c.replies| + Outstanding(s, fd)
            && (forall k :: 0 <= k < |c.replies| ==> c.replies[k] == Some(k))
            && (Outstanding(s, fd) == 1 ==> c.current == Some(c.complete - 1))
  {
    assert ConnOk(s, fd);
  }

  // ---------- connections ----------

  lemma ConnectionsConserved(s: State)
    requires Inv(s)
    ensures s.connections + InTransit(s.pc) == |s.conns| == s.accepted - |s.destroyed|
    ensures forall i, j :: 0 <= i < j < |s.destroyed| ==> s.destroyed[i] != s.destroyed[j]
    ensures forall fd :: fd in s.conns ==> s.conns[fd].id !in s.destroyed
  {
  }

  lemma OnlyUncountedCloses(s: State, a: Action)
    requires Enabled(s, a) && Do(s, a).destroyed != s.destroyed
    ensures a.Main? && s.pc.Uncounted? && s.pc.fd in s.conns
    ensures Do(s, a).conns == s.conns - {s.pc.fd} && Do(s, a).destroyed == s.destroyed + [s.conns[s.pc.fd].id]
  {
  }

  /** A connection is closed only with its mask at NONE, with no place and no pending record. */
  lemma ClosedWhenQuiet(s: State, a: Action)
    requires Inv(s) && Enabled(s, a) && Do(s, a).destroyed != s.destroyed
    ensures exists fd ::
              && fd in s.conns && Do(s, a).conns == s.conns - {fd}
              && Do(s, a).destroyed == s.destroyed + [s.conns[fd].id] && s.conns[fd].id !in s.destroyed
              && Look(s, fd).mask == NONE && !Busy(s, fd) && fd !in Fds(s.batch)
  {
    OnlyUncountedCloses(s, a);
    hide Do, Enabled;
    assert ConnOk(s, s.pc.fd) && !Busy(s, s.pc.fd) && s.pc.fd !in Fds(s.batch);
    assert Look(s, s.pc.fd).mask == NONE;
  }

  /** Every run from the start in which no command is completed on a flagged connection. */
  lemma EveryGuardedRun(listener: Fd, acts: seq<Action>)
    requires RunEnabled(Init(listener), acts) && GuardedRun(Init(listener), acts)
    ensures var t := After(Init(listener), acts);
            && Owned(t)
            && t.connections + InTransit(t.pc) == |t.conns| == t.accepted - |t.destroyed|
            && forall fd :: fd in t.conns ==>
                 && t.conns[fd].complete == |t.conns[fd].replies| + Outstanding(t, fd)
                 && forall k :: 0 <= k < |t.conns[fd].replies| ==> t.conns[fd].replies[k] == Some(k)
  {
    hide Inv, Owned, Guarded, Enabled, Init, Outstanding, InTransit;
    InitOk(listener);
    RunKeeps(Init(listener), acts);
    var t := After(Init(listener), acts);
    SingleOwnership(t);
    ConnectionsConserved(t);
    forall fd | fd in t.conns
      ensures t.conns[fd].complete == |t.conns[fd].replies| + Outstanding(t, fd)
      ensures forall k :: 0 <= k < |t.conns[fd].replies| ==> t.conns[fd].replies[k] == Some(k)
    {
      RepliesInOrder(t, fd);
    }
  }

  // ---------- no thread meets a connection that is gone ----------

  lemma NeverStuck(s: State)
    requires Inv(s)
    ensures forall w, quit :: w in s.held ==> Enabled(s, Reply(w, quit))
    ensures forall sent :: s.pc != Ready ==> Enabled(s, Main(sent))
    ensures s.pc == Ready && s.batch != [] ==> Look(s, s.batch[0].fd).mask.p
    ensures s.pc == Ready && s.batch != [] && s.batch[0].fd != s.listener ==> Enabled(s, Take(More))
  {
    hide CountOk, OnePlace, Within;
    forall w | w in s.held ensures s.held[w].fd in s.conns { InHeld(s.held, w); }
    if s.batch != [] {
      assert s.batch[0] in s.batch;
      if s.batch[0].fd in s.conns { assert ConnOk(s, s.batch[0].fd); }
    }
  }

  /** The queue is the circular list used at its two ends, so records leave it in the
      order in which they entered (Clist.FirstInFirstOut). */
  lemma QueueIsClist(s: State, a: Action)
    requires Enabled(s, a)
    ensures Do(s, a).queue ==
              if a.Main? && s.pc.Disarmed? then Clist.Apply(s.queue, Clist.LPushOp(s.pc.f)).0
              else if a.Pop? then Clist.Apply(s.queue, Clist.RPopOp).0
              else s.queue
    ensures a.Pop? ==> Clist.Apply(s.queue, Clist.RPopOp).1 == Clist.Datum(Do(s, a).held[a.w])
  {
  }
}
