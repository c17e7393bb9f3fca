/** What the kernel does with a reply: schedules of short writes, refusals and errors. */
module Sending {

  /** What one write() does: it takes a number of bytes, gives EAGAIN, or fails. */
  datatype Write = Wrote(n: nat) | Again | Broken

  function Min(a: nat, b: nat): nat { if a < b then a else b }

  /** The bytes that are taken before the first EAGAIN or error. */
  function Offered(k: seq<Write>): nat
  {
    if k == [] || !k[0].Wrote? then 0 else k[0].n + Offered(k[1..])
  }

  /** An error comes before any EAGAIN. */
  predicate Breaks(k: seq<Write>)
  {
    k != [] && (k[0].Broken? || (k[0].Wrote? && Breaks(k[1..])))
  }

  /** How many of `w` waiting bytes one write event sends. */
  function Taken(k: seq<Write>, w: nat): nat { Min(Offered(k), w) }

  /** How a write event ends: all is out, the connection failed, or the kernel wants no more. */
  function Outcome(k: seq<Write>, w: nat): int
  {
    if Offered(k) >= w then 0 else if Breaks(k) then -1 else 1
  }

  // ---------- a write event, told from the single writes ----------

  /** What the writes take when each of them takes something. */
  function Sum(a: seq<Write>): nat
    requires forall i :: 0 <= i < |a| ==> a[i].Wrote?
    decreases |a|
  {
    if a == [] then 0 else Sum(a[..|a| - 1]) + a[|a| - 1].n
  }

  lemma {:induction false} SumFirst(a: seq<Write>)
    requires a != [] && forall i :: 0 <= i < |a| ==> a[i].Wrote?
    ensures Sum(a) == a[0].n + Sum(a[1..])
    decreases |a|
  {
    if |a| > 1 {
      SumFirst(a[..|a| - 1]);
      assert a[..|a| - 1][1..] == a[1..][..|a| - 2];
    }
  }

  /** The loop writes again after every write that took something: `b` comes after all of `a`. */
  lemma {:induction false} WritesAddUp(a: seq<Write>, b: seq<Write>)
    requires forall i :: 0 <= i < |a| ==> a[i].Wrote?
    ensures Offered(a + b) == Sum(a) + Offered(b)
    ensures Breaks(a + b) <==> Breaks(b)
    decreases |a|
  {
    if a == [] {
      assert a + b == b;
    } else {
      assert (a + b)[1..] == a[1..] + b;
      SumFirst(a);
      WritesAddUp(a[1..], b);
    }
  }

  /** EAGAIN and an error end the event: what was written before counts, what would come after does not. */
  lemma EventEnds(a: seq<Write>, b: seq<Write>)
    requires forall i :: 0 <= i < |a| ==> a[i].Wrote?
    ensures Offered(a + [Again] + b) == Offered(a + [Broken] + b) == Offered(a) == Sum(a)
    ensures !Breaks(a + [Again] + b) && Breaks(a + [Broken] + b) && !Breaks(a)
  {
    assert a + [Again] + b == a + ([Again] + b) && a + [Broken] + b == a + ([Broken] + b) && a + [] == a;
    WritesAddUp(a, [Again] + b);
    WritesAddUp(a, [Broken] + b);
    WritesAddUp(a, []);
  }

  /** Every event is of one of these forms, so they say what it does with `w` waiting bytes. */
  lemma {:induction false} EventForms(k: seq<Write>) returns (a: seq<Write>, b: seq<Write>)
    ensures forall i :: 0 <= i < |a| ==> a[i].Wrote?
    ensures k == a || k == a + [Again] + b || k == a + [Broken] + b
    decreases |k|
  {
    if k == [] || !k[0].Wrote? {
      a, b := [], if k == [] then [] else k[1..];
    } else {
      var a', b' := EventForms(k[1..]);
      a, b := [k[0]] + a', b';
      assert k == [k[0]] + k[1..];
    }
  }

  /** The end of an event, and the bytes sent in it. */
  lemma EventMeans(a: seq<Write>, b: seq<Write>, w: nat)
    requires forall i :: 0 <= i < |a| ==> a[i].Wrote?
    ensures forall k :: k in {a, a + [Again] + b, a + [Broken] + b} ==>
              Taken(k, w) == if Sum(a) < w then Sum(a) else w
    ensures Outcome(a, w) == Outcome(a + [Again] + b, w) == if Sum(a) >= w then 0 else 1
    ensures Outcome(a + [Broken] + b, w) == if Sum(a) >= w then 0 else -1
  {
    EventEnds(a, b);
  }

  // ---------- write events ----------

  /** Write events one after the other, as long as they end with 1: the last result, and the bytes sent. */
  function Schedule(events: seq<seq<Write>>, w: nat): (r: (int, nat))
    ensures r.1 <= w && (r.0 == 0 ==> r.1 == w)
    decreases |events|
  {
    if events == [] then (1, 0)
    else
      var rs, t := Outcome(events[0], w), Taken(events[0], w);
      if rs != 1 then (rs, t)
      else
        var (last, more) := Schedule(events[1..], w - t);
        (last, t + more)
  }

  /** From event `e` on. */
  lemma ScheduleAt(events: seq<seq<Write>>, e: nat, w: nat)
    requires e <= |events|
    ensures e == |events| ==> Schedule(events[e..], w) == (1, 0)
    ensures e < |events| ==>
              var rs, t := Outcome(events[e], w), Taken(events[e], w);
              Schedule(events[e..], w) ==
                if rs != 1 then (rs, t)
                else (Schedule(events[e + 1..], w - t).0, t + Schedule(events[e + 1..], w - t).1)
  {
    if e < |events| { assert events[e..][0] == events[e] && events[e..][1..] == events[e + 1..]; }
  }

  function Total(events: seq<seq<Write>>): nat
  {
    if events == [] then 0 else Offered(events[0]) + Total(events[1..])
  }

  /** Events that never fail send everything if they take enough bytes in total, and otherwise
      exactly the bytes they take. */
  lemma {:induction false} ScheduleWithoutErrors(events: seq<seq<Write>>, w: nat)
    requires forall e :: 0 <= e < |events| ==> !Breaks(events[e])
    ensures Schedule(events, w) == if events != [] && Total(events) >= w then (0, w) else (1, Total(events))
    decreases |events|
  {
    if events != [] && Outcome(events[0], w) == 1 {
      ScheduleWithoutErrors(events[1..], w - Taken(events[0], w));
    }
  }

  /** Event `e` is reached without a failure before it, and the events up to it take `n` bytes. */
  predicate Reaches(events: seq<seq<Write>>, e: nat, n: int)
    requires e < |events|
  {
    (forall j :: 0 <= j < e ==> !Breaks(events[j])) && Total(events[..e + 1]) == n
  }

  lemma FirstHolds(events: seq<seq<Write>>, e: nat, n: int)
    requires e < |events| && Reaches(events, e, n)
    ensures e > 0 ==> !Breaks(events[0])
  {
  }

  lemma TotalFirst(events: seq<seq<Write>>, e: nat)
    requires e < |events|
    ensures Total(events[..e + 1]) == Offered(events[0]) + Total(events[1..][..e])
  {
    assert events[..e + 1][1..] == events[1..][..e];
  }

  lemma ReachesNext(events: seq<seq<Write>>, e: nat, n: int)
    requires 0 < e < |events| && !Breaks(events[0])
    ensures Reaches(events, e, Offered(events[0]) + n) <==> Reaches(events[1..], e - 1, n)
  {
    TotalFirst(events, e);
    assert forall j :: 1 <= j < e ==> events[j] == events[1..][j - 1];
    if Reaches(events[1..], e - 1, n) {
      forall j | 0 <= j < e ensures !Breaks(events[j]) {
        if j > 0 { assert !Breaks(events[1..][j - 1]); }
      }
    }
    if Reaches(events, e, Offered(events[0]) + n) {
      forall j | 0 <= j < e - 1 ensures !Breaks(events[1..][j]) { assert !Breaks(events[j + 1]); }
    }
  }

  /** For every schedule: the reply gets out if and only if some event is reached by which enough bytes
      were taken, and the connection fails if and only if an event fails before that. */
  lemma {:induction false} ScheduleIff(events: seq<seq<Write>>, w: nat)
    ensures Schedule(events, w).0 == 0 <==> exists e, n :: 0 <= e < |events| && n >= w && Reaches(events, e, n)
    ensures Schedule(events, w).0 == -1
       <==> exists e, n :: 0 <= e < |events| && n < w && Reaches(events, e, n) && Breaks(events[e])
    decreases |events|
  {
    if events != [] {
      var n0 := Offered(events[0]);
      TotalFirst(events, 0);
      assert Reaches(events, 0, n0);
      if Breaks(events[0]) {
        forall e, n | 0 <= e < |events| && Reaches(events, e, n) ensures e == 0 && n == n0 {
          FirstHolds(events, e, n);
        }
      } else if n0 < w {
        var rest := events[1..];
        ScheduleIff(rest, w - n0);
        forall e, n | 0 <= e < |rest| && Reaches(rest, e, n)
          ensures Reaches(events, e + 1, n0 + n) && events[e + 1] == rest[e]
        {
          ReachesNext(events, e + 1, n);
        }
        forall e, n | 0 < e < |events| && Reaches(events, e, n)
          ensures n >= n0 && Reaches(rest, e - 1, n - n0) && rest[e - 1] == events[e]
        {
          TotalFirst(events, e);
          ReachesNext(events, e, n - n0);
        }
      }
    }
  }
}
