/** What every pass does with every buffer, told from the bytes: which words of the grammar it takes, and
    why it stops where it stops. */
module ParserVerdicts {
  import opened Options
  import opened Decimal
  import opened Parser
  import opened ParserResume

  // ---------- lines ----------

  /** Neither a NUL nor the begin of a CRLF. */
  predicate Plain(s: seq<byte>, d: nat)
    requires d < |s|
  {
    s[d] != 0 && !(d + 1 < |s| && s[d] == 13 && s[d + 1] == 10)
  }

  /** The first CRLF of `s` is at `e`, and no NUL comes before it. */
  ghost predicate LineAt(s: seq<byte>, e: nat)
  {
    && e + 2 <= |s| && s[e] == 13 && s[e + 1] == 10
    && forall d :: 0 <= d < e ==> Plain(s, d)
  }

  ghost predicate HasLine(s: seq<byte>) { exists e: nat :: LineAt(s, e) }

  lemma {:induction false} FindFrom(s: seq<byte>, pos: nat)
    requires pos <= |s| && forall d :: 0 <= d < pos ==> Plain(s, d)
    ensures var e := FindCrlf(s, pos); if e >= 0 then LineAt(s, e) else forall d: nat :: !LineAt(s, d)
    decreases |s| - pos
  {
    if pos < |s| && Plain(s, pos) {
      FindFrom(s, pos + 1);
    } else if FindCrlf(s, pos) < 0 {
      forall d: nat ensures !LineAt(s, d) {
        if d + 2 <= |s| && s[d] == 13 && s[d + 1] == 10 { NotPlain(s, d); }
      }
    }
  }

  lemma NotPlain(s: seq<byte>, d: nat)
    requires d + 2 <= |s| && s[d] == 13 && s[d + 1] == 10
    ensures !Plain(s, d)
  {
  }

  lemma LineIsFound(s: seq<byte>)
    ensures HasLine(s) <==> FindCrlf(s, 0) >= 0
    ensures forall e: nat :: LineAt(s, e) <==> FindCrlf(s, 0) == e
  {
    hide FindCrlf;
    FindFrom(s, 0);
    var f := FindCrlf(s, 0);
    forall e: nat | LineAt(s, e) ensures f == e {
      NotPlain(s, e);
      if f >= 0 { NotPlain(s, f); }
    }
  }

  /** The text reads as a number from 1 to `max`. */
  ghost predicate Numeral(text: seq<byte>, max: int) { exists n :: 1 <= n <= max && Str2ll(text) == Some(n) }

  // ---------- the count header ----------

  /** Before the loop: what is refused and why, what is waited for, and when the loop begins. */
  lemma CountVerdict(s: seq<byte>, st: State)
    requires s != [] && StateOk(st) && st.nbulk == 0
    ensures var a := Pass(s, st);
            && (a.verdict == Failed(UnknownProtocol) <==> s[0] != 42)
            && (a.verdict.InHeader? <==> s[0] == 42 && !HasLine(s) && |s| <= 66112)
            && (a.verdict == Failed(OverLimit) && a.st == st <==> s[0] == 42 && !HasLine(s) && |s| > 66112)
            && (a.verdict == Failed(BadCount) <==>
                  s[0] == 42 && exists e: nat :: LineAt(s, e) && !Numeral(s[1..e], 1024))
            && (s[0] != 42 || !HasLine(s) || a.verdict == Failed(BadCount) ==> a.st == st && a.rest == s)
    ensures forall e: nat :: LineAt(s, e) && s[0] == 42 && Numeral(s[1..e], 1024) ==>
              Pass(s, st) == Bulks(s[e + 2..], State(Str2ll(s[1..e]).value, 0, []), |s| > 66112)
  {
    hide FindCrlf, Str2ll, Bulks, LineAt;
    LineIsFound(s);
    var e := FindCrlf(s, 0);
    if s[0] == 42 && e >= 0 && GoodCount(Str2ll(s[1..e])) {
      LoopFaults(s[e + 2..], State(Str2ll(s[1..e]).value, 0, []), |s| > 66112);
    }
  }

  /** The loop reports none of the faults of the count header, and never leaves the command. */
  lemma {:induction false} LoopFaults(r: seq<byte>, t: State, big: bool)
    requires t.nbulk > 0 && StateOk(t)
    ensures var a := Bulks(r, t, big);
            !a.verdict.InHeader? && a.verdict != Failed(UnknownProtocol) && a.verdict != Failed(BadCount)
            && (a.verdict.Failed? ==> a.st.nbulk > 0)
    decreases t.nbulk, t.bulkLen == 0
  {
    hide FindCrlf, Str2ll, Bulks;
    if t.bulkLen == 0 {
      BulksTurnHeader(r, t, big);
      var e := FindCrlf(r, 0);
      if e >= 0 && r[0] == DOLLAR && GoodLength(Str2ll(r[1..e])) {
        LoopFaults(r[e + 2..], t.(bulkLen := Str2ll(r[1..e]).value), big);
      }
    } else {
      BulksTurnBody(r, t, big);
      if |r| >= t.bulkLen + 2 {
        var u := State(t.nbulk - 1, 0, t.argv + [r[..t.bulkLen]]);
        if u.nbulk == 0 { BulksEnds(r[t.bulkLen + 2..], u, big); } else { LoopFaults(r[t.bulkLen + 2..], u, big); }
      }
    }
  }

  /** A complete count header is refused exactly when it does not read as a number from 1 to 1024,
      whatever follows it. */
  lemma BadCountIff(text: seq<byte>, more: seq<byte>, st: State)
    requires StateOk(st) && st.nbulk == 0 && 13 !in text && 0 !in text
    ensures var s := [42] + text + [13, 10] + more;
            Pass(s, st).verdict == Failed(BadCount) <==> !Numeral(text, 1024)
    ensures var s := [42] + text + [13, 10] + more;
            !Numeral(text, 1024) ==> Pass(s, st) == Result(st, s, Failed(BadCount))
  {
    var s := [42] + text + [13, 10] + more;
    var e := |text| + 1;
    HeadLine(text, more);
    hide Str2ll, Pass, LineAt, Numeral;
    CountVerdict(s, st);
    LineIsFound(s);
  }

  lemma HeadLine(text: seq<byte>, more: seq<byte>)
    requires 13 !in text && 0 !in text
    ensures var s := [42] + text + [13, 10] + more; LineAt(s, |text| + 1) && s[1..|text| + 1] == text
  {
    var s := [42] + text + [13, 10] + more;
    forall d | 0 <= d < |text| + 1 ensures Plain(s, d) {
      if d > 0 { assert s[d] == text[d - 1] && text[d - 1] in text; }
    }
  }

  // ---------- the loop ----------

  /** Why the loop stops at `r`, in state `u` between two arguments: nothing is expected any more, the next
      header is not there, or is bad, or its body is not whole. */
  ghost predicate Stops(r: seq<byte>, u: State, big: bool, a: Result)
  {
    if u.nbulk == 0 then a == Result(u, r, Done)
    else if !HasLine(r) then a == Result(u, r, if big then Failed(OverLimit) else More)
    else exists e: nat :: LineAt(r, e) &&
           if r[0] != 36 then a == Result(u, r, Failed(NoDollar))
           else if !Numeral(r[1..e], 66112) then a == Result(u, r, Failed(BadLength))
           else var n := Str2ll(r[1..e]).value;
                |r| < e + 2 + n + 2 && n > 0 && a == Result(State(u.nbulk, n, u.argv), r[e + 2..], More)
  }

  lemma ItemIs(i: Item)
    ensures ItemOk(i) <==> Str2ll(i.text) == Some(|i.body|) && 1 <= |i.body| <= 66112 && |i.tail| == 2
    ensures Whole(i) == [36] + i.text + [13, 10] + i.body + i.tail
  {
  }

  /** A header and its body, or the reason to stop there. */
  lemma LoopTurn(r: seq<byte>, t: State, big: bool) returns (i: Option<Item>, rest: seq<byte>)
    requires t.nbulk > 0 && t.bulkLen == 0
    ensures i.None? ==> Stops(r, t, big, Bulks(r, t, big))
    ensures i.Some? ==>
              && ItemOk(i.value) && r == Whole(i.value) + rest
              && Bulks(r, t, big) == Bulks(rest, State(t.nbulk - 1, 0, t.argv + [i.value.body]), big)
  {
    hide FindCrlf, Str2ll, Bulks, LineAt;
    LineIsFound(r);
    BulksTurnHeader(r, t, big);
    var e := FindCrlf(r, 0);
    i, rest := None, r;
    if e >= 0 {
      assert LineAt(r, e);
      if r[0] == DOLLAR && GoodLength(Str2ll(r[1..e])) {
        var n, after := Str2ll(r[1..e]).value, r[e + 2..];
        BulksTurnBody(after, t.(bulkLen := n), big);
        if |after| >= n + 2 {
          HeadOf(r);
          i, rest := Some(Item(r[1..e], after[..n], after[n..n + 2])), after[n + 2..];
          assert after == after[..n] + after[n..n + 2] + rest;
        }
      }
    }
  }

  /** From any state between two arguments: the loop takes whole bulk strings, one after the other, and
      stops at the first place where it must. */
  lemma {:induction false} LoopMeans(r: seq<byte>, t: State, big: bool) returns (items: seq<Item>, rest: seq<byte>)
    requires t.bulkLen == 0
    ensures |items| <= t.nbulk && forall i :: 0 <= i < |items| ==> ItemOk(items[i])
    ensures r == Flat(items) + rest
    ensures Stops(rest, State(t.nbulk - |items|, 0, t.argv + Bodies(items)), big, Bulks(r, t, big))
    decreases t.nbulk
  {
    hide Bulks, Whole, ItemOk, Stops, Flat;
    items, rest := [], r;
    NoItems(r);
    assert t.argv + Bodies([]) == t.argv;
    if t.nbulk == 0 {
      BulksEnds(r, t, big);
      StopsDone(r, t, big);
    } else {
      var i, after := LoopTurn(r, t, big);
      if i.Some? {
        var more;
        more, rest := LoopMeans(after, State(t.nbulk - 1, 0, t.argv + [i.value.body]), big);
        items := [i.value] + more;
        FlatFirst(items, rest);
        assert items[1..] == more && t.argv + [i.value.body] + Bodies(more) == t.argv + Bodies(items);
      }
    }
  }

  lemma StopsDone(r: seq<byte>, t: State, big: bool)
    requires t.nbulk == 0
    ensures Stops(r, t, big, Result(t, r, Done))
  {
  }

  /** A pass over a whole buffer that begins with a good count header. */
  lemma PassMeans(s: seq<byte>, st: State, e: nat) returns (items: seq<Item>, rest: seq<byte>)
    requires s != [] && StateOk(st) && st.nbulk == 0 && s[0] == 42 && LineAt(s, e) && Numeral(s[1..e], 1024)
    ensures var n := Str2ll(s[1..e]).value;
            && |items| <= n && (forall i :: 0 <= i < |items| ==> ItemOk(items[i]))
            && s == s[..e + 2] + Flat(items) + rest
            && Stops(rest, State(n - |items|, 0, Bodies(items)), |s| > 66112, Pass(s, st))
  {
    hide Pass, Str2ll, Bulks, LineAt, Flat, Stops, ItemOk, Numeral, HasLine, Bodies;
    LoopBegins(s, st, e);
    var n, after := Str2ll(s[1..e]).value, s[e + 2..];
    items, rest := LoopMeans(after, State(n, 0, []), |s| > 66112);
    assert [] + Bodies(items) == Bodies(items);
    Parts(s, e + 2, Flat(items), rest);
  }

  lemma LoopBegins(s: seq<byte>, st: State, e: nat)
    requires s != [] && StateOk(st) && st.nbulk == 0 && s[0] == 42 && LineAt(s, e) && Numeral(s[1..e], 1024)
    ensures 0 < e && e + 2 <= |s| && Str2ll(s[1..e]).Some? && Str2ll(s[1..e]).value > 0
    ensures Pass(s, st) == Bulks(s[e + 2..], State(Str2ll(s[1..e]).value, 0, []), |s| > 66112)
  {
    hide Pass, Str2ll, Bulks;
    CountVerdict(s, st);
  }

  lemma Parts(s: seq<byte>, n: nat, a: seq<byte>, b: seq<byte>)
    requires n <= |s| && s[n..] == a + b
    ensures s == s[..n] + a + b
  {
    assert s == s[..n] + s[n..];
  }

  /** A pass that goes on with a command: first the pending body, if there is one. */
  lemma ResumedMeans(s: seq<byte>, st: State) returns (items: seq<Item>, rest: seq<byte>)
    requires st.nbulk > 0
    ensures st.bulkLen == 0 ==>
              && |items| <= st.nbulk && (forall i :: 0 <= i < |items| ==> ItemOk(items[i]))
              && s == Flat(items) + rest
              && Stops(rest, State(st.nbulk - |items|, 0, st.argv + Bodies(items)), |s| > 66112, Pass(s, st))
    ensures st.bulkLen > 0 && |s| < st.bulkLen + 2 ==> Pass(s, st) == Result(st, s, More)
    ensures st.bulkLen > 0 && |s| >= st.bulkLen + 2 ==>
              && |items| < st.nbulk && (forall i :: 0 <= i < |items| ==> ItemOk(items[i]))
              && s == s[..st.bulkLen + 2] + Flat(items) + rest
              && Stops(rest, State(st.nbulk - 1 - |items|, 0, st.argv + [s[..st.bulkLen]] + Bodies(items)),
                       |s| > 66112, Pass(s, st))
  {
    hide Bulks, Flat, Stops, ItemOk;
    var n, big := st.bulkLen, |s| > 66112;
    items, rest := [], s;
    if n == 0 {
      items, rest := LoopMeans(s, st, big);
    } else {
      BulksTurnBody(s, st, big);
      if |s| >= n + 2 {
        items, rest := LoopMeans(s[n + 2..], State(st.nbulk - 1, 0, st.argv + [s[..n]]), big);
        Parts(s, n + 2, Flat(items), rest);
      }
    }
  }
}
