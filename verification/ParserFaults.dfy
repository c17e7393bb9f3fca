/** What can still happen after a protocol error.  A failed pass keeps the whole buffer but also the
    arguments it has taken, and the connection goes on reading until its reply has been sent. */
module ParserFaults {
  import opened Options
  import opened Decimal
  import opened Parser
  import opened ParserResume
  import opened ParserReads
  import opened ParserCuts
  import opened ParserHeaders
  import Cstr

  // ---------- inside the loop ----------

  /** Nothing that arrives in reads of at most 2048 bytes completes the command: the next header is bad
      and nothing was taken before it; or the next body can never be whole; or the next header can no
      longer become good, and the buffer cannot be brought to a fault that takes the arguments again. */
  predicate Hopeless(t: State, buf: seq<byte>)
  {
    var b := Bulks(buf, t, false);
    || (b.verdict.Failed? && b.st == t)
    || (b.verdict.More? && b.st.bulkLen > 0 && b.st.bulkLen + 2 > |b.rest| + READ_MAX)
    || (b.verdict.More? && b.st.bulkLen == 0 && !Extensible(DOLLAR, b.rest, READ_MAX - 2)
        && (b.st == t || (0 in b.rest && |buf| + READ_MAX <= MAX_COMMAND_LEN_LIMIT)))
  }

  /** What every pass leaves: a pending length comes with an empty buffer. */
  predicate Settled(t: State, buf: seq<byte>) { StateOk(t) && (t.bulkLen > 0 ==> buf == []) }

  /** Where the loop stops: at a bad header, at an incomplete one, or inside a body. */
  ghost predicate Stopped(r: seq<byte>, t: State, b: Result)
  {
    && StateOk(b.st) && b.st.nbulk <= t.nbulk && |b.rest| <= |r| && b.rest == r[|r| - |b.rest|..]
    && (b.st == t || b.st.nbulk < t.nbulk || (b.st.nbulk == t.nbulk && t.bulkLen == 0 && b.st.bulkLen > 0))
    && (b.st == t ==> b.rest == r)
    && (b.st.nbulk < t.nbulk ==> |b.rest| < |r|)
    && (b.verdict.Done? <==> b.st.nbulk == 0) && !b.verdict.InHeader? && b.verdict != Failed(OverLimit)
    && (b.verdict.More? && b.st.bulkLen > 0 ==> |b.rest| < b.st.bulkLen + 2)
    && (b.verdict.More? && b.st.bulkLen == 0 ==> FindCrlf(b.rest, 0) < 0)
    && (b.verdict.Failed? ==> b.st.bulkLen == 0 && Bulks(b.rest, b.st, false) == b)
  }

  lemma {:induction false} BulksStop(r: seq<byte>, t: State)
    requires StateOk(t)
    ensures Stopped(r, t, Bulks(r, t, false))
    decreases t.nbulk, t.bulkLen == 0
  {
    hide FindCrlf, Str2ll, Bulks;
    if t.nbulk == 0 {
      BulksEnds(r, t, false);
    } else if t.bulkLen == 0 {
      BulksTurnHeader(r, t, false);
      var e := FindCrlf(r, 0);
      if e >= 0 && r[0] == DOLLAR && GoodLength(Str2ll(r[1..e])) {
        BulksStop(r[e + 2..], t.(bulkLen := Str2ll(r[1..e]).value));
      }
    } else {
      BulksTurnBody(r, t, false);
      if |r| >= t.bulkLen + 2 {
        BulksStop(r[t.bulkLen + 2..], State(t.nbulk - 1, 0, t.argv + [r[..t.bulkLen]]));
      }
    }
  }

  /** A pass inside the loop. */
  lemma PassInLoop(s: seq<byte>, t: State)
    requires t.nbulk > 0
    ensures Pass(s, t) == Bulks(s, t, |s| > MAX_COMMAND_LEN_LIMIT)
  {
  }

  /** What is kept of a body that is not whole: nothing. */
  lemma BodyIsDropped(s: seq<byte>, a: Result)
    requires a.verdict.More? && |a.rest| <= |s| && |a.rest| < a.st.bulkLen + 2
    ensures KeptAsWritten(s, a) == []
  {
    Cstr.SliceToMinusOne(s, |s| - |a.rest| + a.st.bulkLen);
  }

  /** What is kept of an incomplete header: all but the last byte. */
  lemma HeaderIsTrimmed(s: seq<byte>, a: Result)
    requires a.verdict.More? && a.st.bulkLen == 0 && a.rest != [] && |a.rest| <= |s| && a.rest == s[|s| - |a.rest|..]
    ensures KeptAsWritten(s, a) == a.rest[..|a.rest| - 1]
  {
    Cstr.SliceToMinusOne(s, |s| - |a.rest|);
  }

  /** One more read of a hopeless connection. */
  lemma HopelessBody(t: State, buf: seq<byte>, m: seq<byte>)
    requires t.nbulk > 0 && StateOk(t) && 0 < |m| <= READ_MAX
    requires var b := Bulks(buf, t, false);
             b.verdict.More? && b.st.bulkLen > 0 && b.st.bulkLen + 2 > |b.rest| + READ_MAX
    ensures var a := Pass(buf + m, t);
            !a.verdict.Done? && a.st.nbulk > 0 && StateOk(a.st) && Hopeless(a.st, KeptAsWritten(buf + m, a))
  {
    hide Bulks, FindCrlf, Str2ll;
    var b, big := Bulks(buf, t, false), |buf + m| > MAX_COMMAND_LEN_LIMIT;
    BulksStop(buf, t);
    PassInLoop(buf + m, t);
    BulksThen(buf, m, t, big);
    BulksTurnBody(b.rest + m, b.st, big);
    BodyIsDropped(buf + m, Result(b.st, b.rest + m, More));
    BulksTurnBody([], b.st, false);
  }

  lemma HopelessFault(t: State, buf: seq<byte>, m: seq<byte>)
    requires t.nbulk > 0 && StateOk(t)
    requires var b := Bulks(buf, t, false); b.verdict.Failed? && b.st == t
    ensures var a := Pass(buf + m, t);
            !a.verdict.Done? && a.st == t && KeptAsWritten(buf + m, a) == buf + m && Hopeless(t, buf + m)
  {
    hide Bulks;
    BulksStop(buf, t);
    PassInLoop(buf + m, t);
    BulksThen(buf, m, t, |buf + m| > MAX_COMMAND_LEN_LIMIT);
    BulksThen(buf, m, t, false);
  }

  /** The same where the pass stops before a header, at `rest`, with nothing taken. */
  lemma HopelessStart(t: State, r: seq<byte>, m: seq<byte>)
    requires t.nbulk > 0 && t.bulkLen == 0 && 0 < |m| <= READ_MAX
    requires FindCrlf(r, 0) < 0 && !Extensible(DOLLAR, r, READ_MAX - 2)
    ensures var a := Pass(r + m, t);
            !a.verdict.Done? && a.st.nbulk > 0 && StateOk(a.st) && Hopeless(a.st, KeptAsWritten(r + m, a))
  {
    hide Bulks, FindCrlf, Str2ll, Extensible;
    var e := FindCrlf(r + m, 0);
    if e < 0 {
      if |r + m| > MAX_COMMAND_LEN_LIMIT {
        PassInLoop(r + m, t);
        BulksTurnHeader(r + m, t, true);
        BulksTurnHeader(r + m, t, false);
        StaysInextensible(DOLLAR, r, m, READ_MAX - 2);
      } else {
        PassInLoop(r + m, t);
        BulksTurnHeader(r + m, t, false);
        HopelessTrim(r + m, t, r, m, Result(t, r + m, More));
      }
    } else {
      InextensibleIsBad(DOLLAR, r, m, READ_MAX - 2);
      LateHeader(t, r, m, r + m, e);
    }
  }

  /** A header that stays incomplete loses its last byte, but not what makes it hopeless. */
  lemma HopelessTrim(s: seq<byte>, u: State, r: seq<byte>, m: seq<byte>, a: Result)
    requires u.nbulk > 0 && u.bulkLen == 0 && m != [] && a == Result(u, r + m, More)
    requires |r + m| <= |s| && r + m == s[|s| - |r + m|..]
    requires FindCrlf(r + m, 0) < 0 && !Extensible(DOLLAR, r, READ_MAX - 2)
    ensures Hopeless(u, KeptAsWritten(s, a))
  {
    hide Bulks, FindCrlf, Str2ll, Extensible, KeptAsWritten;
    var k, l := r + m[..|m| - 1], [m[|m| - 1]];
    assert m == m[..|m| - 1] + l;
    assert k + l == r + m && (r + m)[..|r + m| - 1] == k;
    HeaderIsTrimmed(s, a);
    NoneInLess(k, l);
    BulksTurnHeader(k, u, false);
    if |m| > 1 { StaysInextensible(DOLLAR, r, m[..|m| - 1], READ_MAX - 2); } else { assert k == r; }
  }

  /** ... whose next header can no longer become good. */
  lemma HopelessHeader(t: State, buf: seq<byte>, m: seq<byte>)
    requires t.nbulk > 0 && StateOk(t) && 0 < |m| <= READ_MAX
    requires var b := Bulks(buf, t, false);
             && b.verdict.More? && b.st.bulkLen == 0 && !Extensible(DOLLAR, b.rest, READ_MAX - 2)
             && (b.st == t || (0 in b.rest && |buf| + READ_MAX <= MAX_COMMAND_LEN_LIMIT))
    ensures var a := Pass(buf + m, t);
            !a.verdict.Done? && a.st.nbulk > 0 && StateOk(a.st) && Hopeless(a.st, KeptAsWritten(buf + m, a))
  {
    hide Bulks, FindCrlf, Str2ll, Extensible, KeptAsWritten, Hopeless;
    var b := Bulks(buf, t, false);
    BulksStop(buf, t);
    if b.st == t {
      HopelessStart(t, buf, m);
    } else {
      PassInLoop(buf + m, t);
      BulksThen(buf, m, t, false);
      BulksTurnHeader(b.rest + m, b.st, false);
      assert b.rest[0..] == b.rest;
      NulStops(b.rest, m, 0);
      assert b.rest + m == (buf + m)[|buf + m| - |b.rest + m|..];
      HopelessTrim(buf + m, b.st, b.rest, m, Result(b.st, b.rest + m, More));
    }
  }

  /** The header is complete now: it is bad, or its body is too long. */
  lemma LateHeader(t: State, buf: seq<byte>, m: seq<byte>, r: seq<byte>, e: nat)
    requires t.nbulk > 0 && t.bulkLen == 0 && 0 < |m| <= READ_MAX
    requires r == buf + m && e == FindCrlf(r, 0) && e >= |buf| - 1
    requires r[0] == DOLLAR ==> e > 0 && !Within(Str2ll(r[1..e]), READ_MAX - 2)
    ensures var a := Pass(r, t);
            !a.verdict.Done? && a.st.nbulk > 0 && StateOk(a.st) && Hopeless(a.st, KeptAsWritten(r, a))
  {
    hide Bulks, FindCrlf, Str2ll, Extensible;
    var big := |r| > MAX_COMMAND_LEN_LIMIT;
    PassInLoop(r, t);
    BulksTurnHeader(r, t, big);
    BulksTurnHeader(r, t, false);
    if r[0] == DOLLAR && GoodLength(Str2ll(r[1..e])) {
      var u := t.(bulkLen := Str2ll(r[1..e]).value);
      BulksTurnBody(r[e + 2..], u, big);
      BodyIsDropped(r, Result(u, r[e + 2..], More));
      BulksTurnBody([], u, false);
    }
  }

  lemma {:induction false} HopelessNever(t: State, buf: seq<byte>, chunks: seq<seq<byte>>)
    requires t.nbulk > 0 && StateOk(t) && Hopeless(t, buf) && Bounded(chunks)
    ensures !Completes(t, buf, chunks)
    decreases |chunks|
  {
    hide Pass, Bulks, KeptAsWritten, Extensible;
    if chunks != [] {
      var m := chunks[0];
      var b := Bulks(buf, t, false);
      if b.verdict.Failed? {
        HopelessFault(t, buf, m);
      } else if b.st.bulkLen > 0 {
        HopelessBody(t, buf, m);
      } else {
        HopelessHeader(t, buf, m);
      }
      var a := Pass(buf + m, t);
      hide Hopeless;
      HopelessNever(a.st, KeptAsWritten(buf + m, a), chunks[1..]);
    }
  }

  // ---------- how a connection that is not hopeless gets there ----------

  /** The tokens of a buffer do not depend on how many arguments are still expected. */
  lemma {:induction false} SameTokens(r: seq<byte>, x: State, y: State)
    requires x.nbulk > 0 && y.nbulk > 0 && x.bulkLen == y.bulkLen && !Bulks(r, x, false).verdict.Done?
    ensures var a, b := Bulks(r, x, false), Bulks(r, y, false);
            || b.verdict.Done?
            || (b.verdict == a.verdict && b.rest == a.rest && b.st.bulkLen == a.st.bulkLen
                && y.nbulk - b.st.nbulk == x.nbulk - a.st.nbulk)
    decreases x.nbulk, x.bulkLen == 0
  {
    hide FindCrlf, Str2ll, Bulks;
    if x.bulkLen == 0 {
      BulksTurnHeader(r, x, false);
      BulksTurnHeader(r, y, false);
      var e := FindCrlf(r, 0);
      if e >= 0 && r[0] == DOLLAR && GoodLength(Str2ll(r[1..e])) {
        var n := Str2ll(r[1..e]).value;
        SameTokens(r[e + 2..], x.(bulkLen := n), y.(bulkLen := n));
      }
    } else {
      BulksTurnBody(r, x, false);
      BulksTurnBody(r, y, false);
      var n := x.bulkLen;
      if |r| >= n + 2 {
        var x', y' := State(x.nbulk - 1, 0, x.argv + [r[..n]]), State(y.nbulk - 1, 0, y.argv + [r[..n]]);
        if x'.nbulk == 0 { BulksEnds(r[n + 2..], x', false); }
        if y'.nbulk == 0 { BulksEnds(r[n + 2..], y', false); } else { SameTokens(r[n + 2..], x', y'); }
      }
    }
  }

  /** A buffer from which arguments were taken, and which a fault has kept, gives them again. */
  lemma TakesAgain(t: State, s: seq<byte>)
    requires t.nbulk > 0 && t.bulkLen == 0
    requires var b := Bulks(s, t, false);
             && b.st.nbulk < t.nbulk && b.st.bulkLen == 0 && !b.verdict.Done?
             && (b.verdict.More? ==> Extensible(DOLLAR, b.rest, READ_MAX - 2) || |s| + READ_MAX > MAX_COMMAND_LEN_LIMIT)
    ensures !Hopeless(Bulks(s, t, false).st, s)
  {
    hide Bulks, Extensible;
    BulksStop(s, t);
    var u := Bulks(s, t, false).st;
    SameTokens(s, t, u);
    BulksStop(s, u);
  }

  /** `m` completes an argument and ends there. */
  lemma AfterItem(t: State, buf: seq<byte>, m: seq<byte>, u: State) returns (chunks: seq<seq<byte>>)
    requires t.nbulk > 0 && Settled(t, buf) && 0 < |m| <= READ_MAX && u.nbulk < t.nbulk && u.bulkLen == 0
    requires forall big :: Bulks(buf + m, t, big) == Bulks([], u, big)
    ensures Bounded(chunks) && Completes(t, buf, chunks)
    decreases t.nbulk, 0
  {
    hide Bulks, Hopeless, Completes, Extensible;
    var s := buf + m;
    var big := |s| > MAX_COMMAND_LEN_LIMIT;
    PassInLoop(s, t);
    if u.nbulk == 0 {
      BulksEnds([], u, big);
      chunks := [m];
      CompletesCons(t, buf, m, []);
      assert [m] + [] == chunks;
    } else {
      NothingYet(u);
      var rest;
      if big {
        TakesAgainEmpty(t, s, u);
        rest := Recover(u, s);
      } else {
        Cstr.SliceToMinusOne(s, |s|);
        rest := FeedItems(u.nbulk, u.argv);
      }
      chunks := [m] + rest;
      CompletesCons(t, buf, m, rest);
    }
  }

  lemma TakesAgainEmpty(t: State, s: seq<byte>, u: State)
    requires t.nbulk > u.nbulk > 0 && t.bulkLen == 0 && u.bulkLen == 0 && Bulks(s, t, false) == Result(u, [], More)
    ensures !Hopeless(u, s)
  {
    hide Bulks;
    TakesAgain(t, s);
  }

  /** A fault that keeps the buffer after `m`, with arguments taken from it. */
  lemma AfterFault(t: State, buf: seq<byte>, m: seq<byte>) returns (chunks: seq<seq<byte>>)
    requires t.nbulk > 0 && t.bulkLen == 0 && 0 < |m| <= READ_MAX
    requires var a := Pass(buf + m, t);
             && a.verdict.Failed? && 0 < a.st.nbulk < t.nbulk && a.st.bulkLen == 0
             && a.st == Bulks(buf + m, t, false).st
    requires var b := Bulks(buf + m, t, false);
             b.verdict.More? ==>
               Extensible(DOLLAR, b.rest, READ_MAX - 2) || |buf + m| + READ_MAX > MAX_COMMAND_LEN_LIMIT
    ensures Bounded(chunks) && Completes(t, buf, chunks)
    decreases t.nbulk, 0
  {
    hide Bulks, Hopeless, Completes, Extensible, Pass;
    var s := buf + m;
    BulksStop(s, t);
    TakesAgain(t, s);
    var rest := Recover(Pass(s, t).st, s);
    chunks := [m] + rest;
    CompletesCons(t, buf, m, rest);
  }

  /** Where the next header is incomplete but can become good. */
  lemma FromHeader(t: State, buf: seq<byte>) returns (chunks: seq<seq<byte>>)
    requires t.nbulk > 0 && Settled(t, buf)
    requires var b := Bulks(buf, t, false);
             b.verdict.More? && b.st.bulkLen == 0 && Extensible(DOLLAR, b.rest, READ_MAX - 2)
    ensures Bounded(chunks) && Completes(t, buf, chunks)
    decreases t.nbulk, 1
  {
    hide Bulks, Completes, Scan, Str2ll, Whole, Head, FindCrlf;
    var b := Bulks(buf, t, false);
    var r, n := b.rest, b.st.nbulk;
    BulksStop(buf, t);
    if r == [] || Scan(r[1..], 0).Some? {
      var i, m := CompleteItem(r);
      var u := State(n - 1, 0, b.st.argv + [i.body]);
      forall big ensures Bulks(buf + m, t, big) == Bulks([], u, big) {
        BulksThen(buf, m, t, big);
        assert r + m == Whole(i) + [];
        BulksItem(i, [], n - 1, b.st.argv, big);
      }
      chunks := AfterItem(t, buf, m, u);
    } else {
      chunks := FromCr(t, buf);
    }
  }

  lemma CompleteItem(r: seq<byte>) returns (i: Item, m: seq<byte>)
    requires r == [] || (r[0] == DOLLAR && Scan(r[1..], 0).Some?)
    ensures ItemOk(i) && r + m == Whole(i) && 0 < |m| <= READ_MAX
  {
    ShortOk();
    if r == [] {
      i, m := SHORT, Whole(SHORT);
      assert r + m == m;
    } else {
      hide Scan, Str2ll, Zeros, Head;
      var ds, z := r[1..], Zeros(64);
      ReadsAsOne(ds);
      i, m := Item(ds + z + [ONE], [120], CRLF), z + [ONE] + CRLF + [120] + CRLF;
      OneByteItem(r, ds, z);
    }
  }

  lemma OneByteItem(r: seq<byte>, ds: seq<byte>, z: seq<byte>)
    requires r != [] && r[0] == DOLLAR && ds == r[1..]
    ensures r + (z + [ONE] + CRLF + [120] + CRLF) == Head(DOLLAR, ds + z + [ONE]) + [120] + CRLF
  {
    assert r == [DOLLAR] + ds;
  }

  /** ... because it is a good number and a CR. */
  lemma FromCr(t: State, buf: seq<byte>) returns (chunks: seq<seq<byte>>)
    requires t.nbulk > 0 && Settled(t, buf)
    requires var b := Bulks(buf, t, false);
             && b.verdict.More? && b.st.bulkLen == 0 && |b.rest| > 1 && b.rest[0] == DOLLAR
             && b.rest[|b.rest| - 1] == CR && Within(Str2ll(b.rest[1..|b.rest| - 1]), READ_MAX - 2)
    ensures Bounded(chunks) && Completes(t, buf, chunks)
  {
    hide Bulks, Completes, Scan, Str2ll, Head, FindCrlf;
    var b := Bulks(buf, t, false);
    var r := b.rest;
    var text, s := r[1..|r| - 1], buf + [LF];
    var big, len := |s| > MAX_COMMAND_LEN_LIMIT, Str2ll(text).value;
    BulksStop(buf, t);
    PassInLoop(s, t);
    BulksThen(buf, [LF], t, big);
    CrHead(r, text, []);
    assert [LF] + [] == [LF];
    HeadParts(DOLLAR, text, []);
    BulksTurnHeader(r + [LF], b.st, big);
    var u := b.st.(bulkLen := len);
    BulksTurnBody([], u, big);
    BodyIsDropped(s, Result(u, [], More));
    var rest := FeedBody(u.nbulk, len, u.argv);
    chunks := [[LF]] + rest;
    CompletesCons(t, buf, [LF], rest);
  }

  /** Where a body is not whole but fits. */
  lemma FromBody(t: State, buf: seq<byte>) returns (chunks: seq<seq<byte>>)
    requires t.nbulk > 0 && Settled(t, buf)
    requires var b := Bulks(buf, t, false);
             b.verdict.More? && b.st.bulkLen > 0 && b.st.bulkLen + 2 <= |b.rest| + READ_MAX
    ensures Bounded(chunks) && Completes(t, buf, chunks)
    decreases t.nbulk, 1
  {
    hide Bulks, Completes;
    var b := Bulks(buf, t, false);
    BulksStop(buf, t);
    var n := b.st.bulkLen;
    var m := Zeros(n + 2 - |b.rest|);
    var w := b.rest + m;
    var u := State(b.st.nbulk - 1, 0, b.st.argv + [w[..n]]);
    forall big ensures Bulks(buf + m, t, big) == Bulks([], u, big) {
      BulksThen(buf, m, t, big);
      BulksTurnBody(w, b.st, big);
      assert w[n + 2..] == [];
    }
    chunks := AfterItem(t, buf, m, u);
  }

  /** Where the next header is lost, but a fault will take the arguments before it again. */
  lemma FromLostHeader(t: State, buf: seq<byte>) returns (chunks: seq<seq<byte>>)
    requires t.nbulk > 0 && Settled(t, buf)
    requires var b := Bulks(buf, t, false);
             && b.verdict.More? && b.st.bulkLen == 0 && !Extensible(DOLLAR, b.rest, READ_MAX - 2)
             && b.st != t && (0 !in b.rest || |buf| + READ_MAX > MAX_COMMAND_LEN_LIMIT)
    ensures Bounded(chunks) && Completes(t, buf, chunks)
    decreases t.nbulk, 1
  {
    hide Bulks, Completes, Str2ll, FindCrlf, Scan, Extensible;
    var b := Bulks(buf, t, false);
    var r := b.rest;
    BulksStop(buf, t);
    assert t.bulkLen == 0 by {
      if t.bulkLen > 0 { BulksTurnBody(buf, t, false); }
    }
    assert r[0..] == r;
    if 0 !in r {
      CrlfFound(r, 0);
      BadByCrlf(t, buf);
      chunks := AfterFault(t, buf, CRLF);
    } else {
      var m: seq<byte> := seq(READ_MAX, _ => 0);
      NulStops(r, m, 0);
      PassInLoop(buf + m, t);
      BulksThen(buf, m, t, true);
      BulksThen(buf, m, t, false);
      BulksTurnHeader(r + m, b.st, true);
      BulksTurnHeader(r + m, b.st, false);
      chunks := AfterFault(t, buf, m);
    }
  }

  /** A CRLF makes the lost header a bad one. */
  lemma BadByCrlf(t: State, buf: seq<byte>)
    requires t.nbulk > 0 && t.bulkLen == 0
    requires var b := Bulks(buf, t, false);
             && b.verdict.More? && b.st.bulkLen == 0 && b.st.nbulk > 0 && !Extensible(DOLLAR, b.rest, READ_MAX - 2)
             && FindCrlf(b.rest + CRLF, 0) == |b.rest|
    ensures var b := Bulks(buf, t, false);
            && Pass(buf + CRLF, t).verdict.Failed? && Pass(buf + CRLF, t).st == b.st
            && Bulks(buf + CRLF, t, false).verdict.Failed? && Bulks(buf + CRLF, t, false).st == b.st
  {
    hide Bulks, FindCrlf, Str2ll, Scan;
    var b := Bulks(buf, t, false);
    var r, big := b.rest, |buf + CRLF| > MAX_COMMAND_LEN_LIMIT;
    PassInLoop(buf + CRLF, t);
    BulksThen(buf, CRLF, t, big);
    BulksThen(buf, CRLF, t, false);
    BulksTurnHeader(r + CRLF, b.st, big);
    BulksTurnHeader(r + CRLF, b.st, false);
    assert r != [] && (r + CRLF)[1..|r|] == r[1..];
    if GoodLength(Str2ll(r[1..])) { PositiveIsScanned(r[1..], MAX_COMMAND_LEN_LIMIT); }
  }

  lemma Recover(t: State, buf: seq<byte>) returns (chunks: seq<seq<byte>>)
    requires t.nbulk > 0 && Settled(t, buf) && !Hopeless(t, buf)
    ensures Bounded(chunks) && Completes(t, buf, chunks)
    decreases t.nbulk, 2
  {
    hide Bulks, Completes, Extensible;
    var b := Bulks(buf, t, false);
    BulksStop(buf, t);
    if b.verdict.Done? || b.verdict.Failed? {
      var m: seq<byte> := [0];
      PassInLoop(buf + m, t);
      BulksThen(buf, m, t, |buf + m| > MAX_COMMAND_LEN_LIMIT);
      BulksThen(buf, m, t, false);
      if b.verdict.Done? {
        chunks := [m];
        CompletesCons(t, buf, m, []);
        assert [m] + [] == chunks;
      } else {
        assert t.bulkLen == 0 by {
          if t.bulkLen > 0 { BulksTurnBody(buf, t, false); }
        }
        chunks := AfterFault(t, buf, m);
      }
    } else if b.st.bulkLen > 0 {
      chunks := FromBody(t, buf);
    } else if Extensible(DOLLAR, b.rest, READ_MAX - 2) {
      chunks := FromHeader(t, buf);
    } else {
      chunks := FromLostHeader(t, buf);
    }
  }

  // ---------- what a fault leaves open ----------

  /** Every pass leaves a settled state. */
  lemma PassSettles(s: seq<byte>, st: State)
    requires s != [] && StateOk(st)
    ensures var a := Pass(s, st); Settled(a.st, KeptAsWritten(s, a)) || !a.verdict.More?
    ensures Pass(s, st).verdict.Failed? ==> Pass(s, st).st.bulkLen == 0
  {
    hide Bulks, KeptAsWritten, FindCrlf, Str2ll;
    PassShape(s, st);
    var a, big := Pass(s, st), |s| > MAX_COMMAND_LEN_LIMIT;
    if st.nbulk > 0 {
      PassStop(s, st, big);
    } else if s[0] == STAR && FindCrlf(s, 0) >= 0 && GoodCount(Str2ll(s[1..FindCrlf(s, 0)])) {
      var e := FindCrlf(s, 0);
      PassStop(s[e + 2..], State(Str2ll(s[1..e]).value, 0, []), big);
    }
    if a.verdict.More? && a.st.bulkLen > 0 { BodyIsDropped(s, a); }
  }

  /** Inside the loop `big` only turns a wait for a header into a fault. */
  lemma PassStop(r: seq<byte>, t: State, big: bool)
    requires StateOk(t)
    ensures var a := Bulks(r, t, big);
            && (a.verdict.More? && a.st.bulkLen > 0 ==> |a.rest| < a.st.bulkLen + 2)
            && (a.verdict.Failed? ==> a.st.bulkLen == 0)
    ensures var a, b := Bulks(r, t, big), Bulks(r, t, false);
            && a.st == b.st && a.rest == b.rest
            && a.verdict == (if big && b.verdict.More? && b.st.bulkLen == 0 then Failed(OverLimit) else b.verdict)
  {
    hide Bulks, FindCrlf;
    var b := Bulks(r, t, false);
    BulksStop(r, t);
    BulksThen(r, [], t, big);
    assert r + [] == r && b.rest + [] == b.rest;
    if b.verdict.More? {
      if b.st.bulkLen == 0 { BulksTurnHeader(b.rest, b.st, big); } else { BulksTurnBody(b.rest, b.st, big); }
    }
  }

  /** Inside the loop, a later read can complete the command if and only if the connection is not hopeless. */
  lemma LaterCompletionIff(t: State, buf: seq<byte>)
    requires t.nbulk > 0 && Settled(t, buf)
    ensures CanComplete(t, buf) <==> !Hopeless(t, buf)
  {
    hide Hopeless, Completes;
    if Hopeless(t, buf) {
      forall chunks | Bounded(chunks) ensures !Completes(t, buf, chunks) { HopelessNever(t, buf, chunks); }
    } else {
      var chunks := Recover(t, buf);
    }
  }

  /** Before the loop, if and only if the count header is incomplete and can still become good. */
  lemma CountCompletionIff(s: seq<byte>, st: State)
    requires s != [] && StateOk(st) && st.nbulk == 0
    requires Pass(s, st).verdict.Failed? && Pass(s, st).st.nbulk == 0
    ensures CanComplete(st, s) <==> FindCrlf(s, 0) < 0 && Extensible(STAR, s, MAX_BULKS)
  {
    hide Completes, Extensible, FindCrlf, Str2ll, Bulks;
    var e := FindCrlf(s, 0);
    if e >= 0 && s[0] == STAR && GoodCount(Str2ll(s[1..e])) {
      BulksShape(s[e + 2..], State(Str2ll(s[1..e]).value, 0, []), |s| > MAX_COMMAND_LEN_LIMIT);
    }
    if e < 0 && Extensible(STAR, s, MAX_BULKS) {
      var chunks := CountRecovers(s, st);
    } else {
      forall chunks | Bounded(chunks) ensures !Completes(st, s, chunks) { BadCountNever(s, st, chunks); }
    }
  }

  /** After fault `a` of a pass over `s` that began in state `st`, with no body pending: a fault next to the count
      header is final unless the header itself is incomplete and can become good; any other fault is final
      unless the pass has taken an argument, or the length header can still become good. */
  predicate Recoverable(s: seq<byte>, st: State, a: Result)
  {
    if st.nbulk == 0 then a == Result(st, s, Failed(OverLimit)) && Extensible(STAR, s, MAX_BULKS)
    else a.st.nbulk < st.nbulk || (a.verdict == Failed(OverLimit) && Extensible(DOLLAR, s, READ_MAX - 2))
  }

  lemma FaultsRecoverableIff(s: seq<byte>, st: State)
    requires s != [] && StateOk(st) && st.bulkLen == 0 && Pass(s, st).verdict.Failed?
    ensures CanComplete(Pass(s, st).st, s) <==> Recoverable(s, st, Pass(s, st))
  {
    hide Bulks, CanComplete, Extensible, FindCrlf, Str2ll, Hopeless;
    var a, big := Pass(s, st), |s| > MAX_COMMAND_LEN_LIMIT;
    PassShape(s, st);
    PassSettles(s, st);
    if st.nbulk > 0 {
      LaterCompletionIff(a.st, s);
      ReplayIff(s, st, big);
    } else if a.st.nbulk > 0 {
      LaterCompletionIff(a.st, s);
      StarIsNoLength(s, a.st);
    } else {
      CountCompletionIff(s, st);
      CountFault(s, st);
    }
  }

  lemma CountFault(s: seq<byte>, st: State)
    requires s != [] && StateOk(st) && st.nbulk == 0 && Pass(s, st).verdict.Failed? && Pass(s, st).st.nbulk == 0
    ensures var a := Pass(s, st);
            Extensible(STAR, s, MAX_BULKS) ==> (FindCrlf(s, 0) < 0 <==> a == Result(st, s, Failed(OverLimit)))
  {
    hide Bulks, FindCrlf, Str2ll;
    var e := FindCrlf(s, 0);
    if e >= 0 && s[0] == STAR && GoodCount(Str2ll(s[1..e])) {
      BulksShape(s[e + 2..], State(Str2ll(s[1..e]).value, 0, []), |s| > MAX_COMMAND_LEN_LIMIT);
    }
  }

  /** A buffer that begins with a count header cannot be read as a bulk string. */
  lemma StarIsNoLength(s: seq<byte>, t: State)
    requires s != [] && t.nbulk > 0 && t.bulkLen == 0 && s[0] == STAR && FindCrlf(s, 0) >= 0
    ensures Hopeless(t, s)
  {
    hide Bulks, FindCrlf;
    BulksTurnHeader(s, t, false);
  }

  /** After a fault in a resumed pass: hopeless if and only if nothing was taken and the header is lost. */
  lemma ReplayIff(s: seq<byte>, st: State, big: bool)
    requires st.nbulk > 0 && st.bulkLen == 0 && big == (|s| > MAX_COMMAND_LEN_LIMIT)
    requires Bulks(s, st, big).verdict.Failed?
    ensures var a := Bulks(s, st, big);
            && 0 < a.st.nbulk <= st.nbulk
            && (Hopeless(a.st, s) <==> a.st.nbulk == st.nbulk
                                       && !(a.verdict == Failed(OverLimit) && Extensible(DOLLAR, s, READ_MAX - 2)))
  {
    hide Bulks, Extensible, FindCrlf;
    PassStop(s, st, big);
    BulksStop(s, st);
    var b := Bulks(s, st, false);
    if b.st.nbulk < st.nbulk {
      TakesAgain(st, s);
    } else {
      assert b.st == st && b.rest == s;
    }
  }

  // ---------- arguments that are taken twice ----------

  /** After a fault that is not about the limit, with an argument taken, any bytes at all complete the command. */
  lemma {:induction false} AnyReadsComplete(t: State, s: seq<byte>, chunks: seq<seq<byte>>)
    requires t.nbulk > 0 && t.bulkLen == 0 && Reads(chunks) && |chunks| >= t.nbulk
    requires var b := Bulks(s, t, false); b.verdict.Done? || (b.verdict.Failed? && b.st.nbulk < t.nbulk)
    ensures Completes(t, s, chunks)
    decreases t.nbulk
  {
    hide Bulks;
    var m, b := chunks[0], Bulks(s, t, false);
    PassInLoop(s + m, t);
    BulksStop(s, t);
    BulksThen(s, m, t, |s + m| > MAX_COMMAND_LEN_LIMIT);
    if b.verdict.Failed? {
      BulksThen(s, m, t, false);
      SameTokens(s + m, t, b.st);
      BulksStop(s + m, b.st);
      AnyReadsComplete(b.st, s + m, chunks[1..]);
    }
  }

  /** One argument of two has come, and then a line that is no length: the pass fails, and the next one,
      whatever it reads, completes the command with the first argument twice. */
  lemma ReplayedArgument(body: seq<byte>, m: seq<byte>)
    requires 0 < |body| <= MAX_COMMAND_LEN_LIMIT
    ensures var s := Whole(ItemOf(body)) + ([88] + CRLF);
            var a := Pass(s, State(2, 0, []));
            && a == Result(State(1, 0, [body]), [88] + CRLF, Failed(NoDollar)) && KeptAsWritten(s, a) == s
            && Pass(s + m, a.st).verdict == Done && Pass(s + m, a.st).st == State(0, 0, [body, body])
  {
    hide Bulks, Whole, FindCrlf, Str2ll;
    var i, junk := ItemOf(body), [88] + CRLF;
    var s := Whole(i) + junk;
    RoundTrip(|body|);
    PassInLoop(s, State(2, 0, []));
    BulksItem(i, junk, 1, [], |s| > MAX_COMMAND_LEN_LIMIT);
    JunkLine();
    BulksTurnHeader(junk, State(1, 0, [] + [body]), |s| > MAX_COMMAND_LEN_LIMIT);
    PassInLoop(s + m, State(1, 0, [body]));
    assert s + m == Whole(i) + (junk + m);
    BulksItem(i, junk + m, 0, [body], |s + m| > MAX_COMMAND_LEN_LIMIT);
    BulksEnds(junk + m, State(0, 0, [body] + [body]), |s + m| > MAX_COMMAND_LEN_LIMIT);
  }

  lemma JunkLine()
    ensures FindCrlf([88] + CRLF, 0) == 1
  {
    var j := [88] + CRLF;
    assert FindCrlf(j, 1) == 1;
  }

  /** A count header that says two, alone in its read. */
  lemma CountOfTwo()
    ensures var head := Head(STAR, Print(2));
            head != [] && head[0] == STAR && Pass(head, FRESH) == Result(State(2, 0, []), [], More)
            && KeptAsWritten(head, Pass(head, FRESH)) == []
  {
    var head := Head(STAR, Print(2));
    TwentyDigits(2);
    assert 0 < |head| <= MAX_COMMAND_LEN_LIMIT;
    hide Bulks, Head, Print, FindCrlf, Str2ll;
    RoundTrip(2);
    assert head + [] == head;
    HeadParts(STAR, Print(2), []);
    NothingYet(State(2, 0, []));
    Cstr.SliceToMinusOne(head, |head|);
  }
}
