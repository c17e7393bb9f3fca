/** Commands that arrive in several reads. */
module ParserResume {
  import opened Decimal
  import opened Parser
  import Cstr

  // ---------- a search is not disturbed by bytes that arrive later ----------

  lemma {:induction false} FindMore(s: seq<byte>, m: seq<byte>, pos: nat)
    ensures FindCrlf(s, pos) >= 0 ==> FindCrlf(s + m, pos) == FindCrlf(s, pos)
    decreases |s| - pos
  {
    if pos + 1 < |s| && s[pos] != 0 && !(s[pos] == CR && s[pos + 1] == LF) { FindMore(s, m, pos + 1); }
  }

  /** What the loop does with `r + m`, in terms of what it does with `r`; `big` is of the whole. */
  function Then(a: Result, m: seq<byte>, big: bool): Result
  {
    if a.verdict.More? then Bulks(a.rest + m, a.st, big)
    else Result(a.st, a.rest + m, a.verdict)
  }

  lemma {:induction false} BulksThen(r: seq<byte>, m: seq<byte>, st: State, big: bool)
    ensures Bulks(r + m, st, big) == Then(Bulks(r, st, false), m, big)
    decreases st.nbulk, st.bulkLen == 0
  {
    hide FindCrlf, Str2ll, Bulks;
    if st.nbulk == 0 {
      BulksEnds(r, st, false);
      BulksEnds(r + m, st, big);
    } else if st.bulkLen == 0 {
      BulksTurnHeader(r, st, false);
      BulksTurnHeader(r + m, st, big);
      FindMore(r, m, 0);
      var e := FindCrlf(r, 0);
      if e >= 0 && r[0] == DOLLAR {
        assert (r + m)[1..e] == r[1..e] && (r + m)[e + 2..] == r[e + 2..] + m;
        if GoodLength(Str2ll(r[1..e])) {
          BulksThen(r[e + 2..], m, st.(bulkLen := Str2ll(r[1..e]).value), big);
        }
      }
    } else {
      BulksTurnBody(r, st, false);
      BulksTurnBody(r + m, st, big);
      if |r| >= st.bulkLen + 2 {
        var n := st.bulkLen;
        assert (r + m)[..n] == r[..n] && (r + m)[n + 2..] == r[n + 2..] + m;
        BulksThen(r[n + 2..], m, State(st.nbulk - 1, 0, st.argv + [r[..n]]), big);
      }
    }
  }

  /** A state between passes: a length is pending only inside a command. */
  predicate StateOk(st: State) { st.nbulk == 0 ==> st.bulkLen == 0 }

  /** Resuming after `s` is parsing `s + m` at once, as long as the whole is within the limit. */
  lemma PassThen(s: seq<byte>, m: seq<byte>, st: State)
    requires s != [] && StateOk(st) && |s + m| <= MAX_COMMAND_LEN_LIMIT
    ensures var a := Pass(s, st);
            Pass(s + m, st) == if a.verdict.More? || a.verdict.InHeader? then Pass(a.rest + m, a.st)
                               else Result(a.st, a.rest + m, a.verdict)
  {
    hide FindCrlf, Str2ll, Bulks;
    if st.nbulk != 0 {
      BulksThen(s, m, st, false);
      BulksShape(s, st, false);
    } else if s[0] == STAR {
      FindMore(s, m, 0);
      var e := FindCrlf(s, 0);
      if e >= 0 {
        assert (s + m)[1..e] == s[1..e] && (s + m)[e + 2..] == s[e + 2..] + m;
        if GoodCount(Str2ll(s[1..e])) {
          var begun := State(Str2ll(s[1..e]).value, 0, []);
          BulksThen(s[e + 2..], m, begun, false);
          BulksShape(s[e + 2..], begun, false);
        }
      }
    }
  }

  // ---------- what every pass keeps ----------

  ghost predicate Shaped(s: seq<byte>, n: nat, a: Result)
  {
    && |a.rest| <= |s| && a.rest == s[|s| - |a.rest|..]
    && a.st.nbulk + |a.st.argv| == n && StateOk(a.st)
    && (a.verdict.Done? <==> a.st.nbulk == 0)
    && !a.verdict.InHeader?
  }

  lemma {:induction false} BulksShape(r: seq<byte>, st: State, big: bool)
    requires StateOk(st)
    ensures Shaped(r, st.nbulk + |st.argv|, Bulks(r, st, big))
    decreases st.nbulk, st.bulkLen == 0
  {
    hide FindCrlf, Str2ll;
    if st.nbulk == 0 {
    } else if st.bulkLen == 0 {
      var e := FindCrlf(r, 0);
      if e >= 0 && r[0] == DOLLAR && GoodLength(Str2ll(r[1..e])) {
        BulksShape(r[e + 2..], st.(bulkLen := Str2ll(r[1..e]).value), big);
      }
    } else if |r| >= st.bulkLen + 2 {
      BulksShape(r[st.bulkLen + 2..], State(st.nbulk - 1, 0, st.argv + [r[..st.bulkLen]]), big);
    }
  }

  /** For every buffer: the position stays inside it, the arguments taken and the bulks to come add
      up to the announced count, and the result is 0 exactly when no bulk is left. */
  lemma PassShape(s: seq<byte>, st: State)
    requires s != [] && StateOk(st)
    ensures var a := Pass(s, st);
            && |a.rest| <= |s| && a.rest == s[|s| - |a.rest|..] && StateOk(a.st)
            && (st.nbulk != 0 ==> Shaped(s, st.nbulk + |st.argv|, a))
            && (st.nbulk == 0 && a.rest != s ==>
                  var e := FindCrlf(s, 0);
                  e > 0 && CountOk(s[1..e], a.st.nbulk + |a.st.argv|))
            && (st.nbulk == 0 && a.st.nbulk == 0 ==> a.verdict.Done? || (a.st == st && a.rest == s))
            && (a.verdict.Done? ==> a.st.nbulk == 0)
            && (a.verdict.InHeader? ==> a.rest == s && a.st == st && st.nbulk == 0)
            && (a.verdict.More? ==> a.st.nbulk > 0)
  {
    hide FindCrlf, Str2ll, Bulks;
    if st.nbulk != 0 {
      BulksShape(s, st, |s| > MAX_COMMAND_LEN_LIMIT);
    } else if s[0] == STAR {
      var e := FindCrlf(s, 0);
      if e >= 0 && GoodCount(Str2ll(s[1..e])) {
        BulksShape(s[e + 2..], State(Str2ll(s[1..e]).value, 0, []), |s| > MAX_COMMAND_LEN_LIMIT);
      }
    }
  }

  // ---------- sessions ----------

  /** What the read buffer holds after a pass over `s`: as written, a pass that wants more keeps
      only `cstr_range(rbuf, pos + bulk_len, -1)`. */
  function KeptAsWritten(s: seq<byte>, a: Result): seq<byte>
  {
    if a.verdict.More? then Cstr.Slice(s, |s| - |a.rest| + a.st.bulkLen, -1) else s
  }

  /** The repaired trim `[pos, used)`. */
  function KeptRepaired(s: seq<byte>, a: Result): seq<byte>
  {
    if a.verdict.More? then a.rest else s
  }

  function Unfinished(v: Verdict): bool { v.More? || v.InHeader? }

  /** How a connection in state `st` with buffer `buf` stands after the given reads.
      Reading stops at the first result 0 or -1. */
  function Session(repaired: bool, st: State, buf: seq<byte>, chunks: seq<seq<byte>>): (State, Verdict)
    decreases |chunks|
  {
    if chunks == [] then (st, More)
    else
      var s := buf + chunks[0];
      var a := Pass(s, st);
      if Unfinished(a.verdict) then
        Session(repaired, a.st, if repaired then KeptRepaired(s, a) else KeptAsWritten(s, a), chunks[1..])
      else (a.st, a.verdict)
  }

  function Concat(chunks: seq<seq<byte>>): seq<byte>
  {
    if chunks == [] then [] else chunks[0] + Concat(chunks[1..])
  }

  predicate Reads(chunks: seq<seq<byte>>) { forall i :: 0 <= i < |chunks| ==> chunks[i] != [] }

  /** As if all had come in one read. */
  function AtOnce(st: State, s: seq<byte>): (State, Verdict)
  {
    var a := Pass(s, st);
    (a.st, if Unfinished(a.verdict) then More else a.verdict)
  }

  /** With the repaired trim, any stream cut in any way is parsed as if it came at once. */
  lemma {:induction false} RepairedIsAtOnce(st: State, buf: seq<byte>, chunks: seq<seq<byte>>)
    requires StateOk(st) && chunks != [] && Reads(chunks) && |buf + Concat(chunks)| <= MAX_COMMAND_LEN_LIMIT
    ensures Session(true, st, buf, chunks) == AtOnce(st, buf + Concat(chunks))
    decreases |chunks|
  {
    hide Pass;
    var s, m := buf + chunks[0], Concat(chunks[1..]);
    assert s != [] && buf + Concat(chunks) == s + m;
    PassThen(s, m, st);
    PassShape(s, st);
    var a := Pass(s, st);
    if chunks[1..] == [] {
      assert s + m == s;
    } else if Unfinished(a.verdict) {
      assert KeptRepaired(s, a) == a.rest;
      assert |a.rest + m| <= |s + m|;
      RepairedIsAtOnce(a.st, a.rest, chunks[1..]);
    }
  }

  /** Some read ends in the middle of a token, so that the trim as written drops bytes. */
  predicate Drops(st: State, buf: seq<byte>, chunks: seq<seq<byte>>)
    decreases |chunks|
  {
    chunks != [] &&
    var s := buf + chunks[0];
    var a := Pass(s, st);
    Unfinished(a.verdict) && ((a.verdict.More? && a.rest != []) || Drops(a.st, KeptAsWritten(s, a), chunks[1..]))
  }

  /** The trims agree exactly when the pass ended at a token boundary. */
  lemma TrimsAgreeIff(s: seq<byte>, st: State)
    requires s != [] && StateOk(st)
    ensures var a := Pass(s, st);
            && (KeptAsWritten(s, a) == KeptRepaired(s, a) <==> !(a.verdict.More? && a.rest != []))
            && (a.verdict.More? ==> |KeptAsWritten(s, a)| <= |a.rest|)
            && (a.verdict.More? && a.rest != [] ==> |KeptAsWritten(s, a)| < |a.rest|)
  {
    hide Pass;
    PassShape(s, st);
    var a := Pass(s, st);
    if a.verdict.More? { Cstr.SliceToMinusOne(s, |s| - |a.rest| + a.st.bulkLen); }
  }

  lemma {:induction false} NoDropIsRepaired(st: State, buf: seq<byte>, chunks: seq<seq<byte>>)
    requires StateOk(st) && Reads(chunks) && !Drops(st, buf, chunks)
    ensures Session(false, st, buf, chunks) == Session(true, st, buf, chunks)
    decreases |chunks|
  {
    hide Pass, KeptAsWritten, KeptRepaired;
    if chunks != [] {
      var s := buf + chunks[0];
      TrimsAgreeIff(s, st);
      PassShape(s, st);
      var a := Pass(s, st);
      if Unfinished(a.verdict) { NoDropIsRepaired(a.st, KeptAsWritten(s, a), chunks[1..]); }
    }
  }

  /** As written, too, a stream whose reads end at token boundaries is parsed as if it came at once. */
  lemma AlignedIsAtOnce(chunks: seq<seq<byte>>)
    requires chunks != [] && Reads(chunks) && |Concat(chunks)| <= MAX_COMMAND_LEN_LIMIT && !Drops(FRESH, [], chunks)
    ensures Session(false, FRESH, [], chunks) == AtOnce(FRESH, Concat(chunks))
  {
    NoDropIsRepaired(FRESH, [], chunks);
    assert [] + Concat(chunks) == Concat(chunks);
    RepairedIsAtOnce(FRESH, [], chunks);
  }
}
