/** Headers that are incomplete: which of them can still become good, and the reads that complete a command. */
module ParserHeaders {
  import opened Options
  import opened Decimal
  import opened Parser
  import opened ParserResume
  import opened ParserReads
  import opened ParserCuts
  import Cstr

  /** Some pass over the later reads completes a command. */
  predicate Completes(st: State, buf: seq<byte>, chunks: seq<seq<byte>>)
    decreases |chunks|
  {
    chunks != [] &&
    var s := buf + chunks[0];
    var a := Pass(s, st);
    a.verdict.Done? || Completes(a.st, KeptAsWritten(s, a), chunks[1..])
  }

  ghost predicate CanComplete(st: State, buf: seq<byte>)
  {
    exists chunks :: Bounded(chunks) && Completes(st, buf, chunks)
  }

  lemma CompletesCons(st: State, buf: seq<byte>, m: seq<byte>, rest: seq<seq<byte>>)
    ensures var a := Pass(buf + m, st);
            Completes(st, buf, [m] + rest) <==> a.verdict.Done? || Completes(a.st, KeptAsWritten(buf + m, a), rest)
  {
    hide Pass;
    assert ([m] + rest)[1..] == rest;
  }

  lemma BoundedCons(m: seq<byte>, rest: seq<seq<byte>>)
    requires 0 < |m| <= READ_MAX && Bounded(rest)
    ensures Bounded([m] + rest)
  {
  }

  // ---------- incomplete headers ----------

  predicate Within(r: Option<int>, max: int) { r.Some? && 0 < r.value <= max }

  /** The incomplete header `r` can still become a good one: digits so far, or a good number and a CR. */
  predicate Extensible(c: byte, r: seq<byte>, max: int)
  {
    r == [] || (r[0] == c && (Scan(r[1..], 0).Some?
                              || (|r| > 1 && r[|r| - 1] == CR && Within(Str2ll(r[1..|r| - 1]), max))))
  }

  /** Positive numbers are read from digits alone. */
  lemma PositiveIsScanned(text: seq<byte>, max: int)
    requires Within(Str2ll(text), max)
    ensures Scan(text, 0).Some?
  {
  }

  lemma ScanPrefix(a: seq<byte>, b: seq<byte>)
    requires Scan(a + b, 0).Some?
    ensures Scan(a, 0).Some?
  {
    ScanSplit(a, b, 0);
  }

  /** A header that cannot become good stays so while it is incomplete ... */
  lemma StaysInextensible(c: byte, r: seq<byte>, m: seq<byte>, max: int)
    requires !Extensible(c, r, max) && m != []
    ensures !Extensible(c, r + m, max)
  {
    hide Scan, Str2ll;
    var s := r + m;
    if s[0] == c {
      assert s[1..] == r[1..] + m;
      if Scan(s[1..], 0).Some? { ScanPrefix(r[1..], m); }
      if |s| > 1 && s[|s| - 1] == CR && Within(Str2ll(s[1..|s| - 1]), max) {
        PositiveIsScanned(s[1..|s| - 1], max);
        assert s[1..|s| - 1] == r[1..] + m[..|m| - 1];
        ScanPrefix(r[1..], m[..|m| - 1]);
      }
    }
  }

  /** ... and is bad once it is complete. */
  lemma InextensibleIsBad(c: byte, r: seq<byte>, m: seq<byte>, max: int)
    requires !Extensible(c, r, max) && FindCrlf(r, 0) < 0 <= FindCrlf(r + m, 0) && c != CR
    ensures var e := FindCrlf(r + m, 0);
            e >= |r| - 1 && ((r + m)[0] == c ==> e > 0 && !Within(Str2ll((r + m)[1..e]), max))
  {
    hide Scan, Str2ll, FindCrlf;
    var s := r + m;
    var e := FindCrlf(s, 0);
    CrlfLate(r, m);
    if s[0] == c {
      if e >= |r| {
        assert s[1..e] == r[1..] + m[..e - |r|];
        if Within(Str2ll(s[1..e]), max) {
          PositiveIsScanned(s[1..e], max);
          ScanPrefix(r[1..], m[..e - |r|]);
        }
      } else {
        assert r[e] == s[e] && s[1..e] == r[1..|r| - 1];
      }
    }
  }

  /** The first CRLF of `r + m` is not inside `r` when `r` has none. */
  lemma CrlfLate(r: seq<byte>, m: seq<byte>)
    requires FindCrlf(r, 0) < 0 <= FindCrlf(r + m, 0)
    ensures FindCrlf(r + m, 0) >= |r| - 1
  {
    CrlfLateFrom(r, m, 0);
  }

  lemma {:induction false} CrlfLateFrom(r: seq<byte>, m: seq<byte>, pos: nat)
    requires FindCrlf(r, pos) < 0 <= FindCrlf(r + m, pos)
    ensures FindCrlf(r + m, pos) >= |r| - 1
    decreases |r| - pos
  {
    if pos + 1 < |r| { CrlfLateFrom(r, m, pos + 1); }
  }

  /** A NUL before any CRLF hides all that follow. */
  lemma {:induction false} NulStops(r: seq<byte>, m: seq<byte>, pos: nat)
    requires pos <= |r| && 0 in r[pos..] && FindCrlf(r, pos) < 0
    ensures FindCrlf(r + m, pos) < 0
    decreases |r| - pos
  {
    if pos < |r| && r[pos] != 0 {
      assert r[pos..] == [r[pos]] + r[pos + 1..];
      NulStops(r, m, pos + 1);
    }
  }

  /** Without a NUL a CRLF at the end is found, if none comes before it. */
  lemma {:induction false} CrlfFound(r: seq<byte>, pos: nat)
    requires pos <= |r| && 0 !in r && FindCrlf(r, pos) < 0
    ensures FindCrlf(r + CRLF, pos) == |r|
    decreases |r| - pos
  {
    if pos < |r| {
      assert r[pos] in r;
      CrlfFound(r, pos + 1);
    }
  }

  /** A search that finds nothing finds nothing in less either. */
  lemma NoneInLess(r: seq<byte>, m: seq<byte>)
    requires FindCrlf(r + m, 0) < 0
    ensures FindCrlf(r, 0) < 0
  {
    FindMore(r, m, 0);
  }

  // ---------- the numbers that wrap to zero ----------

  function Pow2(k: nat): (r: nat)
    ensures r > 0
  {
    if k == 0 then 1 else 2 * Pow2(k - 1)
  }

  lemma {:induction false} Pow2Add(a: nat, b: nat)
    ensures Pow2(a + b) == Pow2(a) * Pow2(b)
  {
    if a > 0 {
      Pow2Add(a - 1, b);
      assert 2 * (Pow2(a - 1) * Pow2(b)) == 2 * Pow2(a - 1) * Pow2(b);
    }
  }

  lemma Pow2Word()
    ensures Pow2(64) == ULLONG_MAX + 1
  {
    assert Pow2(8) == 256;
    Pow2Add(8, 8);
    Pow2Add(16, 16);
    Pow2Add(32, 32);
  }

  lemma Factor(a: int, b: int, c: int, t: int)
    ensures c * a - t * (a * b) == (c - t * b) * a
  {
    assert t * (a * b) == t * b * a;
  }

  lemma TenHalves(q: nat, h: nat)
    ensures q * h * 10 == 5 * q * (2 * h)
  {
    assert 5 * q * (2 * h) == 10 * (q * h);
  }

  /** A multiple of 2^j becomes one of 2^(j + 1) when a zero is appended. */
  lemma TimesTen(j: nat, v: nat, q: nat) returns (p: nat)
    requires j < 64 && v == q * Pow2(j)
    ensures v * 10 % (ULLONG_MAX + 1) == p * Pow2(j + 1)
  {
    Pow2Word();
    Pow2Add(j + 1, 63 - j);
    var w, a, b := ULLONG_MAX + 1, Pow2(j + 1), Pow2(63 - j);
    var t, m := v * 10 / w, v * 10 % w;
    TenHalves(q, Pow2(j));
    assert a == 2 * Pow2(j) && v * 10 == 5 * q * a;
    hide Pow2;
    assert w == a * b && v * 10 == t * w + m;
    Factor(a, b, 5 * q, t);
    NonNegativeFactor(5 * q - t * b, a, m);
    p := 5 * q - t * b;
  }

  lemma NonNegativeFactor(d: int, a: nat, m: nat)
    requires m == d * a && a > 0
    ensures d >= 0
  {
    if d < 0 { NegativeProduct(d, a); }
  }

  lemma NegativeProduct(d: int, a: nat)
    requires d < 0 < a
    ensures d * a < 0
  {
  }

  lemma {:induction false} ZerosVanish(j: nat, v: nat, q: nat)
    requires j <= 64 && v <= ULLONG_MAX && v == q * Pow2(j)
    ensures Scan(Zeros(64 - j), v) == Some(0)
    decreases 64 - j
  {
    if j == 64 {
      Pow2Word();
      assert v == q * (ULLONG_MAX + 1);
    } else {
      var p := TimesTen(j, v, q);
      assert Zeros(64 - j)[1..] == Zeros(63 - j);
      ZerosVanish(j + 1, v * 10 % (ULLONG_MAX + 1), p);
    }
  }

  const ONE: byte := 49

  lemma OneIsOne()
    ensures Scan([ONE], 0) == Some(1)
  {
    assert [ONE][1..] == [];
  }

  lemma ScansToOne(ds: seq<byte>)
    requires Scan(ds, 0).Some?
    ensures Scan(ds + Zeros(64) + [ONE], 0) == Some(1)
  {
    hide Zeros, Scan;
    var v := Scan(ds, 0).value;
    ScanBounded(ds, 0);
    assert Pow2(0) == 1;
    hide Pow2;
    ZerosVanish(0, v, v);
    ScanSplit(ds, Zeros(64), 0);
    ScanSplit(ds + Zeros(64), [ONE], 0);
    OneIsOne();
  }

  /** Whatever digits have come, sixty-four zeros and a one make them read as the number 1. */
  lemma ReadsAsOne(ds: seq<byte>)
    requires Scan(ds, 0).Some?
    ensures Str2ll(ds + Zeros(64) + [ONE]) == Some(1)
  {
    ScansToOne(ds);
    var text := ds + Zeros(64) + [ONE];
    FirstIsDigit(ds);
    assert text[0] == if ds == [] then ZERO else ds[0];
  }

  lemma FirstIsDigit(ds: seq<byte>)
    requires Scan(ds, 0).Some?
    ensures ds != [] ==> IsDigit(ds[0])
  {
  }

  lemma {:induction false} ScanBounded(ds: seq<byte>, v: nat)
    requires Scan(ds, v).Some? && v <= ULLONG_MAX
    ensures Scan(ds, v).value <= ULLONG_MAX
  {
    if ds != [] { ScanBounded(ds[1..], v * 10 % (ULLONG_MAX + 1) + (ds[0] - ZERO)); }
  }

  // ---------- a short argument ----------

  const SHORT: Item := Item([ONE], [120], CRLF)

  lemma ShortOk()
    ensures ItemOk(SHORT) && |Whole(SHORT)| == 7
  {
    OneIsOne();
  }

  /** At a token boundary with nothing in the buffer: one short argument after the other. */
  lemma {:induction false} FeedItems(n: nat, argv: seq<seq<byte>>) returns (chunks: seq<seq<byte>>)
    requires n > 0
    ensures Bounded(chunks) && Completes(State(n, 0, argv), [], chunks)
    decreases n
  {
    hide Bulks, Whole, FindCrlf, Str2ll, ItemOk;
    var w, st := Whole(SHORT), State(n, 0, argv);
    ShortOk();
    assert [] + w == w && w + [] == w;
    BulksItem(SHORT, [], n - 1, argv, |w| > MAX_COMMAND_LEN_LIMIT);
    var t := State(n - 1, 0, argv + [SHORT.body]);
    if n == 1 {
      BulksEnds([], t, false);
      chunks := [w];
      CompletesCons(st, [], w, []);
      assert [w] + [] == chunks;
    } else {
      NothingYet(t);
      Cstr.SliceToMinusOne(w, |w|);
      var rest := FeedItems(n - 1, argv + [SHORT.body]);
      chunks := [w] + rest;
      CompletesCons(st, [], w, rest);
    }
  }

  /** With nothing to read, a loop that is not over wants more; over the limit it is a fault. */
  lemma NothingYet(st: State)
    requires st.nbulk > 0 && st.bulkLen == 0
    ensures Bulks([], st, false) == Result(st, [], More)
    ensures Bulks([], st, true) == Result(st, [], Failed(OverLimit))
  {
  }

  /** With a length known and nothing in the buffer: the body in one read, and then short arguments. */
  lemma FeedBody(n: nat, len: nat, argv: seq<seq<byte>>) returns (chunks: seq<seq<byte>>)
    requires n > 0 && 0 < len <= READ_MAX - 2
    ensures Bounded(chunks) && Completes(State(n, len, argv), [], chunks)
  {
    hide Bulks, Completes;
    var m, st := Zeros(len + 2), State(n, len, argv);
    var t := State(n - 1, 0, argv + [m[..len]]);
    assert [] + m == m && m[len + 2..] == [];
    BulksTurnBody(m, st, false);
    if n == 1 {
      BulksEnds([], t, false);
      chunks := [m];
      CompletesCons(st, [], m, []);
      assert [m] + [] == chunks;
    } else {
      NothingYet(t);
      Cstr.SliceToMinusOne(m, |m|);
      var rest := FeedItems(n - 1, t.argv);
      chunks := [m] + rest;
      CompletesCons(st, [], m, rest);
    }
  }

  // ---------- before the loop: no count yet ----------

  /** The count header is bad, or can no longer become good. */
  predicate BadCountForever(s: seq<byte>)
  {
    if FindCrlf(s, 0) >= 0 then s[0] != STAR || !GoodCount(Str2ll(s[1..FindCrlf(s, 0)]))
    else !Extensible(STAR, s, MAX_BULKS)
  }

  lemma BadCountStays(s: seq<byte>, m: seq<byte>, st: State)
    requires s != [] && m != [] && BadCountForever(s) && st.nbulk == 0
    ensures BadCountForever(s + m)
    ensures var a := Pass(s + m, st); !a.verdict.Done? && a.st == st && KeptAsWritten(s + m, a) == s + m
  {
    hide FindCrlf, Str2ll, Extensible, Bulks;
    var e := FindCrlf(s, 0);
    FindMore(s, m, 0);
    if e > 0 {
      assert (s + m)[1..e] == s[1..e];
    } else if e < 0 {
      StaysInextensible(STAR, s, m, MAX_BULKS);
      if FindCrlf(s + m, 0) >= 0 { InextensibleIsBad(STAR, s, m, MAX_BULKS); }
    }
  }

  lemma {:induction false} BadCountNever(s: seq<byte>, st: State, chunks: seq<seq<byte>>)
    requires s != [] && BadCountForever(s) && st.nbulk == 0 && Bounded(chunks)
    ensures !Completes(st, s, chunks)
    decreases |chunks|
  {
    hide Pass, BadCountForever, KeptAsWritten;
    if chunks != [] {
      BadCountStays(s, chunks[0], st);
      BadCountNever(s + chunks[0], st, chunks[1..]);
    }
  }

  lemma DigitsRecover(s: seq<byte>, st: State) returns (chunks: seq<seq<byte>>)
    requires s != [] && StateOk(st) && st.nbulk == 0 && s[0] == STAR && Scan(s[1..], 0).Some?
    ensures Bounded(chunks) && Completes(st, s, chunks)
  {
    hide Scan, Str2ll, Head, FindCrlf, Bulks, Completes, Whole;
    var ds := s[1..];
    var text, m := ds + Zeros(64) + [ONE], Zeros(64) + [ONE] + CRLF + Whole(SHORT);
    ShortOk();
    chunks := [m];
    CompletesCons(st, s, m, []);
    assert [m] + [] == chunks;
    ReadsAsOne(ds);
    HeadOfText(s, ds, m, text);
    OneItem(text);
  }

  lemma CrRecovers(s: seq<byte>, st: State) returns (chunks: seq<seq<byte>>)
    requires StateOk(st) && st.nbulk == 0 && |s| > 1 && s[0] == STAR && s[|s| - 1] == CR
    requires GoodCount(Str2ll(s[1..|s| - 1]))
    ensures Bounded(chunks) && Completes(st, s, chunks)
  {
    hide Scan, Str2ll, FindCrlf, Completes, Bulks, Head;
    var text, n := s[1..|s| - 1], Str2ll(s[1..|s| - 1]).value;
    // the length of the first argument comes along, so that the pass ends inside a body
    var head := Head(DOLLAR, [ONE]);
    var m := [LF] + head;
    var big, t := |s + m| > MAX_COMMAND_LEN_LIMIT, State(n, 1, []);
    HeadOfOne();
    CrHead(s, text, head);
    HeadParts(STAR, text, head);
    assert head + [] == head;
    HeadParts(DOLLAR, [ONE], []);
    BulksTurnHeader(head, State(n, 0, []), big);
    BulksTurnBody([], t, big);
    assert Pass(s + m, st) == Result(t, [], More);
    Cstr.SliceToMinusOne(s + m, |s + m| + 1);
    var rest := FeedBody(n, 1, []);
    chunks := [m] + rest;
    CompletesCons(st, s, m, rest);
  }

  lemma HeadOfOne()
    ensures Str2ll([ONE]) == Some(1) && |Head(DOLLAR, [ONE])| == 4
  {
    OneIsOne();
  }

  lemma CrHead(s: seq<byte>, text: seq<byte>, more: seq<byte>)
    requires |s| > 1 && s[|s| - 1] == CR && text == s[1..|s| - 1]
    ensures s + ([LF] + more) == Head(s[0], text) + more
  {
  }

  /** The header of an extensible count is completed, and then the command. */
  lemma CountRecovers(s: seq<byte>, st: State) returns (chunks: seq<seq<byte>>)
    requires s != [] && StateOk(st) && st.nbulk == 0 && Extensible(STAR, s, MAX_BULKS)
    ensures Bounded(chunks) && Completes(st, s, chunks)
  {
    hide Scan, Str2ll, Completes;
    if Scan(s[1..], 0).Some? {
      chunks := DigitsRecover(s, st);
    } else {
      chunks := CrRecovers(s, st);
    }
  }

  lemma HeadOfText(s: seq<byte>, ds: seq<byte>, m: seq<byte>, text: seq<byte>)
    requires s != [] && s[0] == STAR && ds == s[1..] && text == ds + Zeros(64) + [ONE]
    requires m == Zeros(64) + [ONE] + CRLF + Whole(SHORT)
    ensures s + m == Head(STAR, text) + Whole(SHORT)
  {
    hide Whole;
    assert s == [STAR] + ds;
  }

  /** A command with one short argument, its count written as `text`. */
  lemma OneItem(text: seq<byte>)
    requires Str2ll(text) == Some(1)
    ensures forall st: State :: st.nbulk == 0 && st.bulkLen == 0 ==>
              Pass(Head(STAR, text) + Whole(SHORT), st).verdict == Done
  {
    ShortOk();
    hide Head, FindCrlf, Str2ll, Bulks;
    var s := Head(STAR, text) + Whole(SHORT);
    HeadParts(STAR, text, Whole(SHORT));
    assert Whole(SHORT) + [] == Whole(SHORT);
    BulksItem(SHORT, [], 0, [], |s| > MAX_COMMAND_LEN_LIMIT);
    BulksEnds([], State(0, 0, [] + [SHORT.body]), |s| > MAX_COMMAND_LEN_LIMIT);
  }
}
