/** Which cuts of a printed command the parser survives as written: exactly those inside the count
    header or at the end of a token. */
module ParserCuts {
  import opened Decimal
  import opened Parser
  import opened ParserResume

  function HeadLen(n: nat): nat { |Print(n)| + 3 }

  /** Bytes of one printed argument. */
  function ItemLen(arg: seq<byte>): nat { HeadLen(|arg|) + |arg| + 2 }

  /** `c` bytes into the printed arguments is the end of a token. */
  predicate AtToken(args: seq<seq<byte>>, c: nat)
    decreases |args|
  {
    c == 0 || (args != [] && (c == HeadLen(|args[0]|)
                              || (c >= ItemLen(args[0]) && AtToken(args[1..], c - ItemLen(args[0])))))
  }

  predicate AlignedCut(args: seq<seq<byte>>, c: nat)
  {
    c < HeadLen(|args|) || AtToken(args, c - HeadLen(|args|))
  }

  /** Every read but the last, the first ending after `done` bytes, ends at an aligned cut. */
  predicate AllAligned(args: seq<seq<byte>>, done: nat, chunks: seq<seq<byte>>)
    decreases |chunks|
  {
    |chunks| <= 1 || (AlignedCut(args, done + |chunks[0]|) && AllAligned(args, done + |chunks[0]|, chunks[1..]))
  }

  // ---------- what a pass over a prefix of a printed command leaves ----------

  /** No CRLF is found before the header is complete. */
  lemma {:induction false} FindNone(c: byte, n: nat, k: nat, pos: nat)
    requires c == STAR || c == DOLLAR
    requires k < HeadLen(n) && pos <= k
    ensures FindCrlf(Head(c, Print(n))[..k], pos) == -1
    decreases k - pos
  {
    var h := Head(c, Print(n));
    if pos + 1 < k {
      if pos > 0 { assert h[pos] == Print(n)[pos - 1] && IsDigit(h[pos]); }
      FindNone(c, n, k, pos + 1);
    }
  }

  lemma FlatCons(args: seq<seq<byte>>)
    requires args != []
    ensures Flat(ItemsOf(args)) == Whole(ItemOf(args[0])) + Flat(ItemsOf(args[1..]))
    ensures |Whole(ItemOf(args[0]))| == ItemLen(args[0])
  {
    hide Flat, Print;
    assert ItemsOf(args)[1..] == ItemsOf(args[1..]);
    FlatWhole(ItemsOf(args));
  }

  lemma InHead(i: Item, rest: seq<byte>, c: nat)
    requires c <= |i.text| + 3
    ensures (Whole(i) + rest)[..c] == Head(DOLLAR, i.text)[..c]
  {
  }

  lemma {:induction false} FlatPrefix(args: seq<seq<byte>>, c: nat, argv: seq<seq<byte>>)
    requires forall i :: 0 <= i < |args| ==> 0 < |args[i]| <= MAX_COMMAND_LEN_LIMIT
    requires c < |Flat(ItemsOf(args))|
    ensures var a := Bulks(Flat(ItemsOf(args))[..c], State(|args|, 0, argv), false);
            a.verdict.More? && (a.rest == [] <==> AtToken(args, c))
    decreases |args|
  {
    if args != [] {
      hide Flat, ItemsOf, Whole, Head, Print, Str2ll, FindCrlf;
      var i, rest := ItemOf(args[0]), Flat(ItemsOf(args[1..]));
      var r := Flat(ItemsOf(args))[..c];
      FlatCons(args);
      RoundTrip(|args[0]|);
      if c < HeadLen(|args[0]|) {
        FindNone(DOLLAR, |args[0]|, c, 0);
        InHead(i, rest, c);
      } else {
        hide Bulks;
        if c < ItemLen(args[0]) {
          assert r == Whole(i)[..c];
          HeaderOnly(i, r, |args| - 1, argv);
        } else {
          var d := c - ItemLen(args[0]);
          assert r == Whole(i) + rest[..d];
          BulksItem(i, rest[..d], |args| - 1, argv, false);
          FlatPrefix(args[1..], d, argv + [i.body]);
        }
      }
    }
  }

  /** The header is complete, the body is not. */
  lemma HeaderOnly(i: Item, r: seq<byte>, n: nat, argv: seq<seq<byte>>)
    requires ItemOk(i) && |i.text| + 3 <= |r| < |Whole(i)| && r == Whole(i)[..|r|]
    ensures var a := Bulks(r, State(n + 1, 0, argv), false);
            a.verdict.More? && a.rest == r[|i.text| + 3..]
  {
    hide Head, FindCrlf, Str2ll;
    var after := r[|i.text| + 3..];
    assert r == Head(DOLLAR, i.text) + after by { WholeHead(i, r); }
    HeadParts(DOLLAR, i.text, after);
    assert Bulks(r, State(n + 1, 0, argv), false) == Bulks(after, State(n + 1, |i.body|, argv), false);
  }

  lemma WholeHead(i: Item, r: seq<byte>)
    requires |i.text| + 3 <= |r| <= |Whole(i)| && r == Whole(i)[..|r|]
    ensures r == Head(DOLLAR, i.text) + r[|i.text| + 3..]
  {
  }

  /** A proper prefix of a printed command never finishes, and leaves bytes unconsumed
      exactly when it ends inside a token other than the count header. */
  lemma EncodePrefix(args: seq<seq<byte>>, c: nat)
    requires Encodable(args) && 0 < c < |Encode(args)| <= MAX_COMMAND_LEN_LIMIT
    ensures var a := Pass(Encode(args)[..c], FRESH);
            && Unfinished(a.verdict)
            && (a.verdict.More? && a.rest != [] <==> !AlignedCut(args, c))
  {
    var h, f := Head(STAR, Print(|args|)), Flat(ItemsOf(args));
    var s := Encode(args)[..c];
    RoundTrip(|args|);
    if c < HeadLen(|args|) {
      FindNone(STAR, |args|, c, 0);
      assert s == h[..c];
    } else {
      var d := c - HeadLen(|args|);
      assert s == h + f[..d];
      HeadParts(STAR, Print(|args|), f[..d]);
      FlatPrefix(args, d, []);
    }
  }

  // ---------- dropping and alignment ----------

  /** As long as all cuts so far were aligned, the connection stands where one pass over all
      that has arrived would have left it. */
  ghost predicate OnTrack(args: seq<seq<byte>>, done: nat, st: State, buf: seq<byte>)
    requires done <= |Encode(args)|
  {
    if done == 0 then st == FRESH && buf == []
    else
      var a := Pass(Encode(args)[..done], FRESH);
      Unfinished(a.verdict) && st == a.st && buf == a.rest
  }

  lemma NextPass(args: seq<seq<byte>>, done: nat, st: State, buf: seq<byte>, chunk: seq<byte>)
    requires Encodable(args) && |Encode(args)| <= MAX_COMMAND_LEN_LIMIT && chunk != []
    requires done + |chunk| <= |Encode(args)| && chunk == Encode(args)[done..done + |chunk|]
    requires OnTrack(args, done, st, buf)
    ensures StateOk(st) && Pass(buf + chunk, st) == Pass(Encode(args)[..done + |chunk|], FRESH)
  {
    hide Pass, Encode;
    var s := Encode(args)[..done];
    assert s + chunk == Encode(args)[..done + |chunk|];
    if done == 0 {
      assert buf + chunk == s + chunk;
    } else {
      PassThen(s, chunk, FRESH);
      PassShape(s, FRESH);
    }
  }

  lemma {:induction false} DropsIffUnaligned(args: seq<seq<byte>>, done: nat, st: State, buf: seq<byte>,
                                             chunks: seq<seq<byte>>)
    requires Encodable(args) && |Encode(args)| <= MAX_COMMAND_LEN_LIMIT && Reads(chunks)
    requires done <= |Encode(args)| && Concat(chunks) == Encode(args)[done..] && OnTrack(args, done, st, buf)
    ensures Drops(st, buf, chunks) <==> !AllAligned(args, done, chunks)
    decreases |chunks|
  {
    hide Pass, Encode, KeptAsWritten, KeptRepaired, AlignedCut;
    if chunks != [] {
      var e, chunk := Encode(args), chunks[0];
      var to := done + |chunk|;
      assert chunk == Concat(chunks)[..|chunk|] == e[done..to];
      assert Concat(chunks[1..]) == Concat(chunks)[|chunk|..] == e[to..];
      NextPass(args, done, st, buf, chunk);
      var a := Pass(buf + chunk, st);
      if chunks[1..] == [] {
        assert to == |e| && e[..to] == e;
        ParseUndoesPrint(args, []);
        assert e + [] == e;
      } else {
        assert chunks[1] != [] && Concat(chunks[1..]) == chunks[1] + Concat(chunks[2..]) by {
          assert chunks[1..][0] == chunks[1] && chunks[1..][1..] == chunks[2..];
        }
        assert to < |e|;
        EncodePrefix(args, to);
        if AlignedCut(args, to) {
          TrimsAgreeIff(buf + chunk, st);
          PassShape(buf + chunk, st);
          KeptIsRest(buf + chunk, a);
          DropsIffUnaligned(args, to, a.st, a.rest, chunks[1..]);
        }
      }
    }
  }

  lemma KeptIsRest(s: seq<byte>, a: Result)
    requires Unfinished(a.verdict) && (a.verdict.InHeader? ==> a.rest == s)
    ensures KeptRepaired(s, a) == a.rest
  {
  }

  // ---------- a dropped byte cannot be made up for ----------

  function Cost(argv: seq<seq<byte>>): nat
  {
    if argv == [] then 0 else Cost(argv[..|argv| - 1]) + ItemLen(argv[|argv| - 1])
  }

  /** The least number of bytes that lead from a fresh connection to `st`. */
  function Spent(st: State): nat
  {
    if st.nbulk == 0 then 0
    else HeadLen(st.nbulk + |st.argv|) + Cost(st.argv) + if st.bulkLen == 0 then 0 else HeadLen(st.bulkLen)
  }

  /** And to the end of a command with arguments `argv`. */
  function Total(argv: seq<seq<byte>>): nat { HeadLen(|argv|) + Cost(argv) }

  function Reached(a: Result): nat { if a.verdict.Done? then Total(a.st.argv) else Spent(a.st) }

  lemma {:induction false} BulksSpend(r: seq<byte>, st: State)
    requires st.nbulk > 0
    ensures var a := Bulks(r, st, false);
            a.verdict.More? || a.verdict.Done? ==> |r| - |a.rest| >= Reached(a) - Spent(st)
    decreases st.nbulk, st.bulkLen == 0
  {
    hide FindCrlf, Print, Str2ll, Cost, Bulks;
    if st.bulkLen == 0 {
      BulksTurnHeader(r, st, false);
      var e := FindCrlf(r, 0);
      if e >= 0 && r[0] == DOLLAR && GoodLength(Str2ll(r[1..e])) {
        PrintIsShortest(r[1..e]);
        BulksSpend(r[e + 2..], st.(bulkLen := Str2ll(r[1..e]).value));
      }
    } else {
      BulksTurnBody(r, st, false);
      if |r| >= st.bulkLen + 2 {
        var rest, t := r[st.bulkLen + 2..], State(st.nbulk - 1, 0, st.argv + [r[..st.bulkLen]]);
        CostOneMore(st.argv, r[..st.bulkLen]);
        if t.nbulk > 0 { BulksSpend(rest, t); } else { BulksEnds(rest, t, false); }
      }
    }
  }

  lemma CostOneMore(argv: seq<seq<byte>>, body: seq<byte>)
    ensures Cost(argv + [body]) == Cost(argv) + ItemLen(body)
  {
    assert (argv + [body])[..|argv|] == argv;
  }

  lemma PassSpends(s: seq<byte>, st: State)
    requires s != [] && StateOk(st) && |s| <= MAX_COMMAND_LEN_LIMIT
    ensures var a := Pass(s, st);
            a.verdict.More? || a.verdict.Done? ==> |s| - |a.rest| >= Reached(a) - Spent(st)
  {
    hide FindCrlf, Print;
    if st.nbulk != 0 {
      BulksSpend(s, st);
    } else if s[0] == STAR {
      var e := FindCrlf(s, 0);
      if e >= 0 && GoodCount(Str2ll(s[1..e])) {
        PrintIsShortest(s[1..e]);
        BulksSpend(s[e + 2..], State(Str2ll(s[1..e]).value, 0, []));
      }
    }
  }

  lemma {:induction false} FinishedSpends(st: State, buf: seq<byte>, chunks: seq<seq<byte>>, args: seq<seq<byte>>)
    requires StateOk(st) && Reads(chunks) && |buf| + |Concat(chunks)| <= MAX_COMMAND_LEN_LIMIT
    requires Session(false, st, buf, chunks) == (State(0, 0, args), Done)
    ensures |buf| + |Concat(chunks)| + Spent(st) >= Total(args) + if Drops(st, buf, chunks) then 1 else 0
    decreases |chunks|
  {
    hide Pass, KeptAsWritten, KeptRepaired, Spent, Total;
    var s := buf + chunks[0];
    var a := Pass(s, st);
    PassSpends(s, st);
    PassShape(s, st);
    if Unfinished(a.verdict) {
      TrimsAgreeIff(s, st);
      assert |KeptAsWritten(s, a)| <= |a.rest| by { KeptShort(s, a); }
      FinishedSpends(a.st, KeptAsWritten(s, a), chunks[1..], args);
    }
  }

  lemma KeptShort(s: seq<byte>, a: Result)
    requires Unfinished(a.verdict) && (a.verdict.InHeader? ==> a.rest == s)
    requires a.verdict.More? ==> |KeptAsWritten(s, a)| <= |a.rest|
    ensures |KeptAsWritten(s, a)| <= |a.rest|
  {
  }

  lemma {:induction false} CostSplit(a: seq<seq<byte>>, b: seq<seq<byte>>)
    ensures Cost(a + b) == Cost(a) + Cost(b)
    decreases |b|
  {
    if b == [] { assert a + b == a; } else {
      assert (a + b)[..|a + b| - 1] == a + b[..|b| - 1];
      CostSplit(a, b[..|b| - 1]);
    }
  }

  lemma CostFirst(args: seq<seq<byte>>)
    requires args != []
    ensures Cost(args) == ItemLen(args[0]) + Cost(args[1..])
  {
    hide ItemLen;
    assert args == [args[0]] + args[1..];
    CostSplit([args[0]], args[1..]);
    assert Cost([args[0]]) == ItemLen(args[0]);
  }

  lemma {:induction false} FlatLength(args: seq<seq<byte>>)
    ensures |Flat(ItemsOf(args))| == Cost(args)
  {
    if args != [] {
      hide Flat, ItemsOf, Whole, ItemLen, Cost;
      FlatLength(args[1..]);
      FlatCons(args);
      CostFirst(args);
    }
  }

  /** A printed command read in several pieces, with the trim as written, gives its arguments
      if and only if every piece but the last ends inside the count header or at the end of a token. */
  lemma ResumedExactlyWhenAligned(args: seq<seq<byte>>, chunks: seq<seq<byte>>)
    requires Encodable(args) && |Encode(args)| <= MAX_COMMAND_LEN_LIMIT
    requires Reads(chunks) && Concat(chunks) == Encode(args)
    ensures Session(false, FRESH, [], chunks) == (State(0, 0, args), Done) <==> AllAligned(args, 0, chunks)
  {
    hide Pass;
    FlatLength(args);
    assert Encode(args)[0..] == Encode(args);
    DropsIffUnaligned(args, 0, FRESH, [], chunks);
    if AllAligned(args, 0, chunks) {
      AlignedIsAtOnce(chunks);
      ParseUndoesPrint(args, []);
      assert Encode(args) + [] == Encode(args);
    }
    if Session(false, FRESH, [], chunks) == (State(0, 0, args), Done) {
      FinishedSpends(FRESH, [], chunks, args);
    }
  }

  /** With the repaired trim no cut matters. */
  lemma RepairedAlwaysResumes(args: seq<seq<byte>>, chunks: seq<seq<byte>>)
    requires Encodable(args) && |Encode(args)| <= MAX_COMMAND_LEN_LIMIT
    requires Reads(chunks) && Concat(chunks) == Encode(args)
    ensures Session(true, FRESH, [], chunks) == (State(0, 0, args), Done)
  {
    assert [] + Concat(chunks) == Concat(chunks) && chunks != [];
    RepairedIsAtOnce(FRESH, [], chunks);
    ParseUndoesPrint(args, []);
    assert Encode(args) + [] == Encode(args);
  }

  // ---------- a protocol error is not the end of a connection's input ----------

  function Zeros(n: nat): (r: seq<byte>)
    ensures |r| == n
  {
    seq(n, _ => ZERO)
  }

  lemma {:induction false} ZerosScan(n: nat, t: seq<byte>)
    ensures Scan(Zeros(n) + t, 0) == Scan(t, 0)
  {
    if n == 0 { assert Zeros(n) + t == t; } else {
      assert (Zeros(n) + t)[1..] == Zeros(n - 1) + t;
      ZerosScan(n - 1, t);
    }
  }

  lemma {:induction false} NoLineFeed(s: seq<byte>, pos: nat)
    requires LF !in s
    ensures FindCrlf(s, pos) == -1
    decreases |s| - pos
  {
    if pos + 1 < |s| { NoLineFeed(s, pos + 1); }
  }

  /** A count header that runs over the limit is refused, with nothing consumed; and then the
      read after it can still complete a command, any command, on the flagged connection. */
  lemma OverLimitIsNotFinal(args: seq<seq<byte>>, n: nat)
    requires Encodable(args) && n >= MAX_COMMAND_LEN_LIMIT
    ensures var s := [STAR] + Zeros(n);
            var a := Pass(s, FRESH);
            && a.verdict == Failed(OverLimit)
            && Pass(KeptAsWritten(s, a) + Encode(args)[1..], a.st) == Result(State(0, 0, args), [], Done)
  {
    hide Flat, Digits, Bulks;
    var s, text := [STAR] + Zeros(n), Zeros(n) + Print(|args|);
    NoLineFeed(s, 0);
    var f := Flat(ItemsOf(args));
    assert Encode(args)[1..] == Print(|args|) + CRLF + f;
    assert s + Encode(args)[1..] == Head(STAR, text) + f + [];
    RoundTrip(|args|);
    ZerosScan(n, Print(|args|));
    assert Body(text) == text;
    assert CountOk(text, |args|);
    PrintedItems(args);
    GrammarAccepted(text, ItemsOf(args), []);
    BodiesOfItems(args);
  }

  lemma PrintedItems(args: seq<seq<byte>>)
    requires Encodable(args)
    ensures forall i :: 0 <= i < |args| ==> ItemOk(ItemsOf(args)[i])
  {
    forall i | 0 <= i < |args| ensures ItemOk(ItemsOf(args)[i]) { RoundTrip(|args[i]|); }
  }
}
