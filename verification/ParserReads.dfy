/** Which commands can be received at all, given how the code reads and trims. */
module ParserReads {
  import opened Options
  import opened Decimal
  import opened Parser
  import opened ParserResume
  import opened ParserCuts

  /** The stack buffer of `_read_process`. */
  const READ_MAX := 2048

  predicate Bounded(chunks: seq<seq<byte>>)
  {
    forall i :: 0 <= i < |chunks| ==> 0 < |chunks[i]| <= READ_MAX
  }

  // ---------- one cut ----------

  /** A command that arrives in two reads is understood exactly when the cut is aligned. */
  lemma TwoReads(args: seq<seq<byte>>, c: nat)
    requires Encodable(args) && 0 < c < |Encode(args)| <= MAX_COMMAND_LEN_LIMIT
    ensures var chunks := [Encode(args)[..c], Encode(args)[c..]];
            && Reads(chunks) && Concat(chunks) == Encode(args)
            && (Session(false, FRESH, [], chunks) == (State(0, 0, args), Done) <==> AlignedCut(args, c))
  {
    hide Encode, AlignedCut, Session;
    var e := Encode(args);
    var chunks: seq<seq<byte>> := [e[..c], e[c..]];
    assert chunks[1..] == [e[c..]] && chunks[1..][1..] == [];
    assert Concat([e[c..]]) == e[c..] by { assert [e[c..]][1..] == [] && e[c..] + [] == e[c..]; }
    assert Concat(chunks) == e[..c] + e[c..] == e;
    ResumedExactlyWhenAligned(args, chunks);
    assert AllAligned(args, 0, chunks) <==> AlignedCut(args, c);
  }

  /** Every command is lost when its first read ends one byte into the first argument's header. */
  lemma MidTokenCutLoses(args: seq<seq<byte>>)
    requires Encodable(args) && |Encode(args)| <= MAX_COMMAND_LEN_LIMIT
    ensures var c := HeadLen(|args|) + 1;
            && 0 < c < |Encode(args)|
            && Session(false, FRESH, [], [Encode(args)[..c], Encode(args)[c..]]) != (State(0, 0, args), Done)
  {
    FlatLength(args);
    CostFirst(args);
    assert !AtToken(args, 1);
    TwoReads(args, HeadLen(|args|) + 1);
  }

  // ---------- reads of at most 2048 bytes ----------

  /** Where the body of argument `k` begins. */
  function BodyAt(args: seq<seq<byte>>, k: nat): nat
    requires k < |args|
  {
    if k == 0 then HeadLen(|args[0]|) else ItemLen(args[0]) + BodyAt(args[1..], k - 1)
  }

  /** No aligned cut is inside a body or the two bytes after it. */
  lemma {:induction false} NotInBody(args: seq<seq<byte>>, c: nat, k: nat)
    requires AtToken(args, c) && k < |args|
    ensures c <= BodyAt(args, k) || c >= BodyAt(args, k) + |args[k]| + 2
    decreases |args|
  {
    hide HeadLen;
    if k > 0 && c >= ItemLen(args[0]) { NotInBody(args[1..], c - ItemLen(args[0]), k - 1); }
  }

  lemma {:induction false} BodyInside(args: seq<seq<byte>>, k: nat)
    requires k < |args|
    ensures BodyAt(args, k) + |args[k]| + 2 <= Cost(args)
    decreases |args|
  {
    hide HeadLen;
    CostFirst(args);
    if k > 0 { BodyInside(args[1..], k - 1); }
  }

  /** The read that holds the first byte of a body holds all of it. */
  lemma {:induction false} BodyInOneRead(args: seq<seq<byte>>, done: nat, chunks: seq<seq<byte>>, k: nat)
    requires k < |args| && Bounded(chunks) && AllAligned(args, done, chunks)
    requires done <= HeadLen(|args|) + BodyAt(args, k)
    requires done + |Concat(chunks)| >= HeadLen(|args|) + BodyAt(args, k) + |args[k]| + 2
    ensures |args[k]| + 2 <= READ_MAX
    decreases |chunks|
  {
    hide HeadLen, BodyAt, AtToken;
    if chunks != [] {
      var to, p := done + |chunks[0]|, HeadLen(|args|) + BodyAt(args, k);
      if |chunks| == 1 {
        assert chunks[1..] == [];
      } else {
        if to >= HeadLen(|args|) { NotInBody(args, to - HeadLen(|args|), k); }
        if to <= p { BodyInOneRead(args, to, chunks[1..], k); }
      }
    }
  }

  /** The reads that work: the count header, and then each header and each body on its own. */
  function Portions(args: seq<seq<byte>>): seq<seq<byte>>
  {
    if args == [] then []
    else [Head(DOLLAR, Print(|args[0]|)), args[0] + CRLF] + Portions(args[1..])
  }

  lemma PortionsFrom(args: seq<seq<byte>>, k: nat)
    requires k < |args|
    ensures Portions(args[k..]) == [Head(DOLLAR, Print(|args[k]|))] + ([args[k] + CRLF] + Portions(args[k + 1..]))
  {
    assert args[k..][0] == args[k] && args[k..][1..] == args[k + 1..];
  }

  lemma ConcatCons(c: seq<byte>, rest: seq<seq<byte>>)
    ensures Concat([c] + rest) == c + Concat(rest)
  {
    assert ([c] + rest)[1..] == rest;
  }

  lemma WholeParts(a: seq<byte>)
    ensures Whole(ItemOf(a)) == Head(DOLLAR, Print(|a|)) + (a + CRLF)
  {
    hide Head, Print;
  }

  lemma {:induction false} PortionsConcat(args: seq<seq<byte>>)
    ensures Concat(Portions(args)) == Flat(ItemsOf(args))
  {
    if args != [] {
      hide Concat, Portions, Flat, Head, Print, Whole;
      var h, b, rest := Head(DOLLAR, Print(|args[0]|)), args[0] + CRLF, Portions(args[1..]);
      PortionsConcat(args[1..]);
      assert args[0..] == args;
      PortionsFrom(args, 0);
      ConcatCons(h, [b] + rest);
      ConcatCons(b, rest);
      FlatCons(args);
      WholeParts(args[0]);
      assert h + (b + Concat(rest)) == h + b + Concat(rest);
    }
  }

  lemma {:induction false} PortionsBounded(args: seq<seq<byte>>)
    requires forall k :: 0 <= k < |args| ==> 0 < |args[k]| <= READ_MAX - 2
    ensures Bounded(Portions(args))
  {
    if args != [] {
      PortionsBounded(args[1..]);
      TwentyDigits(|args[0]|);
    }
  }

  lemma OneMoreRead(args: seq<seq<byte>>, done: nat, c: seq<byte>, rest: seq<seq<byte>>)
    requires AlignedCut(args, done + |c|) && AllAligned(args, done + |c|, rest)
    ensures AllAligned(args, done, [c] + rest)
  {
    assert ([c] + rest)[1..] == rest;
  }

  lemma NoMoreReads(args: seq<seq<byte>>, done: nat)
    ensures AllAligned(args, done, Portions([]))
  {
  }

  lemma HeadSize(c: byte, n: nat)
    ensures |Head(c, Print(n))| == HeadLen(n)
  {
  }

  /** When `k` arguments are out: the cuts between the portions to come are token ends. */
  lemma {:induction false} PortionsAligned(args: seq<seq<byte>>, k: nat)
    requires k <= |args|
    ensures AllAligned(args, HeadLen(|args|) + Cost(args[..k]), Portions(args[k..]))
    decreases |args| - k
  {
    hide AllAligned, Portions, Cost, Print, AtToken, HeadLen, Head;
    if k == |args| {
      assert args[k..] == [];
      NoMoreReads(args, HeadLen(|args|) + Cost(args[..k]));
    } else {
      var done, a, rest := HeadLen(|args|) + Cost(args[..k]), args[k], Portions(args[k + 1..]);
      assert args[..k + 1] == args[..k] + [a];
      CostOneMore(args[..k], a);
      PortionsAligned(args, k + 1);
      TokenAt(args, k);
      PortionsFrom(args, k);
      var h := Head(DOLLAR, Print(|a|));
      HeadSize(DOLLAR, |a|);
      OneMoreRead(args, done + |h|, a + CRLF, rest);
      OneMoreRead(args, done, h, [a + CRLF] + rest);
    }
  }

  /** The end of the header and the end of argument `k` are tokens. */
  lemma {:induction false} TokenAt(args: seq<seq<byte>>, k: nat)
    requires k < |args|
    ensures AtToken(args, Cost(args[..k]) + HeadLen(|args[k]|)) && AtToken(args, Cost(args[..k]) + ItemLen(args[k]))
    decreases k
  {
    if k > 0 {
      TokenAt(args[1..], k - 1);
      assert args[..k] == [args[0]] + args[1..][..k - 1];
      CostFirst(args[..k]);
      assert args[..k][1..] == args[1..][..k - 1];
    }
  }

  lemma TooLongIsLost(args: seq<seq<byte>>, chunks: seq<seq<byte>>, k: nat)
    requires Encodable(args) && |Encode(args)| <= MAX_COMMAND_LEN_LIMIT && k < |args|
    requires Bounded(chunks) && Concat(chunks) == Encode(args) && |args[k]| + 2 > READ_MAX
    ensures Session(false, FRESH, [], chunks) != (State(0, 0, args), Done)
  {
    hide Encode, Session, AllAligned;
    EncodeLength(args);
    ResumedExactlyWhenAligned(args, chunks);
    BodyInside(args, k);
    if AllAligned(args, 0, chunks) { BodyInOneRead(args, 0, chunks, k); }
  }

  lemma EncodeLength(args: seq<seq<byte>>)
    ensures |Encode(args)| == HeadLen(|args|) + Cost(args)
  {
    FlatLength(args);
  }

  lemma ShortIsReceived(args: seq<seq<byte>>) returns (chunks: seq<seq<byte>>)
    requires Encodable(args) && |Encode(args)| <= MAX_COMMAND_LEN_LIMIT
    requires forall k :: 0 <= k < |args| ==> |args[k]| + 2 <= READ_MAX
    ensures Bounded(chunks) && Concat(chunks) == Encode(args)
    ensures Session(false, FRESH, [], chunks) == (State(0, 0, args), Done)
  {
    hide Session, AllAligned, Portions, Flat, Digits;
    var h := Head(STAR, Print(|args|));
    chunks := [h] + Portions(args);
    assert chunks[1..] == Portions(args);
    PortionsConcat(args);
    PortionsBounded(args);
    TwentyDigits(|args|);
    assert args[0..] == args && Cost(args[..0]) == 0;
    PortionsAligned(args, 0);
    OneMoreRead(args, 0, h, Portions(args));
    ResumedExactlyWhenAligned(args, chunks);
  }

  /** A command can be received, in reads of at most 2048 bytes each, if and only if every argument
      fits into one read together with its CRLF. */
  lemma ReceivableIff(args: seq<seq<byte>>)
    requires Encodable(args) && |Encode(args)| <= MAX_COMMAND_LEN_LIMIT
    ensures (exists chunks ::
               && (forall i :: 0 <= i < |chunks| ==> 0 < |chunks[i]| <= 2048) && Concat(chunks) == Encode(args)
               && Session(false, FRESH, [], chunks) == (State(0, 0, args), Done))
       <==> forall k :: 0 <= k < |args| ==> |args[k]| <= 2046
  {
    hide Encode, Session, Encodable, Concat;
    if k :| 0 <= k < |args| && |args[k]| + 2 > READ_MAX {
      forall chunks | Bounded(chunks) && Concat(chunks) == Encode(args)
        ensures Session(false, FRESH, [], chunks) != (State(0, 0, args), Done)
      {
        TooLongIsLost(args, chunks, k);
      }
    } else {
      var chunks := ShortIsReceived(args);
    }
  }
}
