/** One pass of the command parser over the bytes in the read buffer.
    A pass consumes a prefix; `rest` is what it has not consumed. */
module Parser {
  import opened Options
  import opened Decimal

  const MAX_COMMAND_LEN_LIMIT := 0x10240
  const MAX_BULKS := 1024

  const CR: byte := 13
  const LF: byte := 10
  const STAR: byte := 42
  const DOLLAR: byte := 36

  const CRLF: seq<byte> := [CR, LF]

  /** `nbulk`, `bulk_len` and the arguments so far. */
  datatype State = State(nbulk: nat, bulkLen: nat, argv: seq<seq<byte>>)

  const FRESH := State(0, 0, [])

  datatype Fault = UnknownProtocol | OverLimit | BadCount | NoDollar | BadLength

  /** Returned 1 in the count header or later, 0, or -1. */
  datatype Verdict = InHeader | More | Done | Failed(fault: Fault)

  datatype Result = Result(st: State, rest: seq<byte>, verdict: Verdict)

  /** `strstr(s + pos, "\r\n") - s`: the first CRLF, if no NUL comes before it; else -1. */
  function FindCrlf(s: seq<byte>, pos: nat): (e: int)
    ensures e == -1 || (pos <= e && e + 2 <= |s| && s[e] == CR && s[e + 1] == LF)
    decreases |s| - pos
  {
    if pos + 1 >= |s| || s[pos] == 0 then -1
    else if s[pos] == CR && s[pos + 1] == LF then pos
    else FindCrlf(s, pos + 1)
  }

  predicate GoodLength(r: Option<int>) { r.Some? && 0 < r.value <= MAX_COMMAND_LEN_LIMIT }

  predicate GoodCount(r: Option<int>) { r.Some? && 0 < r.value <= MAX_BULKS }

  /** The loop over the bulk strings; `big` says that the whole buffer is over the limit. */
  function Bulks(r: seq<byte>, st: State, big: bool): Result
    decreases st.nbulk, st.bulkLen == 0
  {
    if st.nbulk == 0 then Result(st, r, Done)
    else if st.bulkLen == 0 then
      var e := FindCrlf(r, 0);
      if e < 0 then Result(st, r, if big then Failed(OverLimit) else More)
      else if r[0] != DOLLAR then Result(st, r, Failed(NoDollar))
      else
        var len := Str2ll(r[1..e]);
        if GoodLength(len) then Bulks(r[e + 2..], st.(bulkLen := len.value), big)
        else Result(st, r, Failed(BadLength))
    else if |r| < st.bulkLen + 2 then Result(st, r, More)
    else Bulks(r[st.bulkLen + 2..], State(st.nbulk - 1, 0, st.argv + [r[..st.bulkLen]]), big)
  }

  /** One turn of the loop: a header, or a body. */
  lemma BulksTurnHeader(r: seq<byte>, st: State, big: bool)
    requires st.nbulk > 0 && st.bulkLen == 0
    ensures var e := FindCrlf(r, 0);
            Bulks(r, st, big) ==
              if e < 0 then Result(st, r, if big then Failed(OverLimit) else More)
              else if r[0] != DOLLAR then Result(st, r, Failed(NoDollar))
              else if !GoodLength(Str2ll(r[1..e])) then Result(st, r, Failed(BadLength))
              else Bulks(r[e + 2..], st.(bulkLen := Str2ll(r[1..e]).value), big)
  {
    hide FindCrlf, Str2ll;
  }

  lemma BulksTurnBody(r: seq<byte>, st: State, big: bool)
    requires st.nbulk > 0 && st.bulkLen > 0
    ensures Bulks(r, st, big) ==
              if |r| < st.bulkLen + 2 then Result(st, r, More)
              else Bulks(r[st.bulkLen + 2..], State(st.nbulk - 1, 0, st.argv + [r[..st.bulkLen]]), big)
  {
  }

  lemma BulksEnds(r: seq<byte>, st: State, big: bool)
    requires st.nbulk == 0
    ensures Bulks(r, st, big) == Result(st, r, Done)
  {
  }

  function Pass(s: seq<byte>, st: State): Result
  {
    var big := |s| > MAX_COMMAND_LEN_LIMIT;
    if st.nbulk != 0 then Bulks(s, st, big)
    else if s == [] || s[0] != STAR then Result(st, s, Failed(UnknownProtocol))
    else
      var e := FindCrlf(s, 0);
      if e < 0 then Result(st, s, if big then Failed(OverLimit) else InHeader)
      else
        var count := Str2ll(s[1..e]);
        if GoodCount(count) then Bulks(s[e + 2..], State(count.value, st.bulkLen, []), big)
        else Result(st, s, Failed(BadCount))
  }

  // ---------- the grammar ----------

  /** A bulk string as the parser takes it: the two bytes after the body are not looked at. */
  datatype Item = Item(text: seq<byte>, body: seq<byte>, tail: seq<byte>)

  predicate ItemOk(i: Item)
  {
    GoodLength(Str2ll(i.text)) && Str2ll(i.text) == Some(|i.body|) && |i.tail| == 2
  }

  function Head(c: byte, text: seq<byte>): seq<byte> { [c] + text + CRLF }

  function Flat(items: seq<Item>): seq<byte>
  {
    if items == [] then [] else Head(DOLLAR, items[0].text) + items[0].body + items[0].tail + Flat(items[1..])
  }

  function Bodies(items: seq<Item>): (r: seq<seq<byte>>)
    ensures |r| == |items|
  {
    if items == [] then [] else [items[0].body] + Bodies(items[1..])
  }

  predicate CountOk(text: seq<byte>, n: nat)
  {
    GoodCount(Str2ll(text)) && Str2ll(text) == Some(n)
  }

  /** Numbers hold no NUL and no CR, so the search finds the CRLF right after them. */
  lemma {:induction false} FindAfterText(pre: seq<byte>, text: seq<byte>, more: seq<byte>, pos: nat)
    requires Str2ll(text).Some? && |pre| == 1 && pre[0] != CR && pre[0] != 0 && pos <= |text| + 1
    ensures FindCrlf(pre + text + CRLF + more, pos) == |text| + 1
    decreases |text| + 1 - pos
  {
    var s := pre + text + CRLF + more;
    AcceptedIsExactIff(text);
    if pos <= |text| {
      if pos > 0 {
        assert s[pos] == text[pos - 1];
        assert text[pos - 1] == MINUS || IsDigit(text[pos - 1]) by {
          if Body(text) != text && pos > 1 { assert text[pos - 1] == Body(text)[pos - 2]; }
        }
      }
      FindAfterText(pre, text, more, pos + 1);
    }
  }

  /** The three parts of a header followed by anything. */
  lemma HeadParts(c: byte, text: seq<byte>, after: seq<byte>)
    requires Str2ll(text).Some? && c != CR && c != 0
    ensures var s := Head(c, text) + after;
            s[0] == c && FindCrlf(s, 0) == |text| + 1 && s[1..|text| + 1] == text && s[|text| + 3..] == after
  {
    var s := Head(c, text) + after;
    assert s == [c] + text + CRLF + after;
    FindAfterText([c], text, after, 0);
  }

  function Whole(i: Item): seq<byte> { Head(DOLLAR, i.text) + i.body + i.tail }

  lemma BulksItem(i: Item, rest: seq<byte>, n: nat, argv: seq<seq<byte>>, big: bool)
    requires ItemOk(i)
    ensures Bulks(Whole(i) + rest, State(n + 1, 0, argv), big) == Bulks(rest, State(n, 0, argv + [i.body]), big)
  {
    hide Head, FindCrlf;
    var after := i.body + i.tail + rest;
    assert Whole(i) + rest == Head(DOLLAR, i.text) + after;
    HeadParts(DOLLAR, i.text, after);
    assert after[..|i.body|] == i.body && after[|i.body| + 2..] == rest;
    var st := State(n + 1, |i.body|, argv);
    assert Bulks(Whole(i) + rest, State(n + 1, 0, argv), big) == Bulks(after, st, big);
    assert Bulks(after, st, big) == Bulks(rest, State(n, 0, argv + [i.body]), big);
  }

  /** Every word of the grammar is accepted, with its bodies as arguments. */
  lemma {:induction false} BulksComplete(items: seq<Item>, more: seq<byte>, argv: seq<seq<byte>>, big: bool)
    requires forall i :: 0 <= i < |items| ==> ItemOk(items[i])
    ensures Bulks(Flat(items) + more, State(|items|, 0, argv), big)
         == Result(State(0, 0, argv + Bodies(items)), more, Done)
    decreases |items|
  {
    hide Bulks, Whole, ItemOk, Flat;
    if items == [] {
      NoItems(more);
      BulksEnds(more, State(0, 0, argv), big);
      assert argv + Bodies(items) == argv;
    } else {
      var i, rest := items[0], Flat(items[1..]) + more;
      FlatFirst(items, more);
      BulksItem(i, rest, |items| - 1, argv, big);
      BulksComplete(items[1..], more, argv + [i.body], big);
      assert argv + [i.body] + Bodies(items[1..]) == argv + Bodies(items);
    }
  }

  lemma NoItems(more: seq<byte>)
    ensures Flat([]) + more == more
  {
  }

  lemma FlatFirst(items: seq<Item>, more: seq<byte>)
    requires items != []
    ensures Flat(items) + more == Whole(items[0]) + (Flat(items[1..]) + more)
  {
    hide Whole;
    assert Flat(items) == Whole(items[0]) + Flat(items[1..]) by { FlatWhole(items); }
  }

  lemma FlatWhole(items: seq<Item>)
    requires items != []
    ensures Flat(items) == Whole(items[0]) + Flat(items[1..])
  {
  }

  lemma GrammarAccepted(text: seq<byte>, items: seq<Item>, more: seq<byte>)
    requires CountOk(text, |items|) && forall i :: 0 <= i < |items| ==> ItemOk(items[i])
    ensures Pass(Head(STAR, text) + Flat(items) + more, FRESH) == Result(State(0, 0, Bodies(items)), more, Done)
  {
    hide Head, Flat, FindCrlf, Bulks, ItemOk;
    var after := Flat(items) + more;
    var s := Head(STAR, text) + Flat(items) + more;
    assert s == Head(STAR, text) + after;
    HeadParts(STAR, text, after);
    BulksComplete(items, more, [], |s| > MAX_COMMAND_LEN_LIMIT);
    assert [] + Bodies(items) == Bodies(items);
  }

  lemma HeadOf(s: seq<byte>)
    requires FindCrlf(s, 0) > 0
    ensures var e := FindCrlf(s, 0); s == Head(s[0], s[1..e]) + s[e + 2..]
  {
  }

  /** One turn through both halves of a loop that finishes. */
  lemma BulksTurn(r: seq<byte>, st: State, big: bool) returns (i: Item, rest: seq<byte>)
    requires st.bulkLen == 0 && st.nbulk > 0 && Bulks(r, st, big).verdict == Done
    ensures ItemOk(i) && r == Whole(i) + rest
    ensures Bulks(r, st, big) == Bulks(rest, State(st.nbulk - 1, 0, st.argv + [i.body]), big)
  {
    hide Bulks, Head, FindCrlf, Str2ll;
    var e := FindCrlf(r, 0);
    BulksTurnHeader(r, st, big);
    HeadOf(r);
    BulksTurnBody(r[e + 2..], st.(bulkLen := Str2ll(r[1..e]).value), big);
    var n := Str2ll(r[1..e]).value;
    var after := r[e + 2..];
    assert Bulks(r, st, big) == Bulks(after, st.(bulkLen := n), big);
    i, rest := Item(r[1..e], after[..n], after[n..n + 2]), after[n + 2..];
    assert after == i.body + i.tail + rest;
  }

  /** What is accepted is a word of the grammar: the items that a finished loop went through. */
  lemma {:induction false} BulksSound(r: seq<byte>, st: State, big: bool) returns (items: seq<Item>)
    requires st.bulkLen == 0 && Bulks(r, st, big).verdict == Done
    ensures |items| == st.nbulk && forall i :: 0 <= i < |items| ==> ItemOk(items[i])
    ensures r == Flat(items) + Bulks(r, st, big).rest
    ensures Bulks(r, st, big).st == State(0, 0, st.argv + Bodies(items))
    decreases st.nbulk
  {
    if st.nbulk == 0 {
      items := [];
      assert st.argv + [] == st.argv && [] + r == r;
    } else {
      hide Bulks, Whole, ItemOk;
      var i, rest := BulksTurn(r, st, big);
      var tl := BulksSound(rest, State(st.nbulk - 1, 0, st.argv + [i.body]), big);
      items := [i] + tl;
      assert items[1..] == tl;
      FlatFirst(items, Bulks(r, st, big).rest);
      assert st.argv + [i.body] + Bodies(tl) == st.argv + Bodies(items);
    }
  }

  /** Result 0 on a fresh connection: the buffer starts with a command, and argv are its bodies. */
  lemma AcceptedIsGrammar(s: seq<byte>) returns (text: seq<byte>, items: seq<Item>)
    requires Pass(s, FRESH).verdict == Done
    ensures CountOk(text, |items|) && forall i :: 0 <= i < |items| ==> ItemOk(items[i])
    ensures s == Head(STAR, text) + Flat(items) + Pass(s, FRESH).rest
    ensures Pass(s, FRESH).st == State(0, 0, Bodies(items))
  {
    hide Head, Flat, FindCrlf, Bulks, ItemOk;
    var e := FindCrlf(s, 0);
    HeadOf(s);
    text := s[1..e];
    var after, rest := s[e + 2..], Pass(s, FRESH).rest;
    items := BulksSound(after, State(Str2ll(text).value, 0, []), |s| > MAX_COMMAND_LEN_LIMIT);
    assert [] + Bodies(items) == Bodies(items);
    assert Head(STAR, text) + (Flat(items) + rest) == Head(STAR, text) + Flat(items) + rest;
  }

  // ---------- printing a command ----------

  function ItemOf(arg: seq<byte>): Item { Item(Print(|arg|), arg, CRLF) }

  function ItemsOf(args: seq<seq<byte>>): (r: seq<Item>)
    ensures |r| == |args| && forall i :: 0 <= i < |r| ==> r[i] == ItemOf(args[i])
  {
    if args == [] then [] else [ItemOf(args[0])] + ItemsOf(args[1..])
  }

  /** `*n`, then every argument in the layout of `reply_bulk`. */
  function Encode(args: seq<seq<byte>>): seq<byte>
  {
    Head(STAR, Print(|args|)) + Flat(ItemsOf(args))
  }

  predicate Encodable(args: seq<seq<byte>>)
  {
    0 < |args| <= MAX_BULKS && forall i :: 0 <= i < |args| ==> 0 < |args[i]| <= MAX_COMMAND_LEN_LIMIT
  }

  /** The printed commands: 1 to 1024 arguments of 1 to 0x10240 bytes, in the layout of the protocol. */
  lemma EncodeIs(args: seq<seq<byte>>)
    ensures Encodable(args) <==> 1 <= |args| <= 1024 && forall i :: 0 <= i < |args| ==> 1 <= |args[i]| <= 0x10240
    ensures Encode(args) == [42] + Print(|args|) + [13, 10] + Flat(ItemsOf(args))
    ensures args != [] ==>
              Flat(ItemsOf(args)) == [36] + Print(|args[0]|) + [13, 10] + args[0] + [13, 10] + Flat(ItemsOf(args[1..]))
  {
    hide Print;
    if args != [] { FlatWhole(ItemsOf(args)); }
  }

  lemma {:induction false} BodiesOfItems(args: seq<seq<byte>>)
    ensures Bodies(ItemsOf(args)) == args
  {
    if args != [] { BodiesOfItems(args[1..]); }
  }

  /** Parsing undoes printing, whatever bytes the arguments hold and whatever follows. */
  lemma ParseUndoesPrint(args: seq<seq<byte>>, more: seq<byte>)
    requires Encodable(args)
    ensures Pass(Encode(args) + more, FRESH) == Result(State(0, 0, args), more, Done)
  {
    RoundTrip(|args|);
    forall i | 0 <= i < |args| ensures ItemOk(ItemsOf(args)[i]) { RoundTrip(|args[i]|); }
    GrammarAccepted(Print(|args|), ItemsOf(args), more);
    BodiesOfItems(args);
  }
}
