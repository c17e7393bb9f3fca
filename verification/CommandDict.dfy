/** The command table: hash and comparison of its keys, registration and dispatch. */
module CommandDict {
  import opened Decimal
  import opened Cstr
  import opened TableIndex
  import opened DictHeap
  import M = DictModel
  import R = DictRefine
  import U = DictRuns

  const WORD := 0x1_0000_0000

  /** A byte read through a signed `char`. */
  function Signed(c: byte): int { if c < 128 then c else c - 256 }

  /** The hash before any wrap-around. */
  function Poly(s: seq<byte>): int
  {
    if s == [] then 5381 else 33 * Poly(s[..|s| - 1]) + Signed(s[|s| - 1])
  }

  function KeyHash(s: seq<byte>): nat { Poly(s) % WORD }

  /** Shifting, adding and adding the byte, each modulo 2^32. */
  lemma HashStep(p: int, c: int)
    ensures ((p % WORD * 32 % WORD + p % WORD) % WORD + c) % WORD == (33 * p + c) % WORD
  {
    var r := p % WORD;
    assert p == p / WORD * WORD + r;
    assert 33 * p + c == 33 * r + c + 33 * (p / WORD) * WORD;
  }

  function Power33(n: nat): nat { if n == 0 then 1 else 33 * Power33(n - 1) }

  /** Each byte, read as signed, times 33 to the number of bytes after it. */
  function Weighted(s: seq<byte>): int
  {
    if s == [] then 0
    else (if s[0] < 128 then s[0] else s[0] - 256) * Power33(|s| - 1) + Weighted(s[1..])
  }

  lemma {:induction false} WeightedLast(s: seq<byte>)
    requires s != []
    ensures Weighted(s) == 33 * Weighted(s[..|s| - 1]) + Signed(s[|s| - 1])
    decreases |s|
  {
    var n := |s| - 1;
    if n > 0 {
      WeightedLast(s[1..]);
      assert s[1..][..n - 1] == s[..n][1..];
      Shift(Signed(s[0]), Power33(n - 1));
    }
  }

  lemma Shift(v: int, p: int)
    ensures v * (33 * p) == 33 * (v * p)
  {
  }

  /** The hash of every key is 5381 times 33 to its length, plus the weighted bytes, modulo 2^32. */
  lemma {:induction false} HashClosed(s: seq<byte>)
    ensures KeyHash(s) == (5381 * Power33(|s|) + Weighted(s)) % 0x1_0000_0000
  {
    PolyClosed(s);
  }

  lemma {:induction false} PolyClosed(s: seq<byte>)
    ensures Poly(s) == 5381 * Power33(|s|) + Weighted(s)
  {
    if s != [] {
      WeightedLast(s);
      PolyClosed(s[..|s| - 1]);
    }
  }

  /** `hash`, that is `dict_generic_hash` over the used bytes of the key. */
  method Hash(key: Str) returns (h: nat)
    requires key.Valid()
    ensures h == KeyHash(key.Contents()) < WORD
  {
    ghost var c := key.Contents();
    h := 5381;
    var i := 0;
    var len := key.len - key.free;
    while i < len
      invariant i <= len && h == KeyHash(c[..i])
    {
      assert c[..i + 1][..i] == c[..i] && key.buf[i] == c[i];
      HashStep(Poly(c[..i]), Signed(c[i]));
      h := ((h * 32 % WORD + h) % WORD + Signed(key.buf[i])) % WORD;
      i := i + 1;
    }
    assert c[..len] == c;
  }

  /** `command_key_compare`: 1 exactly for equal contents, whatever room the two strings have. */
  method KeyCompare(a: Str, b: Str) returns (same: bool)
    requires a.Valid() && b.Valid()
    ensures same <==> a.Contents() == b.Contents()
  {
    var len := a.len - a.free;
    if len != b.len - b.free { return false; }
    ghost var p, q := a.Contents(), b.Contents();
    var i := 0;
    while i < len
      invariant i <= len && p[..i] == q[..i]
    {
      assert a.buf[i] == p[i] && b.buf[i] == q[i];
      if a.buf[i] != b.buf[i] { return false; }
      i := i + 1;
    }
    assert p[..len] == p && q[..len] == q;
    return true;
  }

  /** What the dictionary needs of the pair: keys that compare equal hash equally. */
  method EqualKeysHashEqually(a: Str, b: Str) returns (same: bool, h: nat, g: nat)
    requires a.Valid() && b.Valid()
    ensures same ==> h == g
    ensures same <==> a.Contents() == b.Contents()
  {
    same := KeyCompare(a, b);
    h := Hash(a);
    g := Hash(b);
  }

  // ---------- commands ----------

  datatype Symbolic = EQ | GT | LT | GE | LE

  datatype Command = Command(name: seq<byte>, symbolic: Symbolic, argc: int)

  /** What a command line does. */
  datatype Dispatch = Quit | Unknown | WrongArity | Call(cmd: Command)

  /** The table of the first command of each name. */
  function FirstOf(cmds: seq<Command>): (m: map<seq<byte>, Command>)
    ensures |m| <= |cmds|
    ensures forall k :: k in m ==> m[k] in cmds && m[k].name == k
  {
    if cmds == [] then map[]
    else
      var n := |cmds| - 1;
      var m := FirstOf(cmds[..n]);
      if cmds[n].name in m then m else m[cmds[n].name := cmds[n]]
  }

  /** With distinct names every command is found under its name. */
  lemma {:induction false} DistinctAllFound(cmds: seq<Command>, i: nat)
    requires forall j, k :: 0 <= j < k < |cmds| ==> cmds[j].name != cmds[k].name
    requires i < |cmds|
    ensures cmds[i].name in FirstOf(cmds) && FirstOf(cmds)[cmds[i].name] == cmds[i]
  {
    var n := |cmds| - 1;
    if i < n {
      DistinctAllFound(cmds[..n], i);
    } else {
      var m := FirstOf(cmds[..n]);
      forall k | k in m ensures k != cmds[n].name {
        var j :| 0 <= j < n && cmds[j] == m[k];
      }
    }
  }

  /** Enough and not too many arguments. */
  predicate ArityOk(cmd: Command, argc: nat)
  {
    cmd.argc >= 0 ==>
      match cmd.symbolic
      case EQ => argc == cmd.argc
      case LT => argc < cmd.argc
      case GT => argc > cmd.argc
      case LE => argc <= cmd.argc
      case GE => argc >= cmd.argc
  }

  function ToLower(c: byte): byte { if 65 <= c <= 90 then c + 32 else c }

  function Lower(s: seq<byte>): (r: seq<byte>)
    ensures |r| == |s| && forall i :: 0 <= i < |s| ==> r[i] == ToLower(s[i])
  {
    seq(|s|, i requires 0 <= i < |s| => ToLower(s[i]))
  }

  const QUIT: seq<byte> := [113, 117, 105, 116]

  /** `strcasecmp(s, "quit") == 0`: C strings end at the first NUL. */
  predicate SaysQuit(s: seq<byte>)
  {
    |s| >= 4 && Lower(s[..4]) == QUIT && (|s| == 4 || s[4] == 0)
  }

  /** What a line should do, told from a table. */
  function Outcome(m: map<seq<byte>, Command>, argv: seq<seq<byte>>): Dispatch
    requires argv != []
  {
    var name := Lower(argv[0]);
    if SaysQuit(argv[0]) then Quit
    else if name !in m then Unknown
    else if ArityOk(m[name], |argv|) then Call(m[name])
    else WrongArity
  }

  /** A command is called exactly for lines that name it, in any case, with enough arguments. */
  lemma DispatchIff(cmds: seq<Command>, i: nat, argv: seq<seq<byte>>)
    requires forall j, k :: 0 <= j < k < |cmds| ==> cmds[j].name != cmds[k].name
    requires i < |cmds| && argv != [] && !SaysQuit(cmds[i].name)
    ensures Outcome(FirstOf(cmds), argv) == Call(cmds[i])
       <==> Lower(argv[0]) == cmds[i].name && ArityOk(cmds[i], |argv|)
  {
    hide FirstOf, ArityOk;
    DistinctAllFound(cmds, i);
    SameWord(argv[0]);
  }

  /** A word says quit exactly if its lower-case form does. */
  lemma SameWord(a: seq<byte>)
    ensures SaysQuit(Lower(a)) <==> SaysQuit(a)
  {
    if |a| >= 4 {
      assert Lower(Lower(a)[..4]) == Lower(a[..4]);
    }
  }

  // ---------- dispatch, told from the words alone ----------

  /** `a` is `b` with its capital letters made small. */
  predicate Small(a: seq<byte>, b: seq<byte>)
  {
    |a| == |b| && forall i :: 0 <= i < |b| ==> a[i] == if 65 <= b[i] <= 90 then b[i] + 32 else b[i]
  }

  /** "quit" in any case, up to the first NUL. */
  predicate QuitWord(w: seq<byte>)
  {
    && |w| >= 4 && (w[0] == 113 || w[0] == 81) && (w[1] == 117 || w[1] == 85) && (w[2] == 105 || w[2] == 73)
    && (w[3] == 116 || w[3] == 84) && (|w| == 4 || w[4] == 0)
  }

  /** `n` words are enough for the command and not too many. */
  predicate Fits(c: Command, n: nat)
  {
    || c.argc < 0
    || (c.symbolic.EQ? && n == c.argc) || (c.symbolic.LT? && n < c.argc) || (c.symbolic.GT? && n > c.argc)
    || (c.symbolic.LE? && n <= c.argc) || (c.symbolic.GE? && n >= c.argc)
  }

  /** Command `i` is the first of its name, and its name is the word `w` in small letters. */
  predicate Named(cmds: seq<Command>, i: nat, w: seq<byte>)
  {
    i < |cmds| && Small(cmds[i].name, w) && forall j :: 0 <= j < i ==> cmds[j].name != cmds[i].name
  }

  lemma SmallIsLower(a: seq<byte>, b: seq<byte>)
    ensures Small(a, b) <==> a == Lower(b)
  {
  }

  lemma QuitIsWord(w: seq<byte>)
    ensures SaysQuit(w) <==> QuitWord(w)
  {
    if |w| >= 4 {
      var l := Lower(w[..4]);
      assert l[0] == ToLower(w[0]) && l[1] == ToLower(w[1]) && l[2] == ToLower(w[2]) && l[3] == ToLower(w[3]);
      if QuitWord(w) { assert l == QUIT; }
    }
  }

  /** Command `i` is the first one with the name `k`. */
  predicate FirstAt(cmds: seq<Command>, i: nat, k: seq<byte>)
  {
    i < |cmds| && cmds[i].name == k && forall j :: 0 <= j < i ==> cmds[j].name != k
  }

  /** The table holds the first command of every name, and no other name. */
  lemma {:induction false} FirstIsFirst(cmds: seq<Command>, k: seq<byte>) returns (i: nat)
    ensures k in FirstOf(cmds) ==> FirstAt(cmds, i, k) && FirstOf(cmds)[k] == cmds[i]
    ensures k !in FirstOf(cmds) ==> Absent(cmds, k)
    decreases |cmds|
  {
    i := 0;
    if cmds != [] {
      hide FirstAt, Absent, FirstOf;
      var n := |cmds| - 1;
      FirstGrows(cmds, k);
      i := FirstIsFirst(cmds[..n], k);
      AtPrefix(cmds, n, i, k);
      if k !in FirstOf(cmds[..n]) { i := n; }
    }
  }

  predicate Absent(cmds: seq<Command>, k: seq<byte>) { forall j :: 0 <= j < |cmds| ==> cmds[j].name != k }

  lemma AtPrefix(cmds: seq<Command>, n: nat, i: nat, k: seq<byte>)
    requires |cmds| == n + 1
    ensures FirstAt(cmds[..n], i, k) ==> FirstAt(cmds, i, k) && cmds[..n][i] == cmds[i]
    ensures Absent(cmds[..n], k) ==> if cmds[n].name == k then FirstAt(cmds, n, k) else Absent(cmds, k)
  {
    assert forall j :: 0 <= j < n ==> cmds[..n][j] == cmds[j];
  }

  lemma FirstGrows(cmds: seq<Command>, k: seq<byte>)
    requires cmds != []
    ensures var n, m := |cmds| - 1, FirstOf(cmds[..|cmds| - 1]);
            && (k in FirstOf(cmds) <==> k in m || cmds[n].name == k)
            && (k in FirstOf(cmds) ==> FirstOf(cmds)[k] == if k in m then m[k] else cmds[n])
  {
  }

  /** Every command line does exactly one of four things, and the words say which: it quits, it names no
      command, it has the wrong number of words, or the first command of that name is called. */
  lemma DispatchTable(cmds: seq<Command>, argv: seq<seq<byte>>)
    requires argv != []
    ensures var d, w := Outcome(FirstOf(cmds), argv), argv[0];
            && (d == Quit <==> QuitWord(w))
            && (d == Unknown <==> !QuitWord(w) && forall i :: 0 <= i < |cmds| ==> !Small(cmds[i].name, w))
            && (d == WrongArity <==> !QuitWord(w) && exists i: nat :: Named(cmds, i, w) && !Fits(cmds[i], |argv|))
            && (forall c :: d == Call(c) <==>
                  !QuitWord(w) && exists i: nat :: Named(cmds, i, w) && cmds[i] == c && Fits(c, |argv|))
  {
    hide FirstOf, SaysQuit, QuitWord, Lower, Small, Named, FirstAt, ArityOk, Fits;
    var m, w := FirstOf(cmds), argv[0];
    var name := Lower(w);
    QuitIsWord(w);
    var i := FirstIsFirst(cmds, name);
    NamesAre(cmds, w);
    if name in m {
      OnlyFirst(cmds, i, name);
      FitsIs(cmds[i], |argv|);
      assert Named(cmds, i, w) && Small(cmds[i].name, w);
    } else {
      NoneIsFirst(cmds, name);
    }
  }

  lemma FitsIs(c: Command, n: nat)
    ensures Fits(c, n) <==> ArityOk(c, n)
  {
  }

  lemma NoneIsFirst(cmds: seq<Command>, k: seq<byte>)
    requires Absent(cmds, k)
    ensures forall j: nat :: !FirstAt(cmds, j, k)
  {
  }

  lemma OnlyFirst(cmds: seq<Command>, i: nat, k: seq<byte>)
    requires FirstAt(cmds, i, k)
    ensures forall j: nat :: FirstAt(cmds, j, k) ==> j == i
    ensures i < |cmds| && cmds[i].name == k
  {
  }

  lemma NamesAre(cmds: seq<Command>, w: seq<byte>)
    ensures forall i :: 0 <= i < |cmds| ==> (Small(cmds[i].name, w) <==> cmds[i].name == Lower(w))
    ensures forall i: nat :: Named(cmds, i, w) <==> FirstAt(cmds, i, Lower(w))
  {
    forall i | 0 <= i < |cmds| ensures Small(cmds[i].name, w) <==> cmds[i].name == Lower(w) {
      SmallIsLower(cmds[i].name, w);
    }
    hide Small, Lower;
  }

  /** The commands that the server registers: ping, insert and get. */
  const COMMANDS: seq<Command> := [
    Command([112, 105, 110, 103], EQ, 1), Command([105, 110, 115, 101, 114, 116], GE, 5),
    Command([103, 101, 116], GE, 6)]

  /** A server with these commands: ping takes one word, insert at least five, get at least six. */
  method Answer(argv: seq<seq<byte>>) returns (r: Dispatch)
    requires argv != []
    ensures r == Quit <==> QuitWord(argv[0])
    ensures Small([112, 105, 110, 103], argv[0]) ==> r == if |argv| == 1 then Call(COMMANDS[0]) else WrongArity
    ensures Small([105, 110, 115, 101, 114, 116], argv[0]) ==>
              r == if |argv| >= 5 then Call(COMMANDS[1]) else WrongArity
    ensures Small([103, 101, 116], argv[0]) ==> r == if |argv| >= 6 then Call(COMMANDS[2]) else WrongArity
    ensures r == Unknown <==> !QuitWord(argv[0]) && forall i :: 0 <= i < 3 ==> !Small(COMMANDS[i].name, argv[0])
  {
    hide FirstOf, Outcome, QuitWord, Small;
    AnswerTable(argv);
    var cs := new Commands();
    cs.Register(COMMANDS);
    r := cs.Process(argv);
  }

  lemma AnswerTable(argv: seq<seq<byte>>)
    requires argv != []
    ensures var r, w := Outcome(FirstOf(COMMANDS), argv), argv[0];
            && (r == Quit <==> QuitWord(w))
            && (Small([112, 105, 110, 103], w) ==> r == if |argv| == 1 then Call(COMMANDS[0]) else WrongArity)
            && (Small([105, 110, 115, 101, 114, 116], w) ==> r == if |argv| >= 5 then Call(COMMANDS[1]) else WrongArity)
            && (Small([103, 101, 116], w) ==> r == if |argv| >= 6 then Call(COMMANDS[2]) else WrongArity)
            && (r == Unknown <==> !QuitWord(w) && forall i :: 0 <= i < 3 ==> !Small(COMMANDS[i].name, w))
  {
    hide FirstOf, Outcome, QuitWord, Small, Named;
    DispatchTable(COMMANDS, argv);
    Registered(argv);
    assert COMMANDS[0].name == [112, 105, 110, 103] && COMMANDS[2].name == [103, 101, 116];
    assert COMMANDS[1].name == [105, 110, 115, 101, 114, 116];
  }

  lemma Registered(argv: seq<seq<byte>>)
    requires argv != []
    ensures forall i, j :: 0 <= i < j < 3 ==> COMMANDS[i].name != COMMANDS[j].name
    ensures forall i :: 0 <= i < 3 && Small(COMMANDS[i].name, argv[0]) ==>
              !QuitWord(argv[0]) && Named(COMMANDS, i, argv[0])
  {
    var p, q, g := COMMANDS[0].name, COMMANDS[1].name, COMMANDS[2].name;
    assert |p| == 4 && |q| == 6 && |g| == 3;
    assert p[0] == 112 && q[0] == 105 && g[0] == 103;
  }

  class Commands {
    const dict: Dict<seq<byte>, Command>

    ghost predicate Valid()
      reads dict, dict.t0, dict.t1, dict.t0.Repr(), dict.t1.Repr()
    {
      dict.Valid() && dict.hash == KeyHash
    }

    ghost function Table(): map<seq<byte>, Command>
      requires Valid()
      reads dict, dict.t0, dict.t1, dict.t0.Repr(), dict.t1.Repr()
    {
      dict.Map()
    }

    /** `dict_create(&command_opts)`. */
    constructor ()
      ensures Valid() && fresh(dict.Repr()) && Table() == map[]
    {
      dict := new Dict<seq<byte>, Command>(KeyHash);
      U.EmptyOk<seq<byte>, Command>(KeyHash);
    }

    method RegisterOne(cmd: Command)
      requires Valid() && |Table()| < MAX_SIZE
      modifies dict.Repr()
      ensures Valid() && fresh(dict.Repr() - old(dict.Repr()))
      ensures Table() == if cmd.name in old(Table()) then old(Table()) else old(Table())[cmd.name := cmd]
    {
      hide M.Valid, M.ToMap, M.Add, KeyHash, Dict.Shape;
      R.AddRefines(KeyHash, dict.Model(), cmd.name, cmd);
      U.UsedCountsKeys(KeyHash, dict.Model());
      var rc := dict.Add(cmd.name, cmd);
    }

    /** `regist_commands`. */
    method Register(cmds: seq<Command>)
      requires Valid() && Table() == map[] && |cmds| <= MAX_SIZE
      modifies dict.Repr()
      ensures Valid() && fresh(dict.Repr() - old(dict.Repr())) && Table() == FirstOf(cmds)
    {
      hide Valid, Table, Dict.Repr;
      var i := 0;
      ghost var r := dict.Repr();
      while i < |cmds|
        invariant i <= |cmds| && Valid() && r == dict.Repr() && fresh(r - old(dict.Repr()))
        invariant Table() == FirstOf(cmds[..i])
      {
        assert cmds[..i + 1][..i] == cmds[..i];
        label Before:
        RegisterOne(cmds[i]);
        forall o | o in dict.Repr() && o !in r ensures fresh(o) { assert fresh@Before(o); }
        r := dict.Repr();
        i := i + 1;
      }
      assert cmds[..|cmds|] == cmds;
    }

    /** `process_commond`: the lookup rehashes, but the table stays what it was. */
    method Process(argv: seq<seq<byte>>) returns (r: Dispatch)
      requires Valid() && argv != []
      modifies dict.Repr()
      ensures Valid() && fresh(dict.Repr() - old(dict.Repr()))
      ensures Table() == old(Table())
      ensures r == Outcome(Table(), argv)
    {
      hide M.Valid, M.ToMap, M.Find, KeyHash, SaysQuit, Lower, Dict.Shape, Dict.Repr, Dict.Valid, Dict.Stands;
      dict.Facts();
      if SaysQuit(argv[0]) { return Quit; }
      R.FindRefines(dict.hash, dict.Model(), Lower(argv[0]));
      var entry, i, idx, n := dict.Find(Lower(argv[0]));
      if entry == null { return Unknown; }
      var cmd := entry.value;
      if cmd.argc >= 0 {
        var wrong := match cmd.symbolic
          case EQ => cmd.argc != |argv|
          case LT => cmd.argc <= |argv|
          case GT => cmd.argc >= |argv|
          case LE => cmd.argc < |argv|
          case GE => cmd.argc > |argv|;
        if wrong { return WrongArity; }
      }
      r := Call(cmd);
    }
  }
}
