/** Decimal text and 64-bit numbers: `str2ll` and `lltostr`. */
module Decimal {
  import opened Options

  type byte = x: int | 0 <= x < 256

  const ULLONG_MAX := 0xFFFF_FFFF_FFFF_FFFF
  const LLONG_MAX := 0x7FFF_FFFF_FFFF_FFFF
  const LLONG_MIN := -0x8000_0000_0000_0000

  const ZERO: byte := 48
  const MINUS: byte := 45

  predicate IsDigit(c: byte) { ZERO <= c <= ZERO + 9 }

  predicate AllDigits(ds: seq<byte>) { forall i :: 0 <= i < |ds| ==> IsDigit(ds[i]) }

  predicate InRange(l: int) { LLONG_MIN <= l <= LLONG_MAX }

  // ---------- the meaning of a text ----------

  /** The value of a digit string read after `v`. */
  function Val(ds: seq<byte>, v: nat): nat
    requires AllDigits(ds)
  {
    if ds == [] then v else Val(ds[1..], v * 10 + (ds[0] - ZERO))
  }

  function Body(text: seq<byte>): seq<byte>
  {
    if text != [] && text[0] == MINUS then text[1..] else text
  }

  /** An optional minus sign and digits. */
  predicate Decimal?(text: seq<byte>)
  {
    AllDigits(Body(text))
  }

  function Number(text: seq<byte>): int
    requires Decimal?(text)
  {
    if Body(text) != text then 0 - Val(Body(text), 0) else Val(text, 0)
  }

  // ---------- str2ll ----------

  /** The accumulator loop: the multiplication wraps, the addition is checked. */
  function Scan(ds: seq<byte>, v: nat): Option<nat>
  {
    if ds == [] then Some(v)
    else if !IsDigit(ds[0]) then None
    else
      var m := v * 10 % (ULLONG_MAX + 1);
      var i := ds[0] - ZERO;
      if m > ULLONG_MAX - i then None else Scan(ds[1..], m + i)
  }

  function Str2ll(text: seq<byte>): Option<int>
  {
    var r := Scan(Body(text), 0);
    if r.None? then None
    else if Body(text) != text then if r.value > -LLONG_MIN then None else Some(0 - r.value)
    else if r.value > LLONG_MAX then None else Some(r.value)
  }

  /** `str2ll` on the `len` bytes at `p`, with the byte that follows them: the code looks at `p[0]`
      even when `len` is 0. */
  method ParseLl(p: seq<byte>, len: nat) returns (r: Option<int>)
    requires len < |p| && (len == 0 ==> p[0] != MINUS)
    ensures r == Str2ll(p[..len])
  {
    var v, ptr, negative := 0, 0, false;
    if p[0] == MINUS {
      ptr := 1;
      negative := true;
    }
    ghost var body := Body(p[..len]);
    assert body == p[ptr..len];
    while ptr != len
      invariant ptr <= len && 0 <= v <= ULLONG_MAX
      invariant Scan(p[ptr..len], v) == Scan(body, 0)
    {
      var c := p[ptr];
      assert p[ptr..len][0] == c && p[ptr..len][1..] == p[ptr + 1..len];
      if c < ZERO || c > ZERO + 9 { return None; }
      v := v * 10 % (ULLONG_MAX + 1);
      var i := c - ZERO;
      if v > ULLONG_MAX - i { return None; }
      v := v + i;
      ptr := ptr + 1;
    }
    if negative {
      if v > -LLONG_MIN { return None; }
      r := Some(0 - v);
    } else {
      if v > LLONG_MAX { return None; }
      r := Some(v);
    }
  }

  /** Some digit is read when the number before it is too large to be multiplied by ten. */
  predicate Wraps(ds: seq<byte>, v: nat)
    requires AllDigits(ds)
  {
    exists k :: 0 <= k < |ds| && ULLONG_MAX / 10 < Val(ds[..k], v) <= ULLONG_MAX
  }

  lemma {:induction false} ValGrows(ds: seq<byte>, v: nat)
    requires AllDigits(ds)
    ensures Val(ds, v) >= v
    ensures ds != [] && v > ULLONG_MAX / 10 ==> Val(ds, v) > ULLONG_MAX
  {
    if ds != [] { ValGrows(ds[1..], v * 10 + (ds[0] - ZERO)); }
  }

  /** Moving the first digit from the string to the accumulator. */
  lemma WrapsStep(ds: seq<byte>, v: nat)
    requires ds != [] && AllDigits(ds)
    ensures Wraps(ds, v) <==> ULLONG_MAX / 10 < v <= ULLONG_MAX || Wraps(ds[1..], v * 10 + (ds[0] - ZERO))
  {
    var d, w := ds[1..], v * 10 + (ds[0] - ZERO);
    forall k | 0 < k <= |ds| ensures Val(ds[..k], v) == Val(d[..k - 1], w) {
      assert ds[..k][1..] == d[..k - 1];
    }
    if Wraps(ds, v) {
      var k :| 0 <= k < |ds| && ULLONG_MAX / 10 < Val(ds[..k], v) <= ULLONG_MAX;
      if k > 0 { assert ULLONG_MAX / 10 < Val(d[..k - 1], w) <= ULLONG_MAX; }
    }
    if ULLONG_MAX / 10 < v <= ULLONG_MAX { assert ULLONG_MAX / 10 < Val(ds[..0], v) <= ULLONG_MAX; }
    if Wraps(d, w) {
      var k :| 0 <= k < |d| && ULLONG_MAX / 10 < Val(d[..k], w) <= ULLONG_MAX;
      assert Val(ds[..k + 1], v) == Val(d[..k], w);
    }
  }

  /** Without a wrap the loop computes the exact value, or notices that it is too large. */
  lemma {:induction false} ScanExact(ds: seq<byte>, v: nat)
    requires AllDigits(ds) && v <= ULLONG_MAX && !Wraps(ds, v)
    ensures Scan(ds, v) == if Val(ds, v) <= ULLONG_MAX then Some(Val(ds, v)) else None
  {
    if ds != [] {
      WrapsStep(ds, v);
      var w := v * 10 + (ds[0] - ZERO);
      ValGrows(ds[1..], w);
      if w <= ULLONG_MAX { ScanExact(ds[1..], w); }
    }
  }

  lemma {:induction false} ScanDigits(ds: seq<byte>, v: nat)
    requires Scan(ds, v).Some?
    ensures AllDigits(ds)
  {
    if ds != [] { ScanDigits(ds[1..], v * 10 % (ULLONG_MAX + 1) + (ds[0] - ZERO)); }
  }

  lemma {:induction false} WrapsIsLarge(ds: seq<byte>, v: nat)
    requires AllDigits(ds) && Wraps(ds, v)
    ensures Val(ds, v) > ULLONG_MAX
  {
    if ds != [] {
      WrapsStep(ds, v);
      ValGrows(ds, v);
      if !(ULLONG_MAX / 10 < v <= ULLONG_MAX) { WrapsIsLarge(ds[1..], v * 10 + (ds[0] - ZERO)); }
    }
  }

  /** Only decimal text is accepted; and what is accepted is the exact value if and only if
      no multiplication wrapped. */
  lemma AcceptedIsExactIff(text: seq<byte>)
    requires Str2ll(text).Some?
    ensures Decimal?(text)
    ensures Str2ll(text).value == Number(text) <==> !Wraps(Body(text), 0)
  {
    ScanDigits(Body(text), 0);
    if Wraps(Body(text), 0) { WrapsIsLarge(Body(text), 0); } else { ScanExact(Body(text), 0); }
  }

  /** When no multiplication wraps, `str2ll` accepts exactly the numbers in range. */
  lemma AcceptsExactlyInRange(text: seq<byte>)
    requires Decimal?(text) && !Wraps(Body(text), 0)
    ensures Str2ll(text) == if InRange(Number(text)) then Some(Number(text)) else None
  {
    ScanExact(Body(text), 0);
  }

  /** In particular for every magnitude up to ULLONG_MAX. */
  lemma SmallNeverWraps(text: seq<byte>)
    requires Decimal?(text) && Val(Body(text), 0) <= ULLONG_MAX
    ensures !Wraps(Body(text), 0)
    ensures Str2ll(text) == if InRange(Number(text)) then Some(Number(text)) else None
  {
    if Wraps(Body(text), 0) { WrapsIsLarge(Body(text), 0); }
    AcceptsExactlyInRange(text);
  }

  lemma {:induction false} ScanSplit(a: seq<byte>, b: seq<byte>, v: nat)
    ensures Scan(a + b, v) == if Scan(a, v).None? then None else Scan(b, Scan(a, v).value)
  {
    if a == [] { assert a + b == b; } else {
      assert (a + b)[1..] == a[1..] + b;
      if IsDigit(a[0]) { ScanSplit(a[1..], b, v * 10 % (ULLONG_MAX + 1) + (a[0] - ZERO)); }
    }
  }

  lemma {:induction false} ValSplit(a: seq<byte>, b: seq<byte>, v: nat)
    requires AllDigits(a) && AllDigits(b)
    ensures Val(a + b, v) == Val(b, Val(a, v))
  {
    if a == [] { assert a + b == b; } else {
      assert (a + b)[1..] == a[1..] + b;
      ValSplit(a[1..], b, v * 10 + (a[0] - ZERO));
    }
  }

  // ---------- lltostr ----------

  function Digits(n: nat): (r: seq<byte>)
    ensures |r| > 0 && AllDigits(r)
  {
    if n < 10 then [ZERO + n] else Digits(n / 10) + [ZERO + n % 10]
  }

  function Print(l: int): seq<byte>
  {
    if l < 0 then [MINUS] + Digits(-l) else Digits(l)
  }

  function Pow10(k: nat): nat { if k == 0 then 1 else 10 * Pow10(k - 1) }

  lemma {:induction false} DigitsLength(n: nat, k: nat)
    requires k > 0
    ensures n < Pow10(k) <==> |Digits(n)| <= k
    decreases k
  {
    if n >= 10 && k > 1 { DigitsLength(n / 10, k - 1); }
    if k == 1 { assert Pow10(1) == 10; } else if n < 10 { PowAtLeast(k); }
  }

  lemma {:induction false} PowAtLeast(k: nat)
    requires k > 0
    ensures Pow10(k) >= 10
  {
    if k > 1 { PowAtLeast(k - 1); }
  }

  lemma TwentyDigits(n: nat)
    requires n <= ULLONG_MAX
    ensures |Digits(n)| <= 20
  {
    assert Pow10(5) == 100000;
    assert Pow10(10) == 10000000000;
    assert Pow10(15) == 1000000000000000;
    assert Pow10(20) == 100000000000000000000;
    DigitsLength(n, 20);
  }

  /** The digits, built from the end of a 64-byte buffer. */
  method FillDigits(n: nat) returns (buf: array<byte>, ptr: nat)
    requires n <= ULLONG_MAX
    ensures fresh(buf) && buf.Length == 64 && ptr < 64 && buf[ptr..] == Digits(n)
  {
    TwentyDigits(n);
    buf, ptr := new byte[64](_ => 0), 63;
    buf[ptr] := ZERO + n % 10;
    var ll := n / 10;
    while ll != 0
      invariant 0 <= ll && ptr < 64
      invariant (if ll == 0 then [] else Digits(ll)) + buf[ptr..] == Digits(n)
    {
      ptr := ptr - 1;
      buf[ptr] := ZERO + ll % 10;
      assert Digits(ll) == (if ll / 10 == 0 then [] else Digits(ll / 10)) + [ZERO + ll % 10];
      ll := ll / 10;
    }
    assert [] + buf[ptr..] == buf[ptr..];
  }

  /** memcpy. */
  method Copy(p: array<byte>, at: nat, s: seq<byte>)
    requires at + |s| <= p.Length
    modifies p
    ensures var was := old(p[..]); p[..] == was[..at] + s + was[at + |s|..]
  {
    forall i | 0 <= i < |s| { p[at + i] := s[i]; }
  }

  lemma SignAndDigits(was: seq<byte>, at: nat, ds: seq<byte>)
    requires at + 1 + |ds| <= |was|
    ensures var p := was[at := MINUS];
            p[..at + 1] + ds + p[at + 1 + |ds|..] == was[..at] + ([MINUS] + ds) + was[at + 1 + |ds|..]
  {
  }

  /** `lltostr`: writes at `p[at..]` if `size` bytes are enough, and -1 otherwise. */
  method PrintLl(l: int, p: array<byte>, at: nat, size: nat) returns (len: int)
    requires InRange(l) && at + size <= p.Length && (l < 0 ==> size > 0)
    modifies p
    ensures len == if |Print(l)| > size then -1 else |Print(l)|
    ensures var was, t := old(p[..]), Print(l);
            p[..] == if |t| > size then was else was[..at] + t + was[at + |t|..]
  {
    hide Digits;
    ghost var was := p[..];
    // the magnitude as an unsigned long long: also for LLONG_MIN
    var buf, ptr := FillDigits(if l < 0 then 0 - l else l);
    var ds, offset := buf[ptr..], 64 - ptr;
    assert |ds| == offset && Print(l) == if l < 0 then [MINUS] + ds else ds;
    hide Print;
    if l < 0 {
      if offset > size - 1 { return -1; }
      p[at] := MINUS;
      assert p[..] == was[at := MINUS];
      Copy(p, at + 1, ds);
      SignAndDigits(was, at, ds);
      len := offset + 1;
    } else {
      if offset > size { return -1; }
      Copy(p, at, ds);
      len := offset;
    }
  }

  lemma {:induction false} ValOfDigits(n: nat)
    ensures Val(Digits(n), 0) == n
  {
    if n >= 10 {
      ValOfDigits(n / 10);
      ValSplit(Digits(n / 10), [ZERO + n % 10], 0);
    }
  }

  /** Reading what was printed gives the number back, for every 64-bit value. */
  lemma RoundTrip(l: int)
    requires InRange(l)
    ensures Str2ll(Print(l)) == Some(l)
  {
    var n := if l < 0 then -l else l;
    ValOfDigits(n);
    assert Body(Print(l)) == Digits(n) by {
      if l < 0 { assert Print(l)[1..] == Digits(n); } else { assert IsDigit(Digits(n)[0]); }
    }
    SmallNeverWraps(Print(l));
  }

  /** No text shorter than the printed form is read as a given positive number. */
  lemma PrintIsShortest(text: seq<byte>)
    requires Str2ll(text).Some? && Str2ll(text).value > 0
    ensures |text| >= |Print(Str2ll(text).value)|
  {
    var l := Str2ll(text).value;
    AcceptedIsExactIff(text);
    ScanDigits(Body(text), 0);
    if Wraps(Body(text), 0) { WrapsIsLarge(Body(text), 0); }
    ValBound(Body(text), 0);
    DigitsLength(l, |text|);
  }

  lemma MulGrows(a: nat, b: nat, p: nat)
    requires a <= b
    ensures a * p <= b * p
  {
    assert (b - a) * p >= 0;
  }

  lemma {:induction false} ValBound(ds: seq<byte>, v: nat)
    requires AllDigits(ds)
    ensures Val(ds, v) < (v + 1) * Pow10(|ds|)
  {
    if ds != [] {
      var w := v * 10 + (ds[0] - ZERO);
      ValBound(ds[1..], w);
      var p := Pow10(|ds| - 1);
      MulGrows(w + 1, (v + 1) * 10, p);
      assert (v + 1) * 10 * p == (v + 1) * (10 * p);
    }
  }

  /** 2^63 followed by the digit 1 is accepted, as the number 1. */
  lemma WrapIsReachable() returns (text: seq<byte>)
    ensures Decimal?(text) && Str2ll(text) == Some(1) && Number(text) != 1
  {
    var n := -LLONG_MIN;
    var ds := Digits(n);
    text := ds + [49];
    ValOfDigits(n);
    ScanSplit(ds, [49], 0);
    ValSplit(ds, [49], 0);
    if Wraps(ds, 0) { WrapsIsLarge(ds, 0); }
    ScanExact(ds, 0);
    assert Scan([49], n) == Some(1);
    assert IsDigit(ds[0]) && Body(text) == text;
    assert Val([49], n) == n * 10 + 1;
  }
}
