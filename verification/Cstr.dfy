/** Counted strings: a header with `len` and `free`, and a buffer that is one byte longer. */
module Cstr {
  import opened Decimal

  const UINT32_MAX := 0xFFFF_FFFF

  function Max(a: int, b: int): int { if a < b then b else a }

  /** What `cstr_range(s, b, e)` leaves of contents `c`.  The end is exclusive; a negative bound
      counts from the end of the contents, and an end beyond them means all but the last byte. */
  function Slice(c: seq<byte>, b: int, e: int): (r: seq<byte>)
    ensures |r| <= |c|
  {
    var end := if e < 0 then Max(e + |c|, 0) else e;
    var begin := if b < 0 then Max(b + |c|, 0) else b;
    if begin >= end || begin > |c| then []
    else if end <= |c| then c[begin..end]
    else if begin < |c| - 1 then c[begin..|c| - 1]
    else []
  }

  /** The form in which the command parser calls it: the last byte is always dropped. */
  lemma SliceToMinusOne(c: seq<byte>, b: nat)
    ensures Slice(c, b, -1) == if b + 1 < |c| then c[b..|c| - 1] else []
  {
  }

  /** For every pair of bounds: a negative one counts from the end, down to the beginning; bounds in order
      cut out what is between them; and an end beyond the contents leaves out the last byte. */
  lemma SliceBounds(c: seq<byte>, b: int, e: int)
    ensures b < 0 ==> Slice(c, b, e) == Slice(c, if |c| + b < 0 then 0 else |c| + b, e)
    ensures e < 0 ==> Slice(c, b, e) == Slice(c, b, if |c| + e < 0 then 0 else |c| + e)
    ensures 0 <= b <= e <= |c| ==> Slice(c, b, e) == c[b..e]
    ensures 0 <= e < b ==> Slice(c, b, e) == []
    ensures 0 <= b < |c| < e ==> Slice(c, b, e) == c[b..|c| - 1]
    ensures |c| <= b && |c| < e ==> Slice(c, b, e) == []
  {
  }

  class Str {
    var buf: array<byte>
    var len: nat
    var free: nat

    ghost predicate Valid()
      reads this
    {
      free <= len && buf.Length == len + 1
    }

    ghost function Contents(): seq<byte>
      requires Valid()
      reads this, buf
    {
      buf[..len - free]
    }

    /** A NUL follows the contents, as C string functions need. */
    ghost predicate Terminated()
      requires Valid()
      reads this, buf
    {
      buf[len - free] == 0
    }

    /** `cstr_create`: nothing used; only the last byte of the buffer is set. */
    constructor (n: nat)
      ensures Valid() && fresh(buf) && Contents() == [] && len == n
    {
      buf := new byte[n + 1];
      len, free := n, n;
      new;
      buf[n] := 0;
    }

    /** `cstr_new`. */
    constructor New(c: seq<byte>)
      ensures Valid() && fresh(buf) && Contents() == c && Terminated() && free == 0
    {
      var b := new byte[|c| + 1];
      buf := b;
      len, free := |c|, 0;
      new;
      Copy(b, 0, c);
      b[|c|] := 0;
    }

    /** `cstr_extend`: room for `add` more bytes, doubling when it must grow. */
    method Extend(add: nat)
      requires Valid() && (len - free + add) * 2 <= UINT32_MAX
      modifies this
      ensures Valid() && Contents() == old(Contents()) && free >= add
      ensures if old(free) >= add then buf == old(buf) && len == old(len) && free == old(free)
              else fresh(buf) && len == (|old(Contents())| + add) * 2
    {
      var used := len - free;
      if free >= add { return; }
      var n := (used + add) * 2;
      var grown := new byte[n + 1];
      Copy(grown, 0, buf[..]);
      assert grown[..used] == old(buf[..used]);
      buf, len, free := grown, n, n - used;
    }

    /** `cstr_ncat`. */
    method Ncat(b: seq<byte>)
      requires Valid() && (len - free + |b|) * 2 <= UINT32_MAX
      modifies this, buf
      ensures Valid() && Contents() == old(Contents()) + b && Terminated() && (buf == old(buf) || fresh(buf))
    {
      Extend(|b|);
      ghost var c := Contents();
      Copy(buf, len - free, b);
      free := free - |b|;
      buf[len - free] := 0;
      assert Contents() == c + b;
    }

    /** `cstr_clear`. */
    method Clear()
      requires Valid()
      modifies this, buf
      ensures Valid() && Contents() == [] && Terminated() && buf == old(buf) && len == old(len)
    {
      free := len;
      buf[0] := 0;
    }

    /** The arithmetic of `cstr_range`: keep `nlen` bytes from `begin`. */
    static method Bounds(used: nat, b: int, e: int) returns (begin: int, nlen: int)
      ensures 0 <= nlen && 0 <= begin && (nlen > 0 ==> begin + nlen <= used)
      ensures forall c: seq<byte> :: |c| == used ==> Slice(c, b, e) == if nlen > 0 then c[begin..begin + nlen] else []
    {
      var end := e;
      begin := b;
      if end < 0 {
        end := end + used;
        if end < 0 { end := 0; }
      }
      if begin < 0 {
        begin := begin + used;
        if begin < 0 { begin := 0; }
      }
      nlen := if begin < end then end - begin else 0;
      if nlen != 0 {
        if begin > used {
          nlen := 0;
        } else if end > used {
          end := used - 1;
          nlen := if begin < end then end - begin else 0;
        }
      }
    }

    /** `cstr_range`. */
    method Range(b: int, e: int)
      requires Valid()
      modifies this, buf
      ensures Valid() && Contents() == Slice(old(Contents()), b, e) && Terminated()
      ensures buf == old(buf) && len == old(len)
    {
      hide Slice;
      var used := len - free;
      var begin, nlen := Bounds(used, b, e);
      ghost var c := Contents();
      if nlen != 0 && begin != 0 {
        Copy(buf, 0, buf[begin..begin + nlen]);
      }
      buf[nlen] := 0;
      free := free + (used - nlen);
      assert nlen > 0 ==> buf[..nlen] == c[begin..begin + nlen];
    }

    /** `cstr_dup`. */
    method Dup() returns (s: Str)
      requires Valid() && (len - free) * 2 <= UINT32_MAX
      ensures fresh(s) && s.Valid() && fresh(s.buf) && s.Contents() == Contents() && s.Terminated()
    {
      var used := len - free;
      s := new Str(used);
      s.Ncat(buf[..used]);
    }
  }

  // ---------- splitting at a one-byte separator ----------

  /** The pieces of `cur + s`, where `cur` has no separator. */
  function Pieces(s: seq<byte>, sep: byte, cur: seq<byte>): (r: seq<seq<byte>>)
    ensures |r| > 0
    decreases |s|
  {
    if s == [] then [cur]
    else if s[0] == sep then [cur] + Pieces(s[1..], sep, [])
    else Pieces(s[1..], sep, cur + [s[0]])
  }

  function Join(pieces: seq<seq<byte>>, sep: byte): seq<byte>
    requires pieces != []
  {
    if |pieces| == 1 then pieces[0] else pieces[0] + [sep] + Join(pieces[1..], sep)
  }

  function Count(s: seq<byte>, sep: byte): nat
  {
    if s == [] then 0 else (if s[0] == sep then 1 else 0) + Count(s[1..], sep)
  }

  lemma {:induction false} PiecesJoin(s: seq<byte>, sep: byte, cur: seq<byte>)
    ensures Join(Pieces(s, sep, cur), sep) == cur + s
    decreases |s|
  {
    if s == [] {
    } else if s[0] == sep {
      PiecesJoin(s[1..], sep, []);
      assert Pieces(s, sep, cur)[1..] == Pieces(s[1..], sep, []);
      assert cur + [sep] + ([] + s[1..]) == cur + s;
    } else {
      PiecesJoin(s[1..], sep, cur + [s[0]]);
      assert cur + [s[0]] + s[1..] == cur + s;
    }
  }

  lemma {:induction false} PiecesAreFree(s: seq<byte>, sep: byte, cur: seq<byte>)
    requires sep !in cur
    ensures |Pieces(s, sep, cur)| == Count(s, sep) + 1
    ensures forall p :: p in Pieces(s, sep, cur) ==> sep !in p
    decreases |s|
  {
    if s == [] {
    } else if s[0] == sep {
      PiecesAreFree(s[1..], sep, []);
    } else {
      PiecesAreFree(s[1..], sep, cur + [s[0]]);
    }
  }

  /** Splitting and joining are inverse: pieces free of the separator that join to `s`
      are the pieces of `s`. */
  lemma {:induction false} JoinPieces(ps: seq<seq<byte>>, sep: byte)
    requires ps != [] && forall i :: 0 <= i < |ps| ==> sep !in ps[i]
    ensures Pieces(Join(ps, sep), sep, []) == ps
    decreases |ps|
  {
    if |ps| == 1 {
      PiecesOfFree(ps[0], sep, [], []);
      assert ps[0] + [] == ps[0] && [] + ps[0] == ps[0];
    } else {
      var rest := [sep] + Join(ps[1..], sep);
      assert Join(ps, sep) == ps[0] + rest;
      PiecesOfFree(ps[0], sep, [], rest);
      assert [] + ps[0] == ps[0] && rest[1..] == Join(ps[1..], sep);
      JoinPieces(ps[1..], sep);
    }
  }

  lemma {:induction false} PiecesOfFree(a: seq<byte>, sep: byte, cur: seq<byte>, rest: seq<byte>)
    requires sep !in a
    ensures Pieces(a + rest, sep, cur) == Pieces(rest, sep, cur + a)
    decreases |a|
  {
    if a == [] {
      assert a + rest == rest && cur + a == cur;
    } else {
      assert (a + rest)[1..] == a[1..] + rest && cur + [a[0]] + a[1..] == cur + a;
      PiecesOfFree(a[1..], sep, cur + [a[0]], rest);
    }
  }

  /** `cstr_split` with a one-byte separator.  The array grows by five before an element could
      be written beyond it; the write after the loop needs no check of its own. */
  method Split(s: seq<byte>, sep: byte) returns (pieces: array<seq<byte>>, size: nat)
    requires s != []
    ensures fresh(pieces) && size <= pieces.Length && pieces[..size] == Pieces(s, sep, [])
  {
    pieces, size := new seq<byte>[0], 0;
    var beg := 0;
    for i := 0 to |s|
      invariant beg <= i && fresh(pieces)
      invariant i > 0 ==> size < pieces.Length
      invariant size <= pieces.Length && pieces[..size] + Pieces(s[i..], sep, s[beg..i]) == Pieces(s, sep, [])
    {
      if size + 1 >= pieces.Length {
        var grown := new seq<byte>[pieces.Length + 5](_ => []);
        forall k | 0 <= k < size { grown[k] := pieces[k]; }
        assert grown[..size] == pieces[..size];
        pieces := grown;
      }
      assert s[i..][1..] == s[i + 1..];
      if s[i] == sep {
        ghost var before := pieces[..size];
        pieces[size] := s[beg..i];
        assert pieces[..size + 1] == before + [s[beg..i]];
        ghost var rest := Pieces(s[i + 1..], sep, []);
        assert before + ([s[beg..i]] + rest) == before + [s[beg..i]] + rest;
        beg := i + 1;
        size := size + 1;
        assert s[beg..i + 1] == [];
      } else {
        assert s[beg..i + 1] == s[beg..i] + [s[i]];
      }
    }
    ghost var before := pieces[..size];
    assert s[|s|..] == [] && s[beg..|s|] == s[beg..];
    pieces[size] := s[beg..];
    size := size + 1;
    assert pieces[..size] == before + [s[beg..]];
  }
}
