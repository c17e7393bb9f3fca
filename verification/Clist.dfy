/** The circular doubly linked list behind the fired queue. */
module Clist {

  class Item<T> {
    var prev: Item<T>
    var next: Item<T>
    var data: T

    /** Linked to itself, as the PUSH macro leaves the first element. */
    constructor (data: T)
      ensures this.data == data && prev == this && next == this
    {
      this.data, prev, next := data, this, this;
    }
  }

  /** Position after `i`, and before it, on a circle of `n`. */
  function Succ(i: nat, n: nat): nat { if i + 1 >= n then 0 else i + 1 }

  function Pred(i: nat, n: nat): int { if i == 0 then n - 1 else i - 1 }

  ghost predicate Distinct<T>(c: seq<Item<T>>)
  {
    forall i, j :: 0 <= i < j < |c| ==> c[i] != c[j]
  }

  /** `next` and `prev` of element `i` lead to its neighbours. */
  ghost predicate Joined<T>(c: seq<Item<T>>, i: nat)
    requires i < |c|
    reads c
  {
    c[i].next == c[Succ(i, |c|)] && c[i].prev == c[Pred(i, |c|)]
  }

  ghost predicate Circle<T>(c: seq<Item<T>>)
    reads c
  {
    forall i :: 0 <= i < |c| ==> Joined(c, i)
  }

  ghost function Data<T>(c: seq<Item<T>>): (r: seq<T>)
    reads c
    ensures |r| == |c| && forall i :: 0 <= i < |c| ==> r[i] == c[i].data
  {
    seq(|c|, i requires 0 <= i < |c| reads c => c[i].data)
  }

  lemma Rotated<T>(c: seq<Item<T>>, x: Item<T>, i: nat)
    requires i <= |c|
    ensures ([x] + c)[i] == (c + [x])[Pred(i, |c| + 1)]
  {
  }

  /** A circle may be entered anywhere. */
  lemma RotateRight<T>(c: seq<Item<T>>, x: Item<T>)
    requires Circle(c + [x]) && Distinct(c + [x])
    ensures Circle([x] + c) && Distinct([x] + c)
  {
    var n := |c| + 1;
    forall i | 0 <= i < n ensures Joined([x] + c, i) {
      var k := Pred(i, n);
      Rotated(c, x, i);
      Rotated(c, x, Succ(i, n));
      Rotated(c, x, k);
      assert Joined(c + [x], k);
    }
    forall i, j | 0 <= i < j < n ensures ([x] + c)[i] != ([x] + c)[j] {
      Rotated(c, x, i);
      Rotated(c, x, j);
    }
  }

  lemma RotateLeft<T>(c: seq<Item<T>>)
    requires Circle(c) && Distinct(c) && c != []
    ensures Circle(c[1..] + [c[0]]) && Distinct(c[1..] + [c[0]])
  {
    var t, n := c[1..] + [c[0]], |c|;
    assert [c[0]] + c[1..] == c;
    forall i | 0 <= i < n ensures Joined(t, i) {
      var k := Succ(i, n);
      Rotated(c[1..], c[0], k);
      Rotated(c[1..], c[0], Succ(k, n));
      Rotated(c[1..], c[0], i);
      assert Joined(c, k);
    }
    forall i, j | 0 <= i < j < n ensures t[i] != t[j] {
      Rotated(c[1..], c[0], Succ(i, n));
      Rotated(c[1..], c[0], Succ(j, n));
    }
  }

  class List<T> {
    var head: Item?<T>
    var count: nat
    ghost var items: seq<Item<T>>   // from the head, following `next`

    ghost predicate Valid()
      reads this, items
    {
      && count == |items|
      && head == (if items == [] then null else items[0])
      && Distinct(items) && Circle(items)
    }

    ghost function Contents(): seq<T>
      reads this, items
    {
      Data(items)
    }

    /** `clist_create`. */
    constructor ()
      ensures Valid() && Contents() == []
    {
      head, count, items := null, 0, [];
    }

    /** The PUSH macro: `item` between the last element and the head. */
    method Insert(item: Item<T>)
      requires Valid() && item !in items && item.next == item && item.prev == item
      modifies this`head, items, item
      ensures Circle(items + [item]) && Distinct(items + [item])
      ensures Data(items) == old(Data(items)) && item.data == old(item.data)
      ensures head == if items == [] then item else items[0]
    {
      if head != null {
        ghost var n := |items|;
        assert Joined(items, 0) && Joined(items, n - 1);
        Neighbours(items);
        var hprev := head.prev;
        item.next := head;
        item.prev := hprev;
        head.prev := item;
        hprev.next := item;
        Extended(items, item);
      } else {
        head := item;
      }
    }

    /** `clist_lpush`. */
    method LPush(data: T)
      requires Valid()
      modifies this, items
      ensures Valid() && Contents() == [data] + old(Contents())
      ensures fresh((set x | x in items) - (set x | x in old(items)))
    {
      hide Circle, Distinct;
      var item := NewItem(data);
      Insert(item);
      RotateRight(items, item);
      head := item;
      count := count + 1;
      items := [item] + items;
    }

    /** `clist_rpush`. */
    method RPush(data: T)
      requires Valid()
      modifies this, items
      ensures Valid() && Contents() == old(Contents()) + [data]
      ensures fresh((set x | x in items) - (set x | x in old(items)))
    {
      hide Circle, Distinct;
      var item := NewItem(data);
      Insert(item);
      count := count + 1;
      items := items + [item];
    }

    method Bypass(item: Item<T>, ghost rest: seq<Item<T>>)
      requires Circle(rest + [item]) && Distinct(rest + [item]) && |rest| > 0
      modifies rest
      ensures Circle(rest) && Distinct(rest) && Data(rest) == old(Data(rest))
    {
      ghost var c, n := rest + [item], |rest|;
      assert Joined(c, n);
      Neighbours(c);
      item.prev.next := item.next;
      item.next.prev := item.prev;
      forall i | 0 <= i < n ensures Joined(rest, i) {
        assert i < n - 1 ==> old(c[i].next) == c[i + 1];
        assert i > 0 ==> old(c[i].prev) == c[i - 1];
      }
      forall i, j | 0 <= i < j < n ensures rest[i] != rest[j] {
        assert c[i] != c[j];
      }
    }

    /** The POP macro: `rest` are the other elements, from the head that remains. */
    method Pop(item: Item<T>, ghost rest: seq<Item<T>>)
      requires Circle(rest + [item]) && Distinct(rest + [item])
      requires count == |rest| + 1 && (rest != [] ==> head == rest[0])
      modifies this, rest
      ensures Valid() && items == rest && Contents() == old(Data(rest))
    {
      hide Circle, Distinct;
      count := count - 1;
      if count > 0 {
        Bypass(item, rest);
      } else {
        assert rest == [];
        head := null;
        Nowhere<T>();
      }
      items := rest;
    }

    /** `clist_rpop`; `Nothing` stands for NULL. */
    method RPop() returns (r: Popped<T>)
      requires Valid()
      modifies this, items
      ensures Valid() && forall x :: x in items ==> x in old(items)
      ensures old(Contents()) == [] ==> r == Nothing && Contents() == []
      ensures old(Contents()) != [] ==> r.Datum? && old(Contents()) == Contents() + [r.data]
    {
      if count == 0 { return Nothing; }
      ghost var rest := items[..|items| - 1];
      assert Joined(items, 0);
      hide Circle, Distinct, Data;
      var item := head.prev;
      DataSnoc(rest, item);
      r := Datum(item.data);
      assert items == rest + [item];
      Pop(item, rest);
    }

    /** `clist_lpop`. */
    method LPop() returns (r: Popped<T>)
      requires Valid()
      modifies this, items
      ensures Valid() && forall x :: x in items ==> x in old(items)
      ensures old(Contents()) == [] ==> r == Nothing && Contents() == []
      ensures old(Contents()) != [] ==> r.Datum? && old(Contents()) == [r.data] + Contents()
    {
      if count == 0 { return Nothing; }
      ghost var rest := items[1..];
      assert Joined(items, 0);
      hide Circle, Distinct, Data;
      RotateLeft(items);
      DataCons(items);
      var item := head;
      r := Datum(item.data);
      head := item.next;
      Pop(item, rest);
    }
  }

  lemma Neighbours<T>(c: seq<Item<T>>)
    requires Circle(c)
    ensures forall i :: 0 <= i < |c| - 1 ==> c[i].next == c[i + 1]
    ensures forall i :: 0 < i < |c| ==> c[i].prev == c[i - 1]
  {
    forall i | 0 <= i < |c| - 1 ensures c[i].next == c[i + 1] { assert Joined(c, i); }
    forall i | 0 < i < |c| ensures c[i].prev == c[i - 1] { assert Joined(c, i); }
  }

  /** Four links make a circle one element larger. */
  lemma Extended<T>(c: seq<Item<T>>, item: Item<T>)
    requires Distinct(c) && c != [] && item !in c
    requires item.next == c[0] && item.prev == c[|c| - 1] && c[0].prev == item && c[|c| - 1].next == item
    requires forall i :: 0 <= i < |c| - 1 ==> c[i].next == c[i + 1]
    requires forall i :: 0 < i < |c| ==> c[i].prev == c[i - 1]
    ensures Circle(c + [item]) && Distinct(c + [item])
  {
  }

  lemma DataSnoc<T>(c: seq<Item<T>>, x: Item<T>)
    ensures Data(c + [x]) == Data(c) + [x.data]
  {
  }

  lemma DataCons<T>(c: seq<Item<T>>)
    requires c != []
    ensures Data(c) == [c[0].data] + Data(c[1..])
  {
  }

  lemma Nowhere<T>()
    ensures Circle<T>([]) && Distinct<T>([])
  {
  }

  /** `clist_item_create`; its links are set when it is pushed. */
  method NewItem<T>(data: T) returns (item: Item<T>)
    ensures fresh(item) && item.data == data && item.next == item && item.prev == item
  {
    item := new Item(data);
  }

  datatype Popped<T> = Nothing | Datum(data: T)

  // ---------- the list as a queue ----------

  datatype Op<T> = LPushOp(data: T) | RPushOp(data: T) | LPopOp | RPopOp

  /** What one call does to the contents, and what it returns. */
  function Apply<T>(s: seq<T>, op: Op<T>): (seq<T>, Popped<T>)
  {
    match op
    case LPushOp(x) => ([x] + s, Nothing)
    case RPushOp(x) => (s + [x], Nothing)
    case LPopOp => if s == [] then (s, Nothing) else (s[1..], Datum(s[0]))
    case RPopOp => if s == [] then (s, Nothing) else (s[..|s| - 1], Datum(s[|s| - 1]))
  }

  function Final<T>(s: seq<T>, ops: seq<Op<T>>): seq<T>
    decreases |ops|
  {
    if ops == [] then s else Final(Apply(s, ops[0]).0, ops[1..])
  }

  function Outs<T>(s: seq<T>, ops: seq<Op<T>>): seq<T>
    decreases |ops|
  {
    if ops == [] then []
    else
      var (t, r) := Apply(s, ops[0]);
      (if r.Datum? then [r.data] else []) + Outs(t, ops[1..])
  }

  function Pushed<T>(ops: seq<Op<T>>): seq<T>
    decreases |ops|
  {
    if ops == [] then []
    else (if ops[0].LPushOp? then [ops[0].data] else []) + Pushed(ops[1..])
  }

  function Reverse<T>(s: seq<T>): (r: seq<T>)
    ensures |r| == |s|
  {
    if s == [] then [] else Reverse(s[1..]) + [s[0]]
  }

  /** Used with `lpush` and `rpop` only, as the fired queue is, the list is first in, first out:
      what came out, followed by what is left in order of age, is what went in. */
  lemma {:induction false} FirstInFirstOut<T>(s: seq<T>, ops: seq<Op<T>>)
    requires forall op :: op in ops ==> op.LPushOp? || op.RPopOp?
    ensures Outs(s, ops) + Reverse(Final(s, ops)) == Reverse(s) + Pushed(ops)
    decreases |ops|
  {
    if ops != [] {
      assert ops[0] in ops;
      var (t, r) := Apply(s, ops[0]);
      FirstInFirstOut(t, ops[1..]);
      var out, rest := Outs(t, ops[1..]), Reverse(Final(t, ops[1..]));
      assert out + rest == Reverse(t) + Pushed(ops[1..]);
      if ops[0].LPushOp? {
        assert t[1..] == s;
        assert Reverse(t) + Pushed(ops[1..]) == Reverse(s) + ([ops[0].data] + Pushed(ops[1..]));
        assert [] + out == out;
      } else if s == [] {
        assert [] + out == out && [] + Pushed(ops[1..]) == Pushed(ops[1..]);
      } else {
        ReverseLast(s);
        assert [r.data] + out + rest == [r.data] + (out + rest);
        assert [r.data] + (Reverse(t) + Pushed(ops[1..])) == Reverse(s) + Pushed(ops[1..]);
        assert [] + Pushed(ops[1..]) == Pushed(ops[1..]);
      }
    }
  }

  lemma {:induction false} ReverseLast<T>(s: seq<T>)
    requires s != []
    ensures Reverse(s) == [s[|s| - 1]] + Reverse(s[..|s| - 1])
  {
    if |s| > 1 {
      ReverseLast(s[1..]);
      assert s[1..][..|s| - 2] == s[..|s| - 1][1..];
    }
  }

  method Call<T>(l: List<T>, op: Op<T>) returns (r: Popped<T>)
    requires l.Valid()
    modifies l, l.items
    ensures l.Valid() && (l.Contents(), r) == Apply(old(l.Contents()), op)
    ensures forall x :: x in l.items ==> x in old(l.items) || fresh(x)
  {
    hide Circle, Distinct, Data;
    r := Nothing;
    match op {
      case LPushOp(x) => l.LPush(x);
      case RPushOp(x) => l.RPush(x);
      case LPopOp => r := l.LPop();
      case RPopOp => r := l.RPop();
    }
  }

  /** Carry out a sequence of calls on a list object. */
  method Perform<T>(l: List<T>, ops: seq<Op<T>>) returns (out: seq<T>)
    requires l.Valid()
    modifies l, l.items
    ensures l.Valid() && l.Contents() == Final(old(l.Contents()), ops)
    ensures out == Outs(old(l.Contents()), ops)
  {
    hide List<T>.Valid, List<T>.Contents, Apply;
    out := [];
    var i := 0;
    ghost var start := l.Contents();
    while i < |ops|
      invariant i <= |ops| && l.Valid()
      invariant forall x :: x in l.items ==> x in old(l.items) || fresh(x)
      invariant Final(l.Contents(), ops[i..]) == Final(start, ops)
      invariant out + Outs(l.Contents(), ops[i..]) == Outs(start, ops)
    {
      assert ops[i..][0] == ops[i] && ops[i..][1..] == ops[i + 1..];
      forall k | 0 <= k < |l.items|
        ensures fresh(l.items[k]) || exists m :: 0 <= m < |old(l.items)| && old(l.items)[m] == l.items[k]
      {
        assert l.items[k] in l.items;
      }
      var r := Call(l, ops[i]);
      if r.Datum? { out := out + [r.data]; }
      i := i + 1;
    }
  }
}
