/** Iterator coverage over whole runs: any number of iterators, interleaved with
    adds (which may start an expansion), finds and replacements. */
module DictIterRuns {
  import opened Options
  import opened DictModel
  import opened DictRefine
  import opened DictIterate

  datatype World<K, V> = World(d: Dict<K, V>, iters: map<nat, Iter>)

  datatype Call<K, V> =
    | CallAdd(key: K, value: V)
    | CallFind(key: K)
    | CallReplace(key: K, value: V)
    | CallOpen(id: nat)     // dict_get_iterator
    | CallNext(id: nat)     // dict_iterator_next
    | CallClose(id: nat)    // dict_iterator_destroy

  /** The new world, and the key of the entry that a `next` returned. */
  ghost function Do<K, V>(h: K -> nat, w: World<K, V>, c: Call<K, V>): (World<K, V>, Option<K>)
  {
    match c
    case CallAdd(k, v) => (World(Add(h, w.d, k, v).0, w.iters), None)
    case CallFind(k) => (World(Find(h, w.d, k).0, w.iters), None)
    case CallReplace(k, v) => (World(Replace(h, w.d, k, v).0, w.iters), None)
    case CallOpen(id) => (if id in w.iters then w else World(w.d, w.iters[id := FRESH]), None)
    case CallNext(id) =>
      if id !in w.iters then (w, None)
      else
        var (e, it, r) := Next(w.d, w.iters[id]);
        (World(e, w.iters[id := it]), r)
    case CallClose(id) =>
      if id !in w.iters then (w, None)
      else
        var n := if Started(w.iters[id]) then w.d.iterators - 1 else w.d.iterators;
        (World(Recount(w.d, n), w.iters - {id}), None)
  }

  ghost function After<K, V>(h: K -> nat, w: World<K, V>, cs: seq<Call<K, V>>): World<K, V>
    decreases |cs|
  {
    if cs == [] then w else After(h, Do(h, w, cs[0]).0, cs[1..])
  }

  /** The keys that iterator `j` yields during a run, in order. */
  ghost function Yields<K, V>(h: K -> nat, w: World<K, V>, cs: seq<Call<K, V>>, j: nat): seq<K>
    decreases |cs|
  {
    if cs == [] then []
    else
      var (w', r) := Do(h, w, cs[0]);
      (if cs[0] == CallNext(j) && r.Some? then [r.value] else []) + Yields(h, w', cs[1..], j)
  }

  ghost function Open(iters: map<nat, Iter>): set<nat>
  {
    set id | id in iters && Started(iters[id])
  }

  /** The `iterators` counter is the number of iterators that have begun and are not destroyed. */
  ghost predicate WorldOk<K(!new), V>(h: K -> nat, w: World<K, V>)
  {
    && Valid(h, w.d)
    && w.d.iterators == |Open(w.iters)|
    && forall id :: id in w.iters ==> IterOk(w.d, w.iters[id])
  }

  /** With entries at `ps`, `ys` has been yielded by `it`, without repetition, and covers what
      `it` has passed of `orig`. */
  ghost predicate Covers<K>(ps: map<K, Iter>, it: Iter, ys: seq<K>, orig: set<K>)
  {
    && (forall a, b :: 0 <= a < b < |ys| ==> ys[a] != ys[b])
    && (forall y :: y in ys ==> y in ps && Passed(ps[y], it))
    && (forall x :: x in orig ==> x in ps)
    && (forall x :: x in orig && Passed(ps[x], it) ==> x in ys)
  }

  // ---------- one call ----------

  lemma StartedIsOpen(iters: map<nat, Iter>, id: nat)
    requires id in iters && Started(iters[id])
    ensures |Open(iters)| > 0
  {
    assert id in Open(iters);
  }

  lemma NotStartedPassesNothing<K(!new), V>(h: K -> nat, d: Dict<K, V>, it: Iter)
    requires Valid(h, d) && IterOk(d, it) && !Started(it)
    ensures forall k :: k in Places(h, d) ==> !Passed(Places(h, d)[k], it)
  {
    forall k | k in Places(h, d) ensures !Passed(Places(h, d)[k], it) {
      PlaceOk(h, d, k);
    }
  }

  /** A call on the table itself: entries stay in place if any iterator is open. */
  lemma TableCallOk<K(!new), V>(h: K -> nat, w: World<K, V>, c: Call<K, V>)
    requires WorldOk(h, w) && (c.CallAdd? || c.CallFind? || c.CallReplace?)
    ensures var e := Do(h, w, c).0.d;
            && Valid(h, e) && e.iterators == w.d.iterators
            && (forall k :: k in Places(h, w.d) ==> k in Places(h, e))
            && (w.d.iterators > 0 ==> Settled(h, w.d, e))
  {
    match c
    case CallAdd(k, v) =>
      AddRefines(h, w.d, k, v);
      AddCount(h, w.d, k, v);
      if w.d.iterators > 0 { AddSettled(h, w.d, k, v); }
    case CallFind(k) =>
      FindRefines(h, w.d, k);
      FindCount(h, w.d, k);
    case CallReplace(k, v) =>
      ReplaceRefines(h, w.d, k, v);
      FindCount(h, w.d, k);
      FindRefines(h, w.d, k);
      AddCount(h, Find(h, w.d, k).0, k, v);
      if w.d.iterators > 0 { ReplaceSettled(h, w.d, k, v); }
  }

  lemma FindCount<K(!new), V>(h: K -> nat, d: Dict<K, V>, k: K)
    requires Valid(h, d)
    ensures Find(h, d, k).0.iterators == d.iterators
  {
    if Rehashing(d) { RehashStepKeeps(h, d); }
  }

  lemma AddCount<K(!new), V>(h: K -> nat, d: Dict<K, V>, k: K, v: V)
    requires Valid(h, d)
    ensures Add(h, d, k, v).0.iterators == d.iterators
  {
    if Rehashing(d) { RehashStepKeeps(h, d); }
  }

  lemma TableCallCovers<K(!new), V>(h: K -> nat, w: World<K, V>, c: Call<K, V>, it: Iter, ys: seq<K>, orig: set<K>)
    requires WorldOk(h, w) && (c.CallAdd? || c.CallFind? || c.CallReplace?)
    requires IterOk(w.d, it) && (Started(it) ==> w.d.iterators > 0)
    requires Covers(Places(h, w.d), it, ys, orig)
    ensures IterOk(Do(h, w, c).0.d, it) && Covers(Places(h, Do(h, w, c).0.d), it, ys, orig)
  {
    var e := Do(h, w, c).0.d;
    TableCallOk(h, w, c);
    if !Started(it) {
      NotStartedPassesNothing(h, w.d, it);
      NotStartedPassesNothing(h, e, it);
    }
  }

  lemma OpenAfterNext(iters: map<nat, Iter>, id: nat, it: Iter)
    requires id in iters && Started(it)
    ensures |Open(iters[id := it])| == |Open(iters)| + if Started(iters[id]) then 0 else 1
  {
    if Started(iters[id]) {
      assert Open(iters[id := it]) == Open(iters);
    } else {
      assert Open(iters[id := it]) == Open(iters) + {id};
    }
  }

  lemma NextWorldOk<K(!new), V>(h: K -> nat, w: World<K, V>, id: nat)
    requires WorldOk(h, w) && id in w.iters
    ensures WorldOk(h, Do(h, w, CallNext(id)).0)
  {
    hide Places, Advance, Current, Valid;
    var w' := Do(h, w, CallNext(id)).0;
    NextOk(h, w.d, w.iters[id]);
    RecountKeeps(h, w.d, w.d.iterators + 1);
    OpenAfterNext(w.iters, id, w'.iters[id]);
    forall i | i in w'.iters ensures IterOk(w'.d, w'.iters[i]) {
      if i != id { assert IterOk(w.d, w.iters[i]); }
    }
  }

  lemma NextCovers<K(!new), V>(h: K -> nat, d: Dict<K, V>, it: Iter, ys: seq<K>, orig: set<K>)
    requires Valid(h, d) && IterOk(d, it) && Covers(Places(h, d), it, ys, orig)
    ensures var (e, to, r) := Next(d, it);
            && Covers(Places(h, e), to, if r.Some? then ys + [r.value] else ys, orig)
            && (r.None? ==> forall x :: x in orig ==> x in ys)
  {
    hide Places, Next, Valid;
    NextOk(h, d, it);
    var r := Next(d, it).2;
    if r.Some? { assert r.value in ys + [r.value]; }
  }

  lemma OpenCloseOk<K(!new), V>(h: K -> nat, w: World<K, V>, c: Call<K, V>)
    requires WorldOk(h, w) && (c.CallOpen? || c.CallClose?)
    ensures WorldOk(h, Do(h, w, c).0)
  {
    var w' := Do(h, w, c).0;
    if c.CallOpen? && c.id !in w.iters {
      assert Open(w'.iters) == Open(w.iters);
    }
    if c.CallClose? && c.id in w.iters {
      RecountKeeps(h, w.d, w'.d.iterators);
      assert Open(w'.iters) == Open(w.iters) - {c.id};
    }
  }

  lemma CallKeepsWorld<K(!new), V>(h: K -> nat, w: World<K, V>, c: Call<K, V>)
    requires WorldOk(h, w)
    ensures WorldOk(h, Do(h, w, c).0)
  {
    match c
    case CallOpen(_) => OpenCloseOk(h, w, c);
    case CallClose(_) => OpenCloseOk(h, w, c);
    case CallNext(id) => if id in w.iters { NextWorldOk(h, w, id); }
    case _ =>
      TableCallOk(h, w, c);
      var w' := Do(h, w, c).0;
      forall id | id in w.iters ensures IterOk(w'.d, w.iters[id]) {
        if Started(w.iters[id]) { StartedIsOpen(w.iters, id); }
      }
  }

  /** Every call but the destruction of `j` keeps the coverage of `j`. */
  lemma CallCovers<K(!new), V>(h: K -> nat, w: World<K, V>, c: Call<K, V>, j: nat, ys: seq<K>, orig: set<K>)
    requires WorldOk(h, w) && j in w.iters && c != CallClose(j)
    requires Covers(Places(h, w.d), w.iters[j], ys, orig)
    ensures var (w', r) := Do(h, w, c);
            && j in w'.iters
            && Covers(Places(h, w'.d), w'.iters[j], if c == CallNext(j) && r.Some? then ys + [r.value] else ys, orig)
            && (c == CallNext(j) && r.None? ==> forall x :: x in orig ==> x in ys)
  {
    hide Places, Valid, Add, Find, Replace, Covers;
    match c
    case CallOpen(_) =>
    case CallClose(id) => RecountKeeps(h, w.d, Do(h, w, c).0.d.iterators);
    case CallNext(id) =>
      if id == j { NextCovers(h, w.d, w.iters[j], ys, orig); }
      else if id in w.iters { NextOk(h, w.d, w.iters[id]); }
    case _ =>
      if Started(w.iters[j]) { StartedIsOpen(w.iters, j); }
      TableCallCovers(h, w, c, w.iters[j], ys, orig);
  }

  // ---------- runs ----------

  lemma {:induction false} RunCovers<K(!new), V>(h: K -> nat, w: World<K, V>, cs: seq<Call<K, V>>, j: nat,
                                                 ys: seq<K>, orig: set<K>)
    requires WorldOk(h, w) && j in w.iters && CallClose(j) !in cs
    requires Covers(Places(h, w.d), w.iters[j], ys, orig)
    ensures var w' := After(h, w, cs);
            && WorldOk(h, w') && j in w'.iters
            && Covers(Places(h, w'.d), w'.iters[j], ys + Yields(h, w, cs, j), orig)
    decreases |cs|
  {
    hide Places, Do, WorldOk, Covers;
    if cs == [] {
      assert ys + [] == ys;
    } else {
      var (w', r) := Do(h, w, cs[0]);
      var y := if cs[0] == CallNext(j) && r.Some? then [r.value] else [];
      CallKeepsWorld(h, w, cs[0]);
      CallCovers(h, w, cs[0], j, ys, orig);
      assert ys + y == if cs[0] == CallNext(j) && r.Some? then ys + [r.value] else ys;
      RunCovers(h, w', cs[1..], j, ys + y, orig);
      assert ys + y + Yields(h, w', cs[1..], j) == ys + Yields(h, w, cs, j);
    }
  }

  /** A new dictionary without iterators, and every state that calls lead to from it, is such a world. */
  lemma {:induction false} RunKeepsWorld<K(!new), V>(h: K -> nat, w: World<K, V>, cs: seq<Call<K, V>>)
    requires WorldOk(h, w)
    ensures WorldOk(h, After(h, w, cs))
    decreases |cs|
  {
    hide WorldOk, Do;
    if cs != [] {
      CallKeepsWorld(h, w, cs[0]);
      RunKeepsWorld(h, Do(h, w, cs[0]).0, cs[1..]);
    }
  }

  lemma StartOk<K(!new), V>(h: K -> nat)
    ensures WorldOk<K, V>(h, World(EmptyDict(), map[]))
  {
    assert Open(map[]) == {};
  }

  lemma FreshCovers<K(!new), V>(h: K -> nat, d: Dict<K, V>)
    requires Valid(h, d)
    ensures Covers(Places(h, d), FRESH, [], ToMap(h, d).Keys)
  {
    NotStartedPassesNothing(h, d, FRESH);
  }

  /** No iterator ever yields an entry twice, whatever else happens. */
  lemma YieldsAreDistinct<K(!new), V>(h: K -> nat, w: World<K, V>, cs: seq<Call<K, V>>, j: nat)
    requires WorldOk(h, w) && j in w.iters && w.iters[j] == FRESH && CallClose(j) !in cs
    ensures var ys := Yields(h, w, cs, j);
            && (forall a, b :: 0 <= a < b < |ys| ==> ys[a] != ys[b])
            && (forall y :: y in ys ==> y in ToMap(h, After(h, w, cs).d))
  {
    FreshCovers(h, w.d);
    RunCovers(h, w, cs, j, [], ToMap(h, w.d).Keys);
    assert [] + Yields(h, w, cs, j) == Yields(h, w, cs, j);
  }

  /** When the iterator has returned NULL, every entry that was there when it was fresh
      has been yielded (and exactly once, by YieldsAreDistinct). */
  lemma IteratorCoversAll<K(!new), V>(h: K -> nat, w: World<K, V>, cs: seq<Call<K, V>>, j: nat)
    requires WorldOk(h, w) && j in w.iters && w.iters[j] == FRESH && CallClose(j) !in cs
    requires Do(h, After(h, w, cs), CallNext(j)).1.None?
    ensures forall k :: k in ToMap(h, w.d) ==> k in Yields(h, w, cs, j)
  {
    FreshCovers(h, w.d);
    RunCovers(h, w, cs, j, [], ToMap(h, w.d).Keys);
    assert [] + Yields(h, w, cs, j) == Yields(h, w, cs, j);
    CallCovers(h, After(h, w, cs), CallNext(j), j, Yields(h, w, cs, j), ToMap(h, w.d).Keys);
  }
}
