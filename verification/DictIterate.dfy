/** Iterators over a dictionary that keeps changing.
    A position in a chain is counted from the END of the chain, because insertions
    go to the head: an entry keeps its position for as long as it stays in its chain. */
module DictIterate {
  import opened Options
  import opened TableIndex
  import opened DictModel
  import opened DictRefine

  /** `rem` is the number of entries from the current one to the end of its chain;
      0 stands for `entry == NULL`. */
  datatype Iter = Iter(tab: int, idx: int, rem: nat)

  const FRESH := Iter(0, -1, 0)

  predicate Started(it: Iter) { it.tab != 0 || it.idx != -1 }

  ghost function TableOf<K, V>(d: Dict<K, V>, tab: int): Table<K, V>
  {
    if tab == 0 then d.t0 else d.t1
  }

  ghost function ChainAt<K, V>(d: Dict<K, V>, tab: int, i: int): Chain<K, V>
  {
    if 0 <= i then Bucket(TableOf(d, tab), i) else []
  }

  /** The loop of `dict_iterator_next` once `entry` is NULL. */
  ghost function Seek<K, V>(d: Dict<K, V>, tab: int, idx: int): Iter
    decreases 1 - tab, |TableOf(d, tab).buckets| - idx
  {
    var i := idx + 1;
    if i >= |TableOf(d, tab).buckets| then
      if tab == 0 && Rehashing(d) then
        if ChainAt(d, 1, 0) != [] then Iter(1, 0, |ChainAt(d, 1, 0)|) else Seek(d, 1, 0)
      else Iter(tab, i, 0)
    else if ChainAt(d, tab, i) != [] then Iter(tab, i, |ChainAt(d, tab, i)|)
    else Seek(d, tab, i)
  }

  ghost function Recount<K, V>(d: Dict<K, V>, n: int): Dict<K, V>
  {
    Dict(d.t0, d.t1, d.rehashidx, n)
  }

  ghost function Advance<K, V>(d: Dict<K, V>, it: Iter): Iter
  {
    if it.rem > 1 then Iter(it.tab, it.idx, it.rem - 1) else Seek(d, it.tab, it.idx)
  }

  /** `dict_iterator_next`: the first call also counts the iterator as open. */
  ghost function Next<K, V>(d: Dict<K, V>, it: Iter): (Dict<K, V>, Iter, Option<K>)
  {
    (if Started(it) then d else Recount(d, d.iterators + 1), Advance(d, it), Current(d, Advance(d, it)))
  }

  ghost function Current<K, V>(d: Dict<K, V>, it: Iter): Option<K>
  {
    var c := ChainAt(d, it.tab, it.idx);
    if 0 < it.rem <= |c| then Some(c[|c| - it.rem].key) else None
  }

  // ---------- the place of a key ----------

  /** How many entries of its chain stand from `k` to the end; 0 when absent. */
  ghost function RemIn<K, V>(h: K -> nat, t: Table<K, V>, k: K): nat
  {
    var c := Bucket(t, Slot(h, k, |t.buckets|));
    |c| - ChainFind(c, k)
  }

  ghost function PlaceIn<K, V>(h: K -> nat, t: Table<K, V>, tab: int, k: K): Iter
  {
    Iter(tab, Slot(h, k, |t.buckets|), RemIn(h, t, k))
  }

  ghost function Place<K, V>(h: K -> nat, d: Dict<K, V>, k: K): Iter
  {
    if Get(h, d.t0, k).Some? then PlaceIn(h, d.t0, 0, k) else PlaceIn(h, d.t1, 1, k)
  }

  predicate Before(t: int, i: int, u: int, j: int) { t < u || (t == u && i < j) }

  /** The iterator stands at `p` or beyond it. */
  predicate Passed(p: Iter, it: Iter)
  {
    Before(p.tab, p.idx, it.tab, it.idx) || (p.tab == it.tab && p.idx == it.idx && p.rem >= it.rem)
  }

  ghost predicate IterOk<K, V>(d: Dict<K, V>, it: Iter)
  {
    && 0 <= it.tab <= 1 && -1 <= it.idx
    && (it.tab == 1 ==> Rehashing(d) && it.idx >= 0)
    && (it.rem > 0 ==> 0 <= it.idx < |TableOf(d, it.tab).buckets|)
    && it.rem <= |ChainAt(d, it.tab, it.idx)|
  }

  ghost predicate InDict<K, V>(d: Dict<K, V>, p: Iter)
  {
    && 0 <= p.tab <= 1 && 0 <= p.idx < |TableOf(d, p.tab).buckets|
    && 0 < p.rem <= |ChainAt(d, p.tab, p.idx)|
    && (p.tab == 1 ==> Rehashing(d))
  }

  lemma PlaceOk<K(!new), V>(h: K -> nat, d: Dict<K, V>, k: K)
    requires Valid(h, d) && k in ToMap(h, d)
    ensures InDict(d, Place(h, d, k)) && Current(d, Place(h, d, k)) == Some(k)
  {
    ToMapIs(h, d);
    var p := Place(h, d, k);
    ChainGetIsFind(ChainAt(d, p.tab, p.idx), k);
  }

  /** The key that stands at a place has that place. */
  lemma PlaceOfCurrent<K(!new), V>(h: K -> nat, d: Dict<K, V>, it: Iter)
    requires Valid(h, d) && IterOk(d, it) && it.rem > 0
    ensures Current(d, it).Some? && Current(d, it).value in ToMap(h, d)
    ensures Place(h, d, Current(d, it).value) == it
  {
    var t := TableOf(d, it.tab);
    var c := t.buckets[it.idx];
    var j := |c| - it.rem;
    var k := c[j].key;
    ToMapIs(h, d);
    assert Slot(h, t.buckets[it.idx][j].key, |t.buckets|) == it.idx;
    ChainGetAt(c, j);
    ChainGetIsFind(c, k);
    assert ChainFind(c, k) == j;
    assert Get(h, t, k).Some?;
  }

  // ---------- one call of next ----------

  /** Everything between `(tab, idx)` and where the seek stops is empty. */
  lemma {:induction false} SeekOk<K(!new), V>(h: K -> nat, d: Dict<K, V>, tab: int, idx: int)
    requires Valid(h, d) && 0 <= tab <= 1 && -1 <= idx && (tab == 1 ==> Rehashing(d) && idx >= 0)
    ensures var to := Seek(d, tab, idx);
            && IterOk(d, to) && Started(to)
            && Before(tab, idx, to.tab, to.idx)
            && (to.rem > 0 ==> to.rem == |ChainAt(d, to.tab, to.idx)|)
            && (to.rem == 0 ==> to.idx >= |TableOf(d, to.tab).buckets| && (to.tab == 1 || !Rehashing(d)))
            && forall t, i ::
                 0 <= t && i < |TableOf(d, t).buckets| && Before(tab, idx, t, i) && Before(t, i, to.tab, to.idx)
                 ==> ChainAt(d, t, i) == []
    decreases 1 - tab, |TableOf(d, tab).buckets| - idx
  {
    var i := idx + 1;
    if i >= |TableOf(d, tab).buckets| {
      if tab == 0 && Rehashing(d) && ChainAt(d, 1, 0) == [] { SeekOk(h, d, 1, 0); }
    } else if ChainAt(d, tab, i) == [] {
      SeekOk(h, d, tab, i);
    }
  }

  lemma SeekPasses<K(!new), V>(h: K -> nat, d: Dict<K, V>, it: Iter, p: Iter)
    requires Valid(h, d) && IterOk(d, it) && it.rem <= 1 && InDict(d, p)
    ensures var to := Seek(d, it.tab, it.idx);
            && (Passed(p, to) <==> Passed(p, it) || p == to)
            && (to.rem == 0 ==> Passed(p, it))
  {
    var to := Seek(d, it.tab, it.idx);
    SeekOk(h, d, it.tab, it.idx);
    assert ChainAt(d, p.tab, p.idx) != [];
    if Before(it.tab, it.idx, p.tab, p.idx) {
      assert !Passed(p, it);
      assert !Before(p.tab, p.idx, to.tab, to.idx);
    } else {
      assert Before(p.tab, p.idx, to.tab, to.idx);
      assert Passed(p, it);
    }
  }

  /** A place and its key determine each other. */
  lemma PlaceIsCurrent<K(!new), V>(h: K -> nat, d: Dict<K, V>, p: Iter, k: K)
    requires Valid(h, d) && IterOk(d, p) && k in ToMap(h, d)
    ensures Current(d, p) == Some(k) <==> Place(h, d, k) == p
  {
    PlaceOk(h, d, k);
    if p.rem > 0 { PlaceOfCurrent(h, d, p); }
  }

  lemma AdvanceOk<K(!new), V>(h: K -> nat, d: Dict<K, V>, it: Iter)
    requires Valid(h, d) && IterOk(d, it)
    ensures IterOk(d, Advance(d, it)) && Started(Advance(d, it))
    ensures var r := Current(d, Advance(d, it)); r.Some? ==> r.value in ToMap(h, d)
  {
    if it.rem <= 1 { SeekOk(h, d, it.tab, it.idx); }
    if Advance(d, it).rem > 0 { PlaceOfCurrent(h, d, Advance(d, it)); }
  }

  lemma AdvancePasses<K(!new), V>(h: K -> nat, d: Dict<K, V>, it: Iter, p: Iter)
    requires Valid(h, d) && IterOk(d, it) && InDict(d, p)
    ensures var to := Advance(d, it);
            && (Passed(p, to) <==> Passed(p, it) || p == to)
            && (p == to ==> !Passed(p, it))
            && (to.rem == 0 ==> Passed(p, it))
  {
    if it.rem <= 1 {
      SeekOk(h, d, it.tab, it.idx);
      SeekPasses(h, d, it, p);
    }
  }

  lemma NextPasses<K(!new), V>(h: K -> nat, d: Dict<K, V>, it: Iter, x: K)
    requires Valid(h, d) && IterOk(d, it) && x in ToMap(h, d)
    ensures var to := Advance(d, it);
            var r := Current(d, to);
            && (Passed(Place(h, d, x), to) <==> Passed(Place(h, d, x), it) || r == Some(x))
            && (r == Some(x) ==> !Passed(Place(h, d, x), it))
            && (r.None? ==> Passed(Place(h, d, x), it))
  {
    PlaceOk(h, d, x);
    AdvanceOk(h, d, it);
    AdvancePasses(h, d, it, Place(h, d, x));
    PlaceIsCurrent(h, d, Advance(d, it), x);
    assert Current(d, Advance(d, it)).None? <==> Advance(d, it).rem == 0;
  }

  /** One turn of the loop with `entry` NULL. */
  lemma SeekTurn<K, V>(d: Dict<K, V>, tab: int, idx: int)
    ensures var i := idx + 1;
            var (t, j) := if i >= |TableOf(d, tab).buckets| && tab == 0 && Rehashing(d) then (1, 0) else (tab, i);
            var n := |ChainAt(d, t, j)|;
            Seek(d, tab, idx) ==
              if t == tab && i >= |TableOf(d, tab).buckets| then Iter(tab, i, 0)
              else if n > 0 then Iter(t, j, n) else Seek(d, t, j)
  {
  }

  lemma {:induction false} SeekRecount<K, V>(d: Dict<K, V>, tab: int, idx: int, n: int)
    ensures Seek(Recount(d, n), tab, idx) == Seek(d, tab, idx)
    decreases 1 - tab, |TableOf(d, tab).buckets| - idx
  {
    SeekTurn(d, tab, idx);
    SeekTurn(Recount(d, n), tab, idx);
    var i := idx + 1;
    if i >= |TableOf(d, tab).buckets| {
      if tab == 0 && Rehashing(d) { SeekRecount(d, 1, 0, n); }
    } else {
      SeekRecount(d, tab, i, n);
    }
  }

  /** Neither the scan nor the entry it ends at depends on the number of open iterators. */
  lemma AdvanceRecount<K, V>(d: Dict<K, V>, it: Iter, n: int)
    ensures Advance(Recount(d, n), it) == Advance(d, it)
    ensures forall to :: Current(Recount(d, n), to) == Current(d, to)
  {
    SeekRecount(d, it.tab, it.idx, n);
  }

  lemma NothingCurrent<K, V>(d: Dict<K, V>, it: Iter)
    requires it.rem == 0
    ensures Current(d, it).None?
  {
  }

  lemma IterOkRange<K, V>(d: Dict<K, V>, it: Iter)
    requires IterOk(d, it)
    ensures 0 <= it.tab <= 1 && -1 <= it.idx && (it.tab == 1 ==> Rehashing(d) && it.idx >= 0)
    ensures !Started(it) ==> it.rem == 0
  {
  }

  lemma RecountKeeps<K(!new), V>(h: K -> nat, d: Dict<K, V>, n: int)
    requires Valid(h, d)
    ensures Valid(h, Recount(d, n)) && ToMap(h, Recount(d, n)) == ToMap(h, d)
    ensures Places(h, Recount(d, n)) == Places(h, d)
    ensures forall it :: IterOk(d, it) ==> IterOk(Recount(d, n), it)
  {
    SameLookups(h, d, Recount(d, n));
  }

  /** The place of every key. */
  ghost function Places<K(!new), V>(h: K -> nat, d: Dict<K, V>): map<K, Iter>
  {
    map k | k in ToMap(h, d) :: Place(h, d, k)
  }

  /** `next` yields the first entry not yet passed and passes nothing else;
      it returns NULL only when every entry is behind it already. */
  lemma NextOk<K(!new), V>(h: K -> nat, d: Dict<K, V>, it: Iter)
    requires Valid(h, d) && IterOk(d, it)
    ensures var (e, to, r) := Next(d, it);
            var ps := Places(h, d);
            && Valid(h, e) && IterOk(e, to) && Started(to) && Places(h, e) == ps
            && (r.Some? ==> r.value in ps && !Passed(ps[r.value], it))
            && (forall x :: x in ps ==> (Passed(ps[x], to) <==> Passed(ps[x], it) || r == Some(x)))
            && (r.None? ==> forall x :: x in ps ==> Passed(ps[x], it))
  {
    hide Valid, Place, Passed, Current, Advance, IterOk, ToMap;
    AdvanceOk(h, d, it);
    RecountKeeps(h, d, d.iterators + 1);
    forall x | x in ToMap(h, d)
      ensures var to := Advance(d, it); var r := Current(d, to);
              Passed(Place(h, d, x), to) <==> Passed(Place(h, d, x), it) || r == Some(x)
      ensures Current(d, Advance(d, it)) == Some(x) ==> !Passed(Place(h, d, x), it)
      ensures Current(d, Advance(d, it)).None? ==> Passed(Place(h, d, x), it)
    {
      NextPasses(h, d, it, x);
    }
  }

  // ---------- calls between two calls of next ----------

  /** While an iterator is open, a call leaves every entry in its place. */
  ghost predicate Settled<K(!new), V>(h: K -> nat, d: Dict<K, V>, e: Dict<K, V>)
  {
    && Valid(h, e) && e.iterators == d.iterators
    && (forall k :: k in Places(h, d) ==> k in Places(h, e) && Places(h, e)[k] == Places(h, d)[k])
    && (forall it :: IterOk(d, it) ==> IterOk(e, it))
  }

  /** Table `u` keeps every entry of `t` at its distance from the end of its chain. */
  ghost predicate SamePlaces<K(!new), V>(h: K -> nat, t: Table<K, V>, u: Table<K, V>)
  {
    && |u.buckets| == |t.buckets|
    && (forall i: nat :: |Bucket(u, i)| >= |Bucket(t, i)|)
    && forall k :: Get(h, t, k).Some? ==> Get(h, u, k).Some? && RemIn(h, u, k) == RemIn(h, t, k)
  }

  lemma SettledByTables<K(!new), V>(h: K -> nat, d: Dict<K, V>, e: Dict<K, V>)
    requires Valid(h, d) && Valid(h, e) && e.iterators == d.iterators && (Rehashing(d) ==> Rehashing(e))
    requires SamePlaces(h, d.t0, e.t0) || (d.t0.buckets == [] && !Rehashing(d))
    requires SamePlaces(h, d.t1, e.t1) || !Rehashing(d)
    ensures Settled(h, d, e)
  {
    ToMapIs(h, d);
    ToMapIs(h, e);
    forall k | k in ToMap(h, d) ensures k in ToMap(h, e) && Place(h, e, k) == Place(h, d, k) {
      if Get(h, d.t0, k).None? {
        assert Get(h, d.t1, k).Some? && Get(h, e.t1, k).Some?;
      }
    }
    forall it | IterOk(d, it) ensures IterOk(e, it) {
      if it.rem > 0 { assert |Bucket(TableOf(e, it.tab), it.idx)| >= |Bucket(TableOf(d, it.tab), it.idx)|; }
    }
  }

  lemma ExpandSettled<K(!new), V>(h: K -> nat, d: Dict<K, V>)
    requires Valid(h, d)
    ensures Settled(h, d, TryExpand(d).0)
  {
    TryExpandKeeps(h, d);
    SettledByTables(h, d, TryExpand(d).0);
  }

  /** Linking at the head leaves the count from the end alone. */
  lemma PushPlaces<K(!new), V>(h: K -> nat, t: Table<K, V>, p: Pair<K, V>)
    requires TableOk(h, t) && t.buckets != [] && Get(h, t, p.key).None?
    ensures SamePlaces(h, t, Push(h, t, p))
  {
    PushOk(h, t, p);
    forall k | Get(h, t, k).Some? ensures RemIn(h, Push(h, t, p), k) == RemIn(h, t, k) {
      var i := Slot(h, k, |t.buckets|);
      if i == Slot(h, p.key, |t.buckets|) {
        assert ([p] + t.buckets[i])[1..] == t.buckets[i];
      }
    }
  }

  lemma PutPlaces<K(!new), V>(h: K -> nat, t: Table<K, V>, p: K, v: V)
    requires TableOk(h, t) && Get(h, t, p).Some?
    ensures SamePlaces(h, t, TablePut(h, t, p, v))
  {
    ChainSetOk(t.buckets[Slot(h, p, |t.buckets|)], p, v);
    TablePutOk(h, t, p, v);
  }

  lemma InsertSettled<K(!new), V>(h: K -> nat, d: Dict<K, V>, p: Pair<K, V>)
    requires Valid(h, d) && d.t0.buckets != [] && p.key !in ToMap(h, d)
    ensures Settled(h, d, Insert(h, d, p))
  {
    InsertKeeps(h, d, p);
    ToMapIs(h, d);
    assert Lookup(h, d, p.key).None?;
    PushPlaces(h, if Rehashing(d) then d.t1 else d.t0, p);
    SettledByTables(h, d, Insert(h, d, p));
  }

  lemma AddSettled<K(!new), V>(h: K -> nat, d: Dict<K, V>, k: K, v: V)
    requires Valid(h, d) && d.iterators > 0
    ensures Settled(h, d, Add(h, d, k, v).0)
  {
    var e := TryExpand(d).0;
    ExpandSettled(h, d);
    TryExpandKeeps(h, d);
    ToMapIs(h, e);
    if k !in ToMap(h, e) { InsertSettled(h, e, Pair(k, v)); }
  }

  lemma ReplaceSettled<K(!new), V>(h: K -> nat, d: Dict<K, V>, k: K, v: V)
    requires Valid(h, d) && d.iterators > 0
    ensures Settled(h, d, Replace(h, d, k, v).0)
  {
    FindRefines(h, d, k);
    if k !in ToMap(h, d) {
      AddSettled(h, d, k, v);
    } else {
      ToMapIs(h, d);
      ReplaceRefines(h, d, k, v);
      PutPlaces(h, if Get(h, d.t0, k).Some? then d.t0 else d.t1, k, v);
      SettledByTables(h, d, Replace(h, d, k, v).0);
    }
  }
}
