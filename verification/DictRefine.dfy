/** The dictionary acts like a finite map, whatever the state of its rehash. */
module DictRefine {
  import opened Options
  import opened TableIndex
  import opened DictModel

  // ---------- chains ----------

  lemma {:induction false} ChainGetIsFind<K(!new), V>(c: Chain<K, V>, k: K)
    ensures ChainGet(c, k) == if ChainFind(c, k) < |c| then Some(c[ChainFind(c, k)].value) else None
    ensures ChainGet(c, k).None? <==> forall j :: 0 <= j < |c| ==> c[j].key != k
  {
    if c != [] && c[0].key != k {
      ChainGetIsFind(c[1..], k);
      assert forall j :: 0 < j < |c| ==> c[j] == c[1..][j - 1];
    }
  }

  /** In a chain with distinct keys any occurrence is the one that a search finds. */
  lemma ChainGetAt<K(!new), V>(c: Chain<K, V>, j: nat)
    requires Distinct(c) && j < |c|
    ensures ChainGet(c, c[j].key) == Some(c[j].value)
  {
    ChainGetIsFind(c, c[j].key);
  }

  lemma ChainSetOk<K(!new), V>(c: Chain<K, V>, k: K, v: V)
    requires Distinct(c) && ChainGet(c, k).Some?
    ensures Distinct(ChainSet(c, k, v)) && |ChainSet(c, k, v)| == |c|
    ensures forall j :: 0 <= j < |c| ==> ChainSet(c, k, v)[j].key == c[j].key
    ensures forall x :: ChainGet(ChainSet(c, k, v), x) == if x == k then Some(v) else ChainGet(c, x)
  {
    var r := ChainSet(c, k, v);
    forall x ensures ChainGet(r, x) == if x == k then Some(v) else ChainGet(c, x) {
      ChainGetIsFind(c, x);
      ChainGetIsFind(c, k);
      ChainGetIsFind(r, x);
      var i := ChainFind(c, x);
      if i < |c| { ChainGetAt(r, i); }
    }
  }

  lemma ChainRemoveGet<K(!new), V>(c: Chain<K, V>, k: K, x: K)
    requires Distinct(c) && ChainGet(c, k).Some?
    ensures ChainGet(ChainRemove(c, k), x) == if x == k then None else ChainGet(c, x)
  {
    ChainGetIsFind(c, k);
    ChainGetIsFind(c, x);
    var f, i, r := ChainFind(c, k), ChainFind(c, x), ChainRemove(c, k);
    ChainGetIsFind(r, x);
    hide ChainGet, ChainFind;
    assert r == c[..f] + c[f + 1..];
    if i < f {
      assert r[i] == c[i];
      ChainGetAt(r, i);
    } else if f < i < |c| {
      assert r[i - 1] == c[i];
      ChainGetAt(r, i - 1);
    }
  }

  lemma ChainRemoveOk<K(!new), V>(c: Chain<K, V>, k: K)
    requires Distinct(c) && ChainGet(c, k).Some?
    ensures Distinct(ChainRemove(c, k)) && |ChainRemove(c, k)| == |c| - 1
    ensures forall j :: 0 <= j < |c| - 1 ==> exists i :: 0 <= i < |c| && ChainRemove(c, k)[j] == c[i]
    ensures forall x :: ChainGet(ChainRemove(c, k), x) == if x == k then None else ChainGet(c, x)
  {
    ChainGetIsFind(c, k);
    var f := ChainFind(c, k);
    var r := ChainRemove(c, k);
    forall j | 0 <= j < |r| ensures r[j] == c[if j < f then j else j + 1] {}
    forall x ensures ChainGet(r, x) == if x == k then None else ChainGet(c, x) {
      ChainRemoveGet(c, k, x);
    }
  }

  // ---------- tables ----------

  lemma {:induction false} TotalPut<K(!new), V>(b: seq<Chain<K, V>>, i: nat, c: Chain<K, V>)
    requires i < |b|
    ensures Total(b[i := c]) == Total(b) - |b[i]| + |c|
  {
    if i == 0 {
      assert b[i := c][1..] == b[1..];
    } else {
      assert b[i := c][1..] == b[1..][i - 1 := c];
      TotalPut(b[1..], i - 1, c);
    }
  }

  lemma {:induction false} TotalEmpty<K(!new), V>(b: seq<Chain<K, V>>)
    ensures Total(b) == 0 <==> forall i :: 0 <= i < |b| ==> b[i] == []
  {
    if b != [] {
      TotalEmpty(b[1..]);
      assert forall i :: 0 < i < |b| ==> b[i] == b[1..][i - 1];
    }
  }

  /** Replacing one chain by another that belongs in the same bucket. */
  lemma PutBucketOk<K(!new), V>(h: K -> nat, t: Table<K, V>, i: nat, c: Chain<K, V>)
    requires TableOk(h, t) && i < |t.buckets| && Distinct(c)
    requires forall j :: 0 <= j < |c| ==> Slot(h, c[j].key, |t.buckets|) == i
    ensures TableOk(h, PutBucket(t, i, c, |c| - |t.buckets[i]|))
    ensures forall k :: Get(h, PutBucket(t, i, c, |c| - |t.buckets[i]|), k)
                     == if Slot(h, k, |t.buckets|) == i then ChainGet(c, k) else Get(h, t, k)
  {
    var b: seq<Chain<K, V>>, r: seq<Chain<K, V>> := t.buckets, t.buckets[i := c];
    TotalPut(b, i, c);
    assert Placed(h, r) by {
      forall a: int, j: int | 0 <= a < |r| && 0 <= j < |r[a]| ensures Slot(h, r[a][j].key, |r|) == a {
        assert a != i ==> r[a] == b[a];
      }
    }
    forall a | 0 <= a < |r| ensures Distinct(r[a]) {
      assert a != i ==> r[a] == b[a];
    }
  }

  lemma PushOk<K(!new), V>(h: K -> nat, t: Table<K, V>, p: Pair<K, V>)
    requires TableOk(h, t) && t.buckets != [] && Get(h, t, p.key).None?
    ensures TableOk(h, Push(h, t, p)) && |Push(h, t, p).buckets| == |t.buckets|
    ensures Push(h, t, p).used == t.used + 1
    ensures forall k :: Get(h, Push(h, t, p), k) == if k == p.key then Some(p.value) else Get(h, t, k)
  {
    var i := Slot(h, p.key, |t.buckets|);
    var c := [p] + t.buckets[i];
    ChainGetIsFind(t.buckets[i], p.key);
    PutBucketOk(h, t, i, c);
    assert c[1..] == t.buckets[i];
  }

  lemma {:induction false} MoveChainOk<K(!new), V>(h: K -> nat, c: Chain<K, V>, t: Table<K, V>)
    requires TableOk(h, t) && t.buckets != [] && Distinct(c)
    requires forall k :: ChainGet(c, k).None? || Get(h, t, k).None?
    ensures TableOk(h, MoveChain(h, c, t)) && |MoveChain(h, c, t).buckets| == |t.buckets|
    ensures MoveChain(h, c, t).used == t.used + |c|
    ensures forall k :: Get(h, MoveChain(h, c, t), k)
                     == if ChainGet(c, k).Some? then ChainGet(c, k) else Get(h, t, k)
    decreases |c|
  {
    if c != [] {
      ChainGetAt(c, 0);
      PushOk(h, t, c[0]);
      ChainGetIsFind(c[1..], c[0].key);
      MoveChainOk(h, c[1..], Push(h, t, c[0]));
    }
  }

  // ---------- rehash steps ----------

  /** While entries remain in `t0`, the skip over empty buckets stops inside the table. */
  lemma SkipStops<K(!new), V>(h: K -> nat, d: Dict<K, V>)
    requires Valid(h, d) && Rehashing(d) && d.t0.used > 0
    ensures d.rehashidx <= SkipEmpty(d.t0.buckets, d.rehashidx) < |d.t0.buckets|
    ensures d.t0.buckets[SkipEmpty(d.t0.buckets, d.rehashidx)] != []
  {
    TotalEmpty(d.t0.buckets);
  }

  lemma ValidPhase<K(!new), V>(h: K -> nat, d: Dict<K, V>)
    requires Valid(h, d)
    ensures Phase(d) && -1 <= d.rehashidx <= |d.t0.buckets|
    ensures if Rehashing(d) then d.t0.buckets != [] && d.t1.buckets != [] else d.t1 == EmptyTable()
    ensures d.t0.used == Total(d.t0.buckets) && d.t1.used == Total(d.t1.buckets)
  {
  }

  /** Taking chain `i` out of the old table. */
  lemma TakeChain<K(!new), V>(h: K -> nat, t: Table<K, V>, i: nat)
    requires TableOk(h, t) && i < |t.buckets|
    ensures TableOk(h, PutBucket(t, i, [], -|t.buckets[i]|))
    ensures forall k :: ChainGet(t.buckets[i], k).Some? ==> Get(h, t, k) == ChainGet(t.buckets[i], k)
    ensures forall k :: Get(h, PutBucket(t, i, [], -|t.buckets[i]|), k)
                     == if ChainGet(t.buckets[i], k).Some? then None else Get(h, t, k)
  {
    PutBucketOk(h, t, i, []);
    var c := t.buckets[i];
    forall k ensures ChainGet(c, k).Some? ==> Slot(h, k, |t.buckets|) == i {
      ChainGetIsFind(c, k);
      if ChainGet(c, k).Some? { assert Slot(h, t.buckets[i][ChainFind(c, k)].key, |t.buckets|) == i; }
    }
  }

  lemma RehashMove<K(!new), V>(h: K -> nat, d: Dict<K, V>)
    requires Valid(h, d) && Rehashing(d) && d.t0.used > 0
    ensures var e := RehashStep(h, d);
            && Valid(h, e) && Rehashing(e)
            && (forall k :: Lookup(h, e, k) == Lookup(h, d, k))
            && e.t0.used + e.t1.used == d.t0.used + d.t1.used
            && e.iterators == d.iterators && e.rehashidx > d.rehashidx
            && |e.t0.buckets| == |d.t0.buckets| && |e.t1.buckets| == |d.t1.buckets|
  {
    SkipStops(h, d);
    var i := SkipEmpty(d.t0.buckets, d.rehashidx);
    var c := d.t0.buckets[i];
    TakeChain(h, d.t0, i);
    MoveChainOk(h, c, d.t1);
    var e := RehashStep(h, d);
    assert forall j :: 0 <= j < e.rehashidx ==> e.t0.buckets[j] == [];
    assert Disjoint(h, e.t0, e.t1);
  }

  lemma RehashFinish<K(!new), V>(h: K -> nat, d: Dict<K, V>)
    requires Valid(h, d) && Rehashing(d) && d.t0.used == 0
    ensures Valid(h, RehashStep(h, d)) && !Rehashing(RehashStep(h, d))
    ensures forall k :: Lookup(h, RehashStep(h, d), k) == Lookup(h, d, k)
    ensures RehashStep(h, d).t0 == d.t1 && RehashStep(h, d).iterators == d.iterators
  {
    TotalEmpty(d.t0.buckets);
  }

  lemma RehashStepKeeps<K(!new), V>(h: K -> nat, d: Dict<K, V>)
    requires Valid(h, d) && Rehashing(d)
    ensures var e := RehashStep(h, d);
            && Valid(h, e)
            && (forall k :: Lookup(h, e, k) == Lookup(h, d, k))
            && e.t0.used + e.t1.used == d.t0.used + d.t1.used
            && e.iterators == d.iterators
            && (if d.t0.used == 0 then !Rehashing(e) && e.t0 == d.t1
                else Rehashing(e) && e.rehashidx > d.rehashidx
                     && |e.t0.buckets| == |d.t0.buckets| && |e.t1.buckets| == |d.t1.buckets|)
  {
    if d.t0.used == 0 { RehashFinish(h, d); } else { RehashMove(h, d); }
  }

  // ---------- the abstraction ----------

  lemma TableKeysAre<K(!new), V>(h: K -> nat, t: Table<K, V>, k: K)
    requires TableOk(h, t)
    ensures k in TableKeys(t) <==> Get(h, t, k).Some?
  {
    if Get(h, t, k).Some? {
      var c := t.buckets[Slot(h, k, |t.buckets|)];
      ChainGetIsFind(c, k);
      assert c in t.buckets && c[ChainFind(c, k)] in c;
    }
    if k in TableKeys(t) {
      var c, p :| c in t.buckets && p in c && p.key == k;
      var i :| 0 <= i < |t.buckets| && t.buckets[i] == c;
      var j :| 0 <= j < |c| && c[j] == p;
      assert Slot(h, t.buckets[i][j].key, |t.buckets|) == i;
      ChainGetAt(c, j);
    }
  }

  lemma ToMapIs<K(!new), V>(h: K -> nat, d: Dict<K, V>)
    requires Valid(h, d)
    ensures forall k :: k in ToMap(h, d) <==> Lookup(h, d, k).Some?
    ensures forall k :: k in ToMap(h, d) ==> ToMap(h, d)[k] == Lookup(h, d, k).value
  {
    forall k ensures k in ToMap(h, d) <==> Lookup(h, d, k).Some? {
      TableKeysAre(h, d.t0, k);
      TableKeysAre(h, d.t1, k);
    }
  }

  lemma SameLookups<K(!new), V>(h: K -> nat, d: Dict<K, V>, e: Dict<K, V>)
    requires Valid(h, d) && Valid(h, e)
    requires forall k :: Lookup(h, e, k) == Lookup(h, d, k)
    ensures ToMap(h, e) == ToMap(h, d)
  {
    ToMapIs(h, d);
    ToMapIs(h, e);
  }

  // ---------- one operation ----------

  lemma TryRehashKeeps<K(!new), V>(h: K -> nat, d: Dict<K, V>)
    requires Valid(h, d)
    ensures Valid(h, TryRehash(h, d)) && ToMap(h, TryRehash(h, d)) == ToMap(h, d)
  {
    if Rehashing(d) && d.iterators == 0 {
      RehashStepKeeps(h, d);
      SameLookups(h, d, RehashStep(h, d));
    }
  }

  lemma TryRehashUsed<K(!new), V>(h: K -> nat, d: Dict<K, V>)
    requires Valid(h, d)
    ensures TryRehash(h, d).t0.used <= d.t0.used + d.t1.used
  {
    if Rehashing(d) { RehashStepKeeps(h, d); }
  }

  lemma TryRehashSize<K(!new), V>(h: K -> nat, d: Dict<K, V>)
    requires Valid(h, d) && |d.t0.buckets| > 0
    ensures |TryRehash(h, d).t0.buckets| > 0 && TryRehash(h, d).iterators == d.iterators
  {
    if Rehashing(d) { RehashStepKeeps(h, d); }
  }

  lemma FindUsed<K(!new), V>(h: K -> nat, d: Dict<K, V>, k: K)
    requires Valid(h, d)
    ensures Find(h, d, k).0.t0.used + Find(h, d, k).0.t1.used == d.t0.used + d.t1.used
    ensures Find(h, d, k).0.iterators == d.iterators
  {
    if Rehashing(d) { RehashStepKeeps(h, d); }
  }

  lemma NewTableOk<K(!new), V>(h: K -> nat, n: nat)
    requires IsPow2(n) && n >= INIT_SIZE
    ensures TableOk<K, V>(h, NewTable(n))
    ensures forall k :: Get<K, V>(h, NewTable(n), k).None?
  {
    TotalEmpty(NewTable<K, V>(n).buckets);
  }

  lemma ExpandKeeps<K(!new), V>(h: K -> nat, d: Dict<K, V>, size: int)
    requires Valid(h, d)
    ensures Valid(h, Expand(d, size).0) && ToMap(h, Expand(d, size).0) == ToMap(h, d)
  {
    var e := Expand(d, size).0;
    NewTableOk<K, V>(h, PowSize(size));
    TotalEmpty(d.t0.buckets);
    if !(Rehashing(d) || |d.t0.buckets| > size) {
      assert forall k :: Lookup(h, e, k) == Lookup(h, d, k);
    }
    SameLookups(h, d, e);
  }

  /** The expansion inside an add never fails, and leaves a table to insert into. */
  lemma TryExpandKeeps<K(!new), V>(h: K -> nat, d: Dict<K, V>)
    requires Valid(h, d)
    ensures Valid(h, TryExpand(d).0) && ToMap(h, TryExpand(d).0) == ToMap(h, d)
    ensures TryExpand(d).1 == 0 && TryExpand(d).0.t0.buckets != []
    ensures TryExpand(d).0.iterators == d.iterators
  {
    ExpandKeeps(h, d, INIT_SIZE);
    ExpandKeeps(h, d, d.t0.used * 2);
  }

  /** `t` maps `k` to `o` and agrees with `u` on every other key. */
  ghost predicate Changed<K(!new), V>(h: K -> nat, u: Table<K, V>, t: Table<K, V>, k: K, o: Option<V>)
  {
    && TableOk(h, t) && |t.buckets| == |u.buckets|
    && (forall x :: Get(h, t, x) == if x == k then o else Get(h, u, x))
    && forall i :: 0 <= i < |u.buckets| && u.buckets[i] == [] && o.None? ==> t.buckets[i] == []
  }

  lemma LookupChanged<K(!new), V>(h: K -> nat, d: Dict<K, V>, e: Dict<K, V>, k: K, o: Option<V>)
    requires Valid(h, d) && Valid(h, e)
    requires forall x :: Lookup(h, e, x) == if x == k then o else Lookup(h, d, x)
    ensures ToMap(h, e) == if o.Some? then ToMap(h, d)[k := o.value] else ToMap(h, d) - {k}
  {
    ToMapIs(h, d);
    ToMapIs(h, e);
  }

  lemma ChangeOld<K(!new), V>(h: K -> nat, d: Dict<K, V>, t: Table<K, V>, k: K, o: Option<V>)
    requires Valid(h, d) && Changed(h, d.t0, t, k, o) && Get(h, d.t1, k).None?
    requires Rehashing(d) ==> forall i :: 0 <= i < d.rehashidx ==> t.buckets[i] == []
    ensures var e := Dict(t, d.t1, d.rehashidx, d.iterators);
            && Valid(h, e)
            && ToMap(h, e) == if o.Some? then ToMap(h, d)[k := o.value] else ToMap(h, d) - {k}
  {
    var e := Dict(t, d.t1, d.rehashidx, d.iterators);
    assert Valid(h, e);
    forall x ensures Lookup(h, e, x) == if x == k then o else Lookup(h, d, x) {}
    LookupChanged(h, d, e, k, o);
  }

  lemma ChangeNew<K(!new), V>(h: K -> nat, d: Dict<K, V>, t: Table<K, V>, k: K, o: Option<V>)
    requires Valid(h, d) && Rehashing(d) && Changed(h, d.t1, t, k, o) && Get(h, d.t0, k).None?
    ensures var e := Dict(d.t0, t, d.rehashidx, d.iterators);
            && Valid(h, e)
            && ToMap(h, e) == if o.Some? then ToMap(h, d)[k := o.value] else ToMap(h, d) - {k}
  {
    var e := Dict(d.t0, t, d.rehashidx, d.iterators);
    assert Valid(h, e);
    forall x ensures Lookup(h, e, x) == if x == k then o else Lookup(h, d, x) {}
    LookupChanged(h, d, e, k, o);
  }

  lemma InsertKeeps<K(!new), V>(h: K -> nat, d: Dict<K, V>, p: Pair<K, V>)
    requires Valid(h, d) && d.t0.buckets != [] && p.key !in ToMap(h, d)
    ensures Valid(h, Insert(h, d, p)) && ToMap(h, Insert(h, d, p)) == ToMap(h, d)[p.key := p.value]
  {
    ToMapIs(h, d);
    assert Lookup(h, d, p.key).None?;
    if Rehashing(d) {
      PushOk(h, d.t1, p);
      ChangeNew(h, d, Push(h, d.t1, p), p.key, Some(p.value));
    } else {
      PushOk(h, d.t0, p);
      ChangeOld(h, d, Push(h, d.t0, p), p.key, Some(p.value));
    }
  }

  lemma AddSteppedRefines<K(!new), V>(h: K -> nat, d: Dict<K, V>, k: K, v: V)
    requires Valid(h, d)
    ensures var m := ToMap(h, d);
            var (e, rc) := AddStepped(h, d, k, v);
            && Valid(h, e)
            && rc == (if k in m then -1 else 1)
            && ToMap(h, e) == if k in m then m else m[k := v]
  {
    var e := TryExpand(d).0;
    TryExpandKeeps(h, d);
    ToMapIs(h, e);
    if k !in ToMap(h, e) { InsertKeeps(h, e, Pair(k, v)); }
  }

  lemma AddRefines<K(!new), V>(h: K -> nat, d: Dict<K, V>, k: K, v: V)
    requires Valid(h, d)
    ensures var m := ToMap(h, d);
            var (e, rc) := Add(h, d, k, v);
            && Valid(h, e)
            && rc == (if k in m then -1 else 1)
            && ToMap(h, e) == if k in m then m else m[k := v]
  {
    TryRehashKeeps(h, d);
    AddSteppedRefines(h, TryRehash(h, d), k, v);
  }

  lemma FindRefines<K(!new), V>(h: K -> nat, d: Dict<K, V>, k: K)
    requires Valid(h, d)
    ensures var m := ToMap(h, d);
            var (e, r) := Find(h, d, k);
            && Valid(h, e) && ToMap(h, e) == m
            && r == if k in m then Some(m[k]) else None
  {
    TryRehashKeeps(h, d);
    ToMapIs(h, d);
    ToMapIs(h, TryRehash(h, d));
  }

  lemma TablePutOk<K(!new), V>(h: K -> nat, t: Table<K, V>, k: K, v: V)
    requires TableOk(h, t) && Get(h, t, k).Some?
    ensures TableOk(h, TablePut(h, t, k, v)) && |TablePut(h, t, k, v).buckets| == |t.buckets|
    ensures forall x :: Get(h, TablePut(h, t, k, v), x) == if x == k then Some(v) else Get(h, t, x)
    ensures forall i :: 0 <= i < |t.buckets| && t.buckets[i] == [] ==> TablePut(h, t, k, v).buckets[i] == []
  {
    var i := Slot(h, k, |t.buckets|);
    ChainSetOk(t.buckets[i], k, v);
    PutBucketOk(h, t, i, ChainSet(t.buckets[i], k, v));
  }

  lemma TableRemoveOk<K(!new), V>(h: K -> nat, t: Table<K, V>, k: K)
    requires TableOk(h, t) && Get(h, t, k).Some?
    ensures TableOk(h, TableRemove(h, t, k)) && |TableRemove(h, t, k).buckets| == |t.buckets|
    ensures forall x :: Get(h, TableRemove(h, t, k), x) == if x == k then None else Get(h, t, x)
    ensures forall i :: 0 <= i < |t.buckets| && t.buckets[i] == [] ==> TableRemove(h, t, k).buckets[i] == []
  {
    var i := Slot(h, k, |t.buckets|);
    ChainRemoveOk(t.buckets[i], k);
    PutBucketOk(h, t, i, ChainRemove(t.buckets[i], k));
  }

  lemma ReplaceRefines<K(!new), V>(h: K -> nat, d: Dict<K, V>, k: K, v: V)
    requires Valid(h, d)
    ensures var m := ToMap(h, d);
            var (e, rc) := Replace(h, d, k, v);
            && Valid(h, e)
            && rc == (if k in m then 0 else 1)
            && ToMap(h, e) == m[k := v]
  {
    var (e, r) := Find(h, d, k);
    FindRefines(h, d, k);
    if r.None? {
      AddRefines(h, e, k, v);
    } else {
      ToMapIs(h, e);
      if Get(h, e.t0, k).Some? {
        TablePutOk(h, e.t0, k, v);
        ChangeOld(h, e, TablePut(h, e.t0, k, v), k, Some(v));
      } else {
        TablePutOk(h, e.t1, k, v);
        ChangeNew(h, e, TablePut(h, e.t1, k, v), k, Some(v));
      }
    }
  }

  lemma DeleteOld<K(!new), V>(h: K -> nat, e: Dict<K, V>, k: K)
    requires Valid(h, e) && Get(h, e.t0, k).Some?
    ensures var r := Dict(TableRemove(h, e.t0, k), e.t1, e.rehashidx, e.iterators);
            Valid(h, r) && ToMap(h, r) == ToMap(h, e) - {k}
  {
    TableRemoveOk(h, e.t0, k);
    ChangeOld(h, e, TableRemove(h, e.t0, k), k, None);
  }

  lemma DeleteNew<K(!new), V>(h: K -> nat, e: Dict<K, V>, k: K)
    requires Valid(h, e) && Rehashing(e) && Get(h, e.t1, k).Some?
    ensures var r := Dict(e.t0, TableRemove(h, e.t1, k), e.rehashidx, e.iterators);
            Valid(h, r) && ToMap(h, r) == ToMap(h, e) - {k}
  {
    TableRemoveOk(h, e.t1, k);
    ChangeNew(h, e, TableRemove(h, e.t1, k), k, None);
  }

  lemma Found<K, V>(h: K -> nat, d: Dict<K, V>, k: K)
    ensures var (e, r) := Find(h, d, k);
            r.Some? && Get(h, e.t0, k).None? ==> Rehashing(e) && Get(h, e.t1, k).Some?
  {
    hide TryRehash, Get;
  }

  lemma DeleteRefines<K(!new), V>(h: K -> nat, d: Dict<K, V>, k: K)
    requires Valid(h, d)
    ensures var m := ToMap(h, d);
            var (e, rc) := Delete(h, d, k);
            && Valid(h, e)
            && rc == (if k in m then 1 else 0)
            && ToMap(h, e) == m - {k}
  {
    hide Valid, Find, ToMap, Get, TableRemove;
    var (e, r) := Find(h, d, k);
    FindRefines(h, d, k);
    Found(h, d, k);
    if r.Some? {
      if Get(h, e.t0, k).Some? { DeleteOld(h, e, k); } else { DeleteNew(h, e, k); }
    }
  }

  lemma ClearRefines<K(!new), V>(h: K -> nat, d: Dict<K, V>)
    ensures Valid(h, Clear(d)) && ToMap(h, Clear(d)) == map[]
  {
  }

  lemma {:induction false} RehashKeeps<K(!new), V>(h: K -> nat, d: Dict<K, V>, n: nat)
    requires Valid(h, d)
    ensures Valid(h, Rehash(h, d, n)) && ToMap(h, Rehash(h, d, n)) == ToMap(h, d)
    decreases n
  {
    if n > 0 && Rehashing(d) {
      RehashStepKeeps(h, d);
      SameLookups(h, d, RehashStep(h, d));
      RehashKeeps(h, RehashStep(h, d), n - 1);
    }
  }
}
