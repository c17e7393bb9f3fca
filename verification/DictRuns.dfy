/** What holds over whole runs of dictionary calls: agreement with a finite map,
    progress of the rehash, and the bound on the load. */
module DictRuns {
  import opened Options
  import opened TableIndex
  import opened DictModel
  import opened DictRefine

  datatype Op<K, V> =
    | AddOp(key: K, value: V)
    | ReplaceOp(key: K, value: V)
    | FindOp(key: K)
    | DeleteOp(key: K)
    | ClearOp
    | ExpandOp(size: nat)       // dict_expand called from outside
    | RehashOp(steps: nat)      // dict_rehash called from outside
    | IteratorsOp(open: nat)    // iterators opened or closed: `open` of them remain

  /** What the caller sees: a return code, a value, or nothing a map could predict. */
  datatype Answer<V> = Code(rc: int) | Found(value: Option<V>) | Silent

  ghost function Exec<K, V>(h: K -> nat, d: Dict<K, V>, op: Op<K, V>): (Dict<K, V>, Answer<V>)
  {
    match op
    case AddOp(k, v) => var (e, rc) := Add(h, d, k, v); (e, Code(rc))
    case ReplaceOp(k, v) => var (e, rc) := Replace(h, d, k, v); (e, Code(rc))
    case FindOp(k) => var (e, r) := Find(h, d, k); (e, Found(r))
    case DeleteOp(k) => var (e, rc) := Delete(h, d, k); (e, Code(rc))
    case ClearOp => (Clear(d), Silent)
    case ExpandOp(size) => (Expand(d, size).0, Silent)
    case RehashOp(n) => (Rehash(h, d, n), Silent)
    case IteratorsOp(n) => (Dict(d.t0, d.t1, d.rehashidx, n), Silent)
  }

  ghost function MapExec<K, V>(m: map<K, V>, op: Op<K, V>): (map<K, V>, Answer<V>)
  {
    match op
    case AddOp(k, v) => if k in m then (m, Code(-1)) else (m[k := v], Code(1))
    case ReplaceOp(k, v) => (m[k := v], Code(if k in m then 0 else 1))
    case FindOp(k) => (m, Found(if k in m then Some(m[k]) else None))
    case DeleteOp(k) => (m - {k}, Code(if k in m then 1 else 0))
    case ClearOp => (map[], Silent)
    case _ => (m, Silent)
  }

  ghost function Run<K, V>(h: K -> nat, d: Dict<K, V>, ops: seq<Op<K, V>>): (Dict<K, V>, seq<Answer<V>>)
    decreases |ops|
  {
    if ops == [] then (d, [])
    else
      var (e, a) := Exec(h, d, ops[0]);
      var (f, rest) := Run(h, e, ops[1..]);
      (f, [a] + rest)
  }

  ghost function MapRun<K, V>(m: map<K, V>, ops: seq<Op<K, V>>): (map<K, V>, seq<Answer<V>>)
    decreases |ops|
  {
    if ops == [] then (m, [])
    else
      var (n, a) := MapExec(m, ops[0]);
      var (f, rest) := MapRun(n, ops[1..]);
      (f, [a] + rest)
  }

  lemma ExecRefines<K(!new), V>(h: K -> nat, d: Dict<K, V>, op: Op<K, V>)
    requires Valid(h, d)
    ensures Valid(h, Exec(h, d, op).0)
    ensures (ToMap(h, Exec(h, d, op).0), Exec(h, d, op).1) == MapExec(ToMap(h, d), op)
  {
    match op
    case AddOp(k, v) => AddRefines(h, d, k, v);
    case ReplaceOp(k, v) => ReplaceRefines(h, d, k, v);
    case FindOp(k) => FindRefines(h, d, k);
    case DeleteOp(k) => DeleteRefines(h, d, k);
    case ClearOp => ClearRefines(h, d);
    case ExpandOp(size) => ExpandKeeps(h, d, size);
    case RehashOp(n) => RehashKeeps(h, d, n);
    case IteratorsOp(n) =>
      var e := Dict(d.t0, d.t1, d.rehashidx, n);
      assert Valid(h, e);
      SameLookups(h, d, e);
  }

  /** Any run, from any reachable state, answers as the finite map does. */
  lemma {:induction false} RunRefines<K(!new), V>(h: K -> nat, d: Dict<K, V>, ops: seq<Op<K, V>>)
    requires Valid(h, d)
    ensures Valid(h, Run(h, d, ops).0)
    ensures (ToMap(h, Run(h, d, ops).0), Run(h, d, ops).1) == MapRun(ToMap(h, d), ops)
    decreases |ops|
  {
    if ops != [] {
      ExecRefines(h, d, ops[0]);
      RunRefines(h, Exec(h, d, ops[0]).0, ops[1..]);
    }
  }

  lemma EmptyOk<K(!new), V>(h: K -> nat)
    ensures Valid<K, V>(h, EmptyDict()) && ToMap<K, V>(h, EmptyDict()) == map[] && LoadOk<K, V>(EmptyDict())
  {
  }

  // ---------- both `used` counters together are the number of keys ----------

  ghost function ChainKeys<K, V>(c: Chain<K, V>): set<K> { set p | p in c :: p.key }

  ghost function BucketKeys<K, V>(b: seq<Chain<K, V>>): set<K> { set c, p | c in b && p in c :: p.key }

  lemma {:induction false} ChainKeysCount<K, V>(c: Chain<K, V>)
    requires Distinct(c)
    ensures |ChainKeys(c)| == |c|
  {
    if c != [] {
      ChainKeysCount(c[1..]);
      assert ChainKeys(c) == {c[0].key} + ChainKeys(c[1..]);
      assert c[0].key !in ChainKeys(c[1..]);
    }
  }

  lemma {:induction false} BucketKeysCount<K, V>(b: seq<Chain<K, V>>)
    requires forall i :: 0 <= i < |b| ==> Distinct(b[i])
    requires forall i, j :: 0 <= i < j < |b| ==> ChainKeys(b[i]) !! ChainKeys(b[j])
    ensures |BucketKeys(b)| == Total(b)
  {
    if b != [] {
      var rest := b[1..];
      assert BucketKeys(b) == ChainKeys(b[0]) + BucketKeys(rest);
      forall k | k in BucketKeys(rest) ensures k !in ChainKeys(b[0]) {
        var c, p :| c in rest && p in c && p.key == k;
        var i :| 0 <= i < |rest| && rest[i] == c;
        assert k in ChainKeys(b[i + 1]);
      }
      ChainKeysCount(b[0]);
      BucketKeysCount(rest);
    }
  }

  lemma TableKeysCount<K(!new), V>(h: K -> nat, t: Table<K, V>)
    requires TableOk(h, t)
    ensures |TableKeys(t)| == t.used
  {
    var b := t.buckets;
    forall i, k | 0 <= i < |b| && k in ChainKeys(b[i]) ensures Slot(h, k, |b|) == i {
      var j :| 0 <= j < |b[i]| && b[i][j].key == k;
    }
    forall i, j | 0 <= i < j < |b| ensures ChainKeys(b[i]) !! ChainKeys(b[j]) {}
    BucketKeysCount(b);
    assert BucketKeys(b) == TableKeys(t);
  }

  lemma UsedCountsKeys<K(!new), V>(h: K -> nat, d: Dict<K, V>)
    requires Valid(h, d)
    ensures d.t0.used + d.t1.used == |ToMap(h, d)|
  {
    ToMapIs(h, d);
    forall k ensures k in ToMap(h, d) <==> k in TableKeys(d.t0) + TableKeys(d.t1)
             ensures k !in TableKeys(d.t0) || k !in TableKeys(d.t1) {
      TableKeysAre(h, d.t0, k);
      TableKeysAre(h, d.t1, k);
    }
    TableKeysCount(h, d.t0);
    TableKeysCount(h, d.t1);
    assert ToMap(h, d).Keys == TableKeys(d.t0) + TableKeys(d.t1);
    assert |ToMap(h, d)| == |ToMap(h, d).Keys|;
  }

  // ---------- rehash progress ----------

  /** Steps that are certainly enough: one for each bucket still ahead, one to finish. */
  ghost function StepsLeft<K, V>(d: Dict<K, V>): int
  {
    if Rehashing(d) then |d.t0.buckets| - d.rehashidx + 1 else 0
  }

  lemma {:induction false} RehashEnds<K(!new), V>(h: K -> nat, d: Dict<K, V>, n: nat)
    requires Valid(h, d) && n >= StepsLeft(d)
    ensures !Rehashing(Rehash(h, d, n)) && ToMap(h, Rehash(h, d, n)) == ToMap(h, d)
    decreases n
  {
    RehashKeeps(h, d, n);
    if Rehashing(d) {
      RehashStepKeeps(h, d);
      SameLookups(h, d, RehashStep(h, d));
      RehashEnds(h, RehashStep(h, d), n - 1);
    }
  }

  // ---------- the load bound ----------

  ghost predicate LoadOk<K, V>(d: Dict<K, V>)
  {
    if Rehashing(d) then
      d.t0.used + d.t1.used + (|d.t0.buckets| - d.rehashidx) <= |d.t1.buckets| + 1
    else
      d.t0.used <= |d.t0.buckets| + (if d.t0.buckets == [] then 0 else 1)
  }

  /** The same bound with room for the entry that the call is about to link. */
  ghost predicate RoomForOne<K, V>(d: Dict<K, V>)
  {
    if Rehashing(d) then
      d.t0.used + d.t1.used + (|d.t0.buckets| - d.rehashidx) <= |d.t1.buckets|
    else
      d.t0.used <= |d.t0.buckets| && d.t0.buckets != []
  }

  lemma TryRehashMakesRoom<K(!new), V>(h: K -> nat, d: Dict<K, V>)
    requires Valid(h, d) && LoadOk(d) && d.iterators == 0
    ensures LoadOk(TryRehash(h, d))
    ensures Rehashing(TryRehash(h, d)) ==> RoomForOne(TryRehash(h, d))
  {
    if Rehashing(d) { RehashStepKeeps(h, d); }
  }

  lemma TryExpandMakesRoom<K(!new), V>(h: K -> nat, d: Dict<K, V>)
    requires Valid(h, d) && LoadOk(d) && (Rehashing(d) ==> RoomForOne(d))
    ensures RoomForOne(TryExpand(d).0)
    ensures !Rehashing(TryExpand(d).0) ==> TryExpand(d).0.t0.used < |TryExpand(d).0.t0.buckets|
  {
    TotalEmpty(d.t0.buckets);
  }

  lemma AddKeepsLoad<K(!new), V>(h: K -> nat, d: Dict<K, V>, k: K, v: V)
    requires Valid(h, d) && LoadOk(d) && d.iterators == 0
    ensures LoadOk(Add(h, d, k, v).0) && Add(h, d, k, v).0.iterators == 0
  {
    var e := TryRehash(h, d);
    TryRehashKeeps(h, d);
    TryRehashMakesRoom(h, d);
    TryExpandMakesRoom(h, e);
    TryExpandKeeps(h, e);
    var f := TryExpand(e).0;
    ToMapIs(h, f);
    if Rehashing(d) { RehashStepKeeps(h, d); }
    if Lookup(h, f, k).None? {
      if Rehashing(f) { PushOk(h, f.t1, Pair(k, v)); } else { PushOk(h, f.t0, Pair(k, v)); }
    }
  }

  lemma FindKeepsLoad<K(!new), V>(h: K -> nat, d: Dict<K, V>, k: K)
    requires Valid(h, d) && LoadOk(d) && d.iterators == 0
    ensures LoadOk(Find(h, d, k).0) && Find(h, d, k).0.iterators == 0
  {
    TryRehashMakesRoom(h, d);
    if Rehashing(d) { RehashStepKeeps(h, d); }
  }

  lemma ReplaceKeepsLoad<K(!new), V>(h: K -> nat, d: Dict<K, V>, k: K, v: V)
    requires Valid(h, d) && LoadOk(d) && d.iterators == 0
    ensures LoadOk(Replace(h, d, k, v).0) && Replace(h, d, k, v).0.iterators == 0
  {
    hide Valid, Add, Find, ToMap, Get, Slot;
    var (e, r) := Find(h, d, k);
    FindKeepsLoad(h, d, k);
    FindRefines(h, d, k);
    if r.None? { AddKeepsLoad(h, e, k, v); }
  }

  lemma DeleteKeepsLoad<K(!new), V>(h: K -> nat, d: Dict<K, V>, k: K)
    requires Valid(h, d) && LoadOk(d) && d.iterators == 0
    ensures LoadOk(Delete(h, d, k).0) && Delete(h, d, k).0.iterators == 0
  {
    FindKeepsLoad(h, d, k);
  }

  /** The calls the bound speaks of: no open iterator, no outside expansion. */
  ghost predicate Ordinary<K, V>(op: Op<K, V>)
  {
    op.AddOp? || op.ReplaceOp? || op.FindOp? || op.DeleteOp? || op.ClearOp?
  }

  /** After any run of ordinary calls the load bound holds, and there the number of keys
      is bounded by the capacity in use. */
  lemma {:induction false} LoadBound<K(!new), V>(h: K -> nat, d: Dict<K, V>, ops: seq<Op<K, V>>)
    requires Valid(h, d) && LoadOk(d) && d.iterators == 0
    requires forall op :: op in ops ==> Ordinary(op)
    ensures LoadOk(Run(h, d, ops).0)
    ensures var e := Run(h, d, ops).0;
            |ToMap(h, e)| <= (if Rehashing(e) then |e.t1.buckets| else |e.t0.buckets|) + 1
    decreases |ops|
  {
    if ops == [] {
      UsedCountsKeys(h, d);
    } else {
      var op := ops[0];
      ExecRefines(h, d, op);
      assert op in ops;
      match op {
        case AddOp(k, v) => AddKeepsLoad(h, d, k, v);
        case ReplaceOp(k, v) => ReplaceKeepsLoad(h, d, k, v);
        case FindOp(k) => FindKeepsLoad(h, d, k);
        case DeleteOp(k) => DeleteKeepsLoad(h, d, k);
        case _ =>
      }
      LoadBound(h, Exec(h, d, op).0, ops[1..]);
    }
  }

  // ---------- why the bound needs its conditions ----------

  /** Adding the keys of `ks` one after the other. */
  ghost function Adds<K, V>(ks: seq<K>, v: V): (r: seq<Op<K, V>>)
    ensures |r| == |ks|
  {
    if ks == [] then [] else [AddOp(ks[0], v)] + Adds(ks[1..], v)
  }

  lemma AddUnderIterator<K(!new), V>(h: K -> nat, d: Dict<K, V>, k: K, v: V)
    requires Valid(h, d) && Rehashing(d) && d.iterators > 0 && k !in ToMap(h, d)
    ensures var e := Add(h, d, k, v).0;
            && Valid(h, e) && Rehashing(e) && e.iterators == d.iterators && ToMap(h, e) == ToMap(h, d)[k := v]
            && e.t0 == d.t0 && e.t1.used == d.t1.used + 1 && |e.t1.buckets| == |d.t1.buckets|
  {
    AddRefines(h, d, k, v);
    ToMapIs(h, d);
    ValidPhase(h, d);
  }

  /** While an iterator keeps a rehash from going on, every new key adds to the load, and no table grows. */
  lemma {:induction false} AddsUnderIterator<K(!new), V>(h: K -> nat, d: Dict<K, V>, ks: seq<K>, v: V)
    requires Valid(h, d) && Rehashing(d) && d.iterators > 0
    requires forall i :: 0 <= i < |ks| ==> ks[i] !in ToMap(h, d)
    requires forall i, j :: 0 <= i < j < |ks| ==> ks[i] != ks[j]
    ensures var e := Run(h, d, Adds(ks, v)).0;
            && Rehashing(e) && e.t0 == d.t0 && e.rehashidx == d.rehashidx
            && e.t1.used == d.t1.used + |ks| && |e.t1.buckets| == |d.t1.buckets|
    decreases |ks|
  {
    hide Valid, Add, ToMap;
    if ks != [] {
      AddUnderIterator(h, d, ks[0], v);
      AddKeepsIndex(h, d, ks[0], v);
      AddsUnderIterator(h, Add(h, d, ks[0], v).0, ks[1..], v);
      assert Adds(ks, v)[1..] == Adds(ks[1..], v);
    }
  }

  lemma AddKeepsIndex<K(!new), V>(h: K -> nat, d: Dict<K, V>, k: K, v: V)
    requires Rehashing(d) && d.iterators > 0
    ensures Add(h, d, k, v).0.rehashidx == d.rehashidx
  {
  }

  /** With an iterator open during a rehash, the load bound breaks after exactly that many new keys
      as there was room for: it holds if and only if they still fit. */
  lemma OpenIteratorLoad<K(!new), V>(h: K -> nat, d: Dict<K, V>, ks: seq<K>, v: V)
    requires Valid(h, d) && Rehashing(d) && d.iterators > 0
    requires forall i :: 0 <= i < |ks| ==> ks[i] !in ToMap(h, d)
    requires forall i, j :: 0 <= i < j < |ks| ==> ks[i] != ks[j]
    ensures LoadOk(Run(h, d, Adds(ks, v)).0)
       <==> d.t0.used + d.t1.used + (|d.t0.buckets| - d.rehashidx) + |ks| <= |d.t1.buckets| + 1
  {
    AddsUnderIterator(h, d, ks, v);
  }

  /** An expansion from outside to the size that a table already has starts a rehash that the bound
      does not cover as soon as there are two entries. */
  lemma OutsideExpansionLoad<K(!new), V>(h: K -> nat, d: Dict<K, V>)
    requires Valid(h, d) && !Rehashing(d) && d.t0.buckets != []
    ensures LoadOk(Expand(d, |d.t0.buckets|).0) <==> d.t0.used <= 1
  {
    ValidPhase(h, d);
    var n := |d.t0.buckets|;
    PowSizeFromLeast(INIT_SIZE, n, n);
  }
}
