/** The incrementally rehashed dictionary as a transition system on values.
    A table is a sequence of chains; the head of a chain is its first element,
    and an insertion goes to the head.  `DictHeap` refines these transitions on
    linked entries, and the refinement, load and iterator theorems are about them.
    Branches marked "not reached" only make the functions total: `Valid` excludes them. */
module DictModel {
  import opened Options
  import opened TableIndex

  datatype Pair<+K, +V> = Pair(key: K, value: V)

  type Chain<K, V> = seq<Pair<K, V>>

  /** `used` is a counter of its own: that it equals the chain total is proved. */
  datatype Table<K, V> = Table(buckets: seq<Chain<K, V>>, used: int)

  /** Two tables; `rehashidx == -1` means that only `t0` is in use. */
  datatype Dict<K, V> = Dict(t0: Table<K, V>, t1: Table<K, V>, rehashidx: int, iterators: int)

  ghost function EmptyTable<K, V>(): Table<K, V> { Table([], 0) }

  ghost function EmptyDict<K, V>(): Dict<K, V> { Dict(EmptyTable(), EmptyTable(), -1, 0) }

  ghost predicate Rehashing<K, V>(d: Dict<K, V>) { d.rehashidx != -1 }

  /** `hash & mask`; the mask of an empty table is 0. */
  ghost function Slot<K>(h: K -> nat, k: K, n: nat): nat
  {
    if n == 0 then 0 else h(k) % n
  }

  // ---------- chains ----------

  ghost function ChainGet<K, V>(c: Chain<K, V>, k: K): Option<V>
  {
    if c == [] then None
    else if c[0].key == k then Some(c[0].value)
    else ChainGet(c[1..], k)
  }

  /** Position of the first entry with key `k`, or `|c|`. */
  ghost function ChainFind<K, V>(c: Chain<K, V>, k: K): (r: nat)
    ensures r <= |c|
    ensures r < |c| ==> c[r].key == k
    ensures forall j :: 0 <= j < r ==> c[j].key != k
  {
    if c == [] || c[0].key == k then 0 else 1 + ChainFind(c[1..], k)
  }

  ghost function ChainSet<K, V>(c: Chain<K, V>, k: K, v: V): Chain<K, V>
  {
    var i := ChainFind(c, k);
    if i < |c| then c[i := Pair(c[i].key, v)] else c
  }

  ghost function ChainRemove<K, V>(c: Chain<K, V>, k: K): Chain<K, V>
  {
    var i := ChainFind(c, k);
    if i < |c| then c[..i] + c[i + 1..] else c
  }

  ghost predicate Distinct<K, V>(c: Chain<K, V>)
  {
    forall i, j :: 0 <= i < j < |c| ==> c[i].key != c[j].key
  }

  // ---------- tables ----------

  ghost function Total<K, V>(b: seq<Chain<K, V>>): nat
  {
    if b == [] then 0 else |b[0]| + Total(b[1..])
  }

  ghost function Get<K, V>(h: K -> nat, t: Table<K, V>, k: K): Option<V>
  {
    if |t.buckets| == 0 then None else ChainGet(t.buckets[Slot(h, k, |t.buckets|)], k)
  }

  ghost function PutBucket<K, V>(t: Table<K, V>, i: nat, c: Chain<K, V>, delta: int): Table<K, V>
  {
    if i < |t.buckets| then Table(t.buckets[i := c], t.used + delta) else t  // else: not reached
  }

  ghost function Bucket<K, V>(t: Table<K, V>, i: nat): Chain<K, V>
  {
    if i < |t.buckets| then t.buckets[i] else []
  }

  /** Link a new entry in front of its chain. */
  ghost function Push<K, V>(h: K -> nat, t: Table<K, V>, p: Pair<K, V>): Table<K, V>
  {
    var i := Slot(h, p.key, |t.buckets|);
    PutBucket(t, i, [p] + Bucket(t, i), 1)
  }

  ghost function TablePut<K, V>(h: K -> nat, t: Table<K, V>, k: K, v: V): Table<K, V>
  {
    var i := Slot(h, k, |t.buckets|);
    PutBucket(t, i, ChainSet(Bucket(t, i), k, v), 0)
  }

  ghost function TableRemove<K, V>(h: K -> nat, t: Table<K, V>, k: K): Table<K, V>
  {
    var i := Slot(h, k, |t.buckets|);
    PutBucket(t, i, ChainRemove(Bucket(t, i), k), -1)
  }

  ghost predicate Placed<K, V>(h: K -> nat, b: seq<Chain<K, V>>)
  {
    forall i, j :: 0 <= i < |b| && 0 <= j < |b[i]| ==> Slot(h, b[i][j].key, |b|) == i
  }

  ghost predicate TableOk<K, V>(h: K -> nat, t: Table<K, V>)
  {
    && (t.buckets == [] || (IsPow2(|t.buckets|) && |t.buckets| >= INIT_SIZE))
    && t.used == Total(t.buckets)
    && Placed(h, t.buckets)
    && forall i :: 0 <= i < |t.buckets| ==> Distinct(t.buckets[i])
  }

  // ---------- the dictionary ----------

  ghost predicate Disjoint<K(!new), V>(h: K -> nat, t0: Table<K, V>, t1: Table<K, V>)
  {
    forall k :: Get(h, t0, k).None? || Get(h, t1, k).None?
  }

  ghost predicate Phase<K, V>(d: Dict<K, V>)
  {
    if Rehashing(d) then
      && 0 <= d.rehashidx <= |d.t0.buckets|
      && d.t0.buckets != [] && d.t1.buckets != []
      && forall i :: 0 <= i < d.rehashidx ==> d.t0.buckets[i] == []
    else
      d.t1 == EmptyTable()
  }

  ghost predicate Valid<K(!new), V>(h: K -> nat, d: Dict<K, V>)
  {
    TableOk(h, d.t0) && TableOk(h, d.t1) && Disjoint(h, d.t0, d.t1) && Phase(d)
  }

  /** Move every entry of `c`, front to back, to the head of its new chain. */
  ghost function MoveChain<K, V>(h: K -> nat, c: Chain<K, V>, t: Table<K, V>): Table<K, V>
  {
    if c == [] then t else MoveChain(h, c[1..], Push(h, t, c[0]))
  }

  /** Where the empty-bucket skip stops; `|b|` when it would run off the table. */
  ghost function SkipEmpty<K, V>(b: seq<Chain<K, V>>, i: int): (r: int)
    ensures 0 <= i <= |b| ==> i <= r <= |b|
    ensures 0 <= i <= r < |b| ==> b[r] != []
    ensures forall j :: 0 <= i <= j < r && r <= |b| ==> b[j] == []
    decreases |b| - i
  {
    if 0 <= i < |b| && |b[i]| == 0 then SkipEmpty(b, i + 1) else i
  }

  /** One turn of the loop of `dict_rehash`. */
  ghost function RehashStep<K, V>(h: K -> nat, d: Dict<K, V>): Dict<K, V>
  {
    if d.t0.used == 0 then
      Dict(d.t1, EmptyTable(), -1, d.iterators)
    else
      var i := SkipEmpty(d.t0.buckets, d.rehashidx);
      if 0 <= i < |d.t0.buckets| then
        var c := d.t0.buckets[i];
        Dict(PutBucket(d.t0, i, [], -|c|), MoveChain(h, c, d.t1), i + 1, d.iterators)
      else d  // not reached: see SkipStops
  }

  /** `dict_rehash(d, n)`: the loop ends early when the rehash is finished. */
  ghost function Rehash<K, V>(h: K -> nat, d: Dict<K, V>, n: nat): Dict<K, V>
    decreases n
  {
    if n == 0 || !Rehashing(d) then d else Rehash(h, RehashStep(h, d), n - 1)
  }

  /** DICT_TRY_REHASH: one step unless an iterator is open. */
  ghost function TryRehash<K, V>(h: K -> nat, d: Dict<K, V>): Dict<K, V>
  {
    if Rehashing(d) && d.iterators == 0 then RehashStep(h, d) else d
  }

  ghost function NewTable<K, V>(n: nat): Table<K, V> { Table(seq(n, _ => []), 0) }

  /** `dict_expand`: -1 when rehashing or already larger, else 0. */
  ghost function Expand<K, V>(d: Dict<K, V>, size: int): (Dict<K, V>, int)
  {
    if Rehashing(d) || |d.t0.buckets| > size then (d, -1)
    else
      var t := NewTable(PowSize(size));
      if |d.t0.buckets| == 0 then (Dict(t, d.t1, d.rehashidx, d.iterators), 0)
      else (Dict(d.t0, t, 0, d.iterators), 0)
  }

  ghost function TryExpand<K, V>(d: Dict<K, V>): (Dict<K, V>, int)
  {
    if Rehashing(d) then (d, 0)
    else if |d.t0.buckets| == 0 then Expand(d, INIT_SIZE)
    else if d.t0.used >= |d.t0.buckets| then Expand(d, d.t0.used * 2)
    else (d, 0)
  }

  /** The search common to find, delete and the duplicate test of add. */
  ghost function Lookup<K, V>(h: K -> nat, d: Dict<K, V>, k: K): Option<V>
  {
    var r := Get(h, d.t0, k);
    if r.Some? || !Rehashing(d) then r else Get(h, d.t1, k)
  }

  ghost function Insert<K, V>(h: K -> nat, d: Dict<K, V>, p: Pair<K, V>): Dict<K, V>
  {
    if Rehashing(d) then Dict(d.t0, Push(h, d.t1, p), d.rehashidx, d.iterators)
    else Dict(Push(h, d.t0, p), d.t1, d.rehashidx, d.iterators)
  }

  /** `dict_add`: 1 when the key was added, -1 when it was there. */
  ghost function Add<K, V>(h: K -> nat, d: Dict<K, V>, k: K, v: V): (Dict<K, V>, int)
  {
    AddStepped(h, TryRehash(h, d), k, v)
  }

  ghost function AddStepped<K, V>(h: K -> nat, d: Dict<K, V>, k: K, v: V): (Dict<K, V>, int)
  {
    var (e, rc) := TryExpand(d);
    if rc < 0 || Lookup(h, e, k).Some? then (e, -1)
    else (Insert(h, e, Pair(k, v)), 1)
  }

  /** `dict_find`. */
  ghost function Find<K, V>(h: K -> nat, d: Dict<K, V>, k: K): (Dict<K, V>, Option<V>)
  {
    if |d.t0.buckets| == 0 then (d, None)
    else
      var e := TryRehash(h, d);
      (e, Lookup(h, e, k))
  }

  /** `dict_replace`: 0 when a value was overwritten, else the result of `dict_add`. */
  ghost function Replace<K, V>(h: K -> nat, d: Dict<K, V>, k: K, v: V): (Dict<K, V>, int)
  {
    var (e, r) := Find(h, d, k);
    if r.None? then Add(h, e, k, v)
    else if Get(h, e.t0, k).Some? then (Dict(TablePut(h, e.t0, k, v), e.t1, e.rehashidx, e.iterators), 0)
    else (Dict(e.t0, TablePut(h, e.t1, k, v), e.rehashidx, e.iterators), 0)
  }

  /** `dict_del_internal`: 1 when an entry was unlinked, else 0. */
  ghost function Delete<K, V>(h: K -> nat, d: Dict<K, V>, k: K): (Dict<K, V>, int)
  {
    var (e, r) := Find(h, d, k);
    if r.None? then (e, 0)
    else if Get(h, e.t0, k).Some? then (Dict(TableRemove(h, e.t0, k), e.t1, e.rehashidx, e.iterators), 1)
    else (Dict(e.t0, TableRemove(h, e.t1, k), e.rehashidx, e.iterators), 1)
  }

  /** `dict_clear`. */
  ghost function Clear<K, V>(d: Dict<K, V>): Dict<K, V>
  {
    Dict(EmptyTable(), EmptyTable(), -1, d.iterators)
  }

  // ---------- the finite map it stands for ----------

  ghost function TableKeys<K, V>(t: Table<K, V>): set<K>
  {
    set c, p | c in t.buckets && p in c :: p.key
  }

  ghost function ToMap<K, V>(h: K -> nat, d: Dict<K, V>): map<K, V>
  {
    map k | k in TableKeys(d.t0) + TableKeys(d.t1) && Lookup(h, d, k).Some? :: Lookup(h, d, k).value
  }
}
