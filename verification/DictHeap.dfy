/** The dictionary object.  Every method is proved against the transition of `DictModel`
    with the same name, so the refinement, load and iterator theorems apply to it. */
module DictHeap {
  import opened Options
  import opened TableIndex
  import opened HashTable
  import M = DictModel
  import R = DictRefine
  import I = DictIterate

  class Dict<K(==, !new), V> {
    const hash: K -> nat
    var t0: Table<K, V>
    var t1: Table<K, V>
    var rehashidx: int
    var iterators: int

    ghost function Repr(): (r: set<object>)
      reads `t0, `t1, t0, t1
      ensures {this, t0, t1} <= r
    {
      {this} + t0.Repr() + t1.Repr()
    }

    /** The two tables are well linked and share nothing. */
    ghost predicate Shape()
      reads `t0, `t1, t0, t1, t0.Repr(), t1.Repr()
      ensures Shape() ==> this !in t0.Repr() && this !in t1.Repr()
    {
      && this !in t0.Repr() && this !in t1.Repr() && t0.Repr() !! t1.Repr()
      && t0.Valid() && t1.Valid()
    }

    ghost function Model(): M.Dict<K, V>
      requires Shape()
      reads this, t0, t1, t0.Repr(), t1.Repr()
    {
      M.Dict(t0.Model(), t1.Model(), rehashidx, iterators)
    }

    /** The finite map that the two tables stand for. */
    ghost function Map(): map<K, V>
      requires Shape()
      reads this, t0, t1, t0.Repr(), t1.Repr()
    {
      M.ToMap(hash, Model())
    }

    ghost predicate Valid()
      reads this, t0, t1, t0.Repr(), t1.Repr()
      ensures Valid() ==> Shape()
    {
      Shape() && M.Valid(hash, Model())
    }

    lemma Facts()
      requires Valid()
      ensures Shape() && M.Valid(hash, Model())
      ensures t0.size == |Model().t0.buckets| && t1.size == |Model().t1.buckets|
    {
    }

    lemma IsValid()
      requires Shape() && M.Valid(hash, Model())
      ensures Valid()
    {
    }

    /** `dict_create`. */
    constructor (hash: K -> nat)
      ensures Valid() && fresh(Repr()) && this.hash == hash && Model() == M.EmptyDict()
    {
      this.hash := hash;
      t0 := new Table.Reset();
      t1 := new Table.Reset();
      rehashidx, iterators := -1, 0;
      new;
      assert M.Valid<K, V>(hash, M.EmptyDict());
      hide M.Valid, Table.Valid, Table.Model, Table.Repr;
    }

    method MoveEntry(entry: Entry<K, V>)
      requires t1.Valid() && t1.size > 0 && t0 != t1 && entry !in t1.home
      modifies t0`used, t1, t1.entries, entry
      ensures t1.Valid() && t1.entries == old(t1.entries) && t1.size == old(t1.size)
      ensures t1.home.Keys == old(t1.home).Keys + {entry}
      ensures t0.used == old(t0.used) - 1
      ensures t1.Model() == M.Push(hash, old(t1.Model()), M.Pair(entry.key, old(entry.value)))
    {
      var idx := BitAnd(hash(entry.key), t1.mask);
      MaskIsRemainder(hash(entry.key), t1.size);
      t1.PushEntry(idx, entry);
      t0.used := t0.used - 1;
    }

    /** The entries of the chain in flight from `m` on, led by `entry`, belong to no table and are still as in `c`. */
    ghost predicate InFlight(entry: Entry?<K, V>, all: seq<Entry<K, V>>, m: nat, c: M.Chain<K, V>)
      reads this, t1, all
    {
      && m <= |all| == |c| && Linked(entry, all[m..])
      && (forall i, j :: 0 <= i < j < |all| ==> all[i] != all[j])
      && (forall j :: m <= j < |all| ==> all[j] !in t1.home && c[j] == M.Pair(all[j].key, all[j].value))
    }

    /** The first entry of what is left of the chain in flight. */
    method MoveFirst(entry: Entry<K, V>, ghost all: seq<Entry<K, V>>, ghost m: nat, ghost c: M.Chain<K, V>)
      returns (next: Entry?<K, V>)
      requires t1.Valid() && t1.size > 0 && t0 != t1 && InFlight(entry, all, m, c)
      modifies t0`used, t1, t1.entries, entry
      ensures t1.Valid() && t1.entries == old(t1.entries) && t1.size == old(t1.size)
      ensures m < |all| == |c| && InFlight(next, all, m + 1, c)
      ensures t1.home.Keys == old(t1.home).Keys + {all[m]} && t0.used == old(t0.used) - 1
      ensures t1.Model() == M.Push(hash, old(t1.Model()), c[m])
    {
      LinkedAt(entry, all, m);
      hide M.Push, Settles, Linked, Table.Model, Table.Valid, Consistent, AllPairs, Pairs;
      next := entry.next;
      MoveEntry(entry);
    }

    /** The inner loop of `dict_rehash`: `all` is the chain in flight, led by `head`. */
    method MoveEntries(head: Entry?<K, V>, ghost all: seq<Entry<K, V>>)
      requires t1.Valid() && t1.size > 0 && t0 != t1 && InFlight(head, all, 0, Pairs(all))
      modifies t0`used, t1, t1.entries, all
      ensures t1.Valid() && t1.entries == old(t1.entries) && t1.size == old(t1.size)
      ensures t1.home.Keys == old(t1.home).Keys + Elements(all)
      ensures t0.used == old(t0.used) - |all|
      ensures t1.Model() == M.MoveChain(hash, old(Pairs(all)), old(t1.Model()))
    {
      assert Elements(all[..0]) == {};
      ghost var c, start, m := Pairs(all), t1.Model(), 0;
      assert c[0..] == c;
      hide M.MoveChain, M.Push, Table.Model, Table.Valid, Elements, InFlight;
      hide Settles, Linked, Consistent, AllPairs, Pairs;
      var entry := head;
      while entry != null
        invariant m <= |all| && InFlight(entry, all, m, c)
        invariant t1.Valid() && t1.entries == old(t1.entries) && t1.size == old(t1.size)
        invariant t1.home.Keys == old(t1.home).Keys + Elements(all[..m])
        invariant t0.used == old(t0.used) - m
        invariant M.MoveChain(hash, c[m..], t1.Model()) == M.MoveChain(hash, c, start)
        decreases |all| - m
      {
        Leads(entry, all, m, c);
        MoveOne(hash, c, m, t1.Model());
        ElementsGrow(all, m);
        entry := MoveFirst(entry, all, m, c);
        m := m + 1;
      }
      Leads(entry, all, m, c);
      MoveNone(hash, c[m..], t1.Model());
      assert all[..m] == all;
    }

    /** The chain in flight has an entry left exactly when its first entry is not NULL. */
    lemma Leads(entry: Entry?<K, V>, all: seq<Entry<K, V>>, m: nat, c: M.Chain<K, V>)
      requires InFlight(entry, all, m, c)
      ensures |all| == |c| && (entry == null <==> m == |all|) && (entry != null ==> entry == all[m])
    {
    }

    /** Bucket `i` of `t0` gives its chain up: `all` is in flight and belongs to no table. */
    ghost method Lift(i: nat) returns (all: seq<Entry<K, V>>)
      requires Shape() && i < t0.size
      modifies t0`chains, t0`home
      ensures all == old(t0.chains)[i] && (forall j :: 0 <= j < |all| ==> all[j] in old(t0.home) && all[j] !in t1.home)
      ensures forall a, b :: 0 <= a < b < |all| ==> all[a] != all[b]
      ensures Linked(t0.entries[i], all) && Pairs(all) == old(Pairs(all)) == M.Bucket(old(t0.Model()), i)
      ensures t0.ValidBut(i) && t0.home.Keys == old(t0.home.Keys) - Elements(all)
      ensures Settles(t0.chains, t0.home) && t0.Model() == M.PutBucket(old(t0.Model()), i, [], 0)
      ensures t1.Valid() && t1.Model() == old(t1.Model()) && t1.Repr() == old(t1.Repr())
    {
      hide M.Bucket, M.PutBucket, Settles, Linked, Table.Model, AllPairs, Consistent, Pairs;
      all := t0.chains[i];
      BucketIs(t0, i);
      t0.HeadLinks(i);
      ChainApart(t0.chains, t0.home, i);
      assert t0 !in t1.Repr();
      t0.Detach(i);
    }

    /** The entries of bucket `i` of `t0` change owner: chain and table of each are new, the old head
        is still in place. */
    method Transfer(i: nat) returns (ghost moved: set<Entry<K, V>>)
      requires Shape() && i < t0.size && t1.size > 0
      modifies t0, t1, t1.entries, t0.home.Keys
      ensures t0.ValidBut(i) && i < t0.size && t1.Valid() && Settles(t0.chains, t0.home)
      ensures t0.entries == old(t0.entries) && t1.entries == old(t1.entries) && moved <= old(t0.home.Keys)
      ensures t0.home.Keys == old(t0.home.Keys) - moved && t1.home.Keys == old(t1.home.Keys) + moved
      ensures var c := M.Bucket(old(t0.Model()), i);
              && t0.Model() == M.PutBucket(old(t0.Model()), i, [], -|c|)
              && t1.Model() == M.MoveChain(hash, c, old(t1.Model()))
    {
      hide M.MoveChain, M.Bucket, M.PutBucket, Settles, Linked, Table.Model, AllPairs, Consistent, Pairs;
      var entry := t0.entries[i];
      ghost var all := Lift(i);
      moved := Elements(all);
      ghost var left := t0.Model().buckets;
      MoveEntries(entry, all);
      assert t0.Model().buckets == left;
      PutCount(old(t0.Model()), i, [], -|all|);
    }

    /** Move the chain of bucket `i` of `t0`, entry by entry, to the heads of chains of `t1`. */
    method MoveBucket(i: nat)
      requires Shape() && i < t0.size && t1.size > 0
      modifies t0, t1, t0.entries, t1.entries, t0.home.Keys
      ensures Shape() && Repr() == old(Repr())
      ensures var c := M.Bucket(old(t0.Model()), i);
              && t0.Model() == M.PutBucket(old(t0.Model()), i, [], -|c|)
              && t1.Model() == M.MoveChain(hash, c, old(t1.Model()))
    {
      hide M.MoveChain, M.Bucket, M.PutBucket, Settles, Linked, Table.Model, AllPairs, Consistent, Pairs;
      ghost var moved := Transfer(i);
      t0.ClearHead(i);
    }

    /** The rehash is over: the new table becomes the only one. */
    method FinishRehash()
      requires Shape()
      modifies this
      ensures Shape() && fresh(Repr() - old(Repr()))
      ensures Model() == M.Dict(old(Model()).t1, M.EmptyTable(), -1, old(iterators))
    {
      t0 := t1;
      t1 := new Table.Reset();
      rehashidx := -1;
    }

    /** `while(entries[rehashidx] == NULL) rehashidx++`. */
    method SkipEmptyBuckets()
      requires Shape() && 0 <= rehashidx
      requires M.SkipEmpty(t0.Model().buckets, rehashidx) < t0.size
      modifies `rehashidx
      ensures Shape() && Repr() == old(Repr()) && t0.Model() == old(t0.Model()) && t1.Model() == old(t1.Model())
      ensures rehashidx == M.SkipEmpty(t0.Model().buckets, old(rehashidx)) && 0 <= rehashidx < t0.size
    {
      hide Consistent, Linked, Settles;
      ghost var b := t0.Model().buckets;
      while true
        invariant 0 <= rehashidx < t0.size
        invariant M.SkipEmpty(b, rehashidx) == M.SkipEmpty(b, old(rehashidx)) < t0.size
        decreases t0.size - rehashidx
      {
        t0.HeadLinks(rehashidx);
        HeadTells(t0.entries[rehashidx], t0.chains[rehashidx]);
        if t0.entries[rehashidx] != null { break; }
        rehashidx := rehashidx + 1;
      }
    }

    method MoveCurrent()
      requires Shape() && 0 <= rehashidx < t0.size && t1.size > 0
      modifies Repr()
      ensures Shape() && Repr() == old(Repr())
      ensures var c := M.Bucket(old(t0.Model()), old(rehashidx));
              Model() == M.Dict(M.PutBucket(old(t0.Model()), old(rehashidx), [], -|c|),
                                M.MoveChain(hash, c, old(t1.Model())), old(rehashidx) + 1, old(iterators))
    {
      hide M.MoveChain, M.PutBucket, M.Bucket, Table.Model, Table.Valid, Consistent;
      MoveBucket(rehashidx);
      rehashidx := rehashidx + 1;
    }

    /** One turn of the loop of `dict_rehash`. */
    method RehashStep()
      requires Valid() && rehashidx != -1
      modifies Repr()
      ensures Valid() && fresh(Repr() - old(Repr()))
      ensures Model() == M.RehashStep(hash, old(Model()))
    {
      hide M.Valid, M.MoveChain, M.PutBucket, Table.Model, M.SkipEmpty;
      hide Shape, Valid, Repr, Table.Repr, Table.Valid, Consistent, Settles, Linked, Pairs, AllPairs;
      Facts();
      ghost var d := Model();
      R.RehashStepKeeps(hash, d);
      R.ValidPhase(hash, d);
      if t0.used == 0 {
        FinishRehash();
        IsValid();
        return;
      }
      R.SkipStops(hash, d);
      SkipEmptyBuckets();
      MoveCurrent();
      IsValid();
    }

    /** `dict_rehash`: 0 when there was nothing to do or the rehash finished, else 1. */
    method Rehash(n: nat) returns (more: int)
      requires Valid()
      modifies Repr()
      ensures Valid() && fresh(Repr() - old(Repr()))
      ensures Model() == M.Rehash(hash, old(Model()), n) && Map() == old(Map())
      ensures more == if rehashidx == -1 then 0 else 1
    {
      hide M.Valid, M.RehashStep, Table.Model, M.ToMap;
      hide Shape, Valid, Repr, Table.Repr, Table.Valid, Consistent, Settles, Linked, Pairs, AllPairs;
      Facts();
      ghost var d, r := Model(), Repr();
      R.RehashKeeps(hash, d, n);
      if rehashidx == -1 { return 0; }
      var i: nat := n;
      while i > 0
        invariant Valid() && r == Repr() && (forall o :: o in r ==> o in old(Repr()) || fresh(o))
        invariant rehashidx != -1 && i <= n
        invariant M.Rehash(hash, Model(), i) == M.Rehash(hash, d, n)
      {
        i := i - 1;
        label Before:
        RehashStep();
        forall o | o in Repr() && o !in r ensures fresh(o) { assert fresh@Before(o); }
        r := Repr();
        if rehashidx == -1 { return 0; }
      }
      return 1;
    }

    /** DICT_TRY_REHASH. */
    method TryRehash()
      requires Valid()
      modifies Repr()
      ensures Valid() && fresh(Repr() - old(Repr()))
      ensures Model() == M.TryRehash(hash, old(Model()))
      ensures old(iterators) != 0 ==> Kept(old(t0.chains), t0.chains) && Kept(old(t1.chains), t1.chains)
    {
      hide M.Valid, M.RehashStep, Table.Model;
      hide Shape, Valid, Repr, Table.Repr, Table.Valid, Consistent, Settles, Linked, Pairs, AllPairs;
      Facts();
      KeptSame(t0.chains);
      KeptSame(t1.chains);
      if rehashidx != -1 && iterators == 0 { RehashStep(); }
    }

    /** `_pow_size`. */
    method PowSize(size: nat) returns (s: nat)
      requires size <= 2 * MAX_SIZE
      ensures s == TableIndex.PowSize(size) && s <= 2 * MAX_SIZE
    {
      s := INIT_SIZE;
      assert IsPow2(8) && IsPow2(16);
      while s < size
        invariant s > 0 && PowSizeFrom(s, size) == PowSizeFrom(INIT_SIZE, size) && IsPow2(s)
        invariant s <= 2 * MAX_SIZE
        decreases size - s
      {
        Doubling(s);
        s := s * 2;
      }
    }

    /** The zeroed table of `dict_expand`; it shares nothing with the dictionary. */
    method Allocate(size: nat) returns (t: Table<K, V>)
      requires Shape() && size <= 2 * MAX_SIZE
      ensures Shape() && Repr() == old(Repr()) && Model() == old(Model())
      ensures t.Valid() && fresh(t.Repr()) && t.Repr() !! Repr()
      ensures t.Model() == M.NewTable(TableIndex.PowSize(size))
    {
      hide Table.Valid, Table.Model, TableIndex.PowSize, M.NewTable;
      var realsize := PowSize(size);
      t := new Table<K, V>.Sized(realsize);
    }

    /** `dict_expand`. */
    method Expand(size: nat) returns (rc: int)
      requires Valid() && size <= 2 * MAX_SIZE
      modifies this
      ensures Valid() && fresh(Repr() - old(Repr()))
      ensures (Model(), rc) == M.Expand(old(Model()), size) && Map() == old(Map())
      ensures Kept(old(t0.chains), t0.chains) && Kept(old(t1.chains), t1.chains)
    {
      hide M.Valid, Table.Model, M.ToMap, TableIndex.PowSize, M.NewTable, Kept;
      hide Shape, Valid, Repr, Table.Repr, Table.Valid, Consistent, Settles, Linked, Pairs, AllPairs;
      Facts();
      KeptSame(t0.chains);
      KeptSame(t1.chains);
      R.ExpandKeeps(hash, Model(), size);
      R.ValidPhase(hash, Model());
      if rehashidx != -1 || t0.size > size { return -1; }
      var t := Allocate(size);
      Install(t);
      IsValid();
      return 0;
    }

    /** The new table is the first one, or starts a rehash. */
    method Install(t: Table<K, V>)
      requires Shape() && t.Valid() && t.Repr() !! Repr() && (t0.size > 0 ==> t1.size == 0)
      modifies this
      ensures Shape() && Repr() <= old(Repr()) + t.Repr()
      ensures var d := old(Model());
              Model() == if |d.t0.buckets| == 0 then M.Dict(t.Model(), d.t1, d.rehashidx, d.iterators)
                         else M.Dict(d.t0, t.Model(), 0, d.iterators)
      ensures Kept(old(t0.chains), t0.chains) && Kept(old(t1.chains), t1.chains)
    {
      hide Table.Valid, Table.Model, Settles;
      if t0.entries == null {
        t0 := t;
      } else {
        t1 := t;
        rehashidx := 0;
      }
    }

    method TryExpand() returns (rc: int)
      requires Valid() && t0.used <= MAX_SIZE
      modifies this
      ensures Valid() && fresh(Repr() - old(Repr()))
      ensures (Model(), rc) == M.TryExpand(old(Model()))
      ensures Kept(old(t0.chains), t0.chains) && Kept(old(t1.chains), t1.chains)
    {
      hide M.Valid, Table.Model, M.Expand;
      hide Shape, Valid, Repr, Table.Repr, Table.Valid, Consistent, Settles, Linked, Pairs, AllPairs;
      Facts();
      R.ValidPhase(hash, Model());
      R.TryExpandKeeps(hash, Model());
      KeptSame(t0.chains);
      KeptSame(t1.chains);
      if rehashidx != -1 { return 0; }
      if t0.size == 0 {
        rc := Expand(INIT_SIZE);
        return;
      }
      if t0.used >= t0.size {
        rc := Expand(t0.used * 2);
        return;
      }
      return 0;
    }

    /** Table number `i` of `dt`. */
    function At(i: nat): Table<K, V>
      reads `t0, `t1
    {
      if i == 0 then t0 else t1
    }

    /** The search of one table: bucket `idx`, entry `n` or none. */
    method Search(i: nat, key: K) returns (idx: nat, prev: Entry?<K, V>, entry: Entry?<K, V>, ghost n: nat)
      requires Valid() && i <= 1 && At(i).size > 0
      ensures Valid() && Repr() == old(Repr()) && Model() == old(Model())
      ensures idx < At(i).size && idx == M.Slot(hash, key, At(i).size)
      ensures n == M.ChainFind(M.Bucket(At(i).Model(), idx), key) <= |At(i).chains[idx]|
      ensures entry == if n < |At(i).chains[idx]| then At(i).chains[idx][n] else null
      ensures prev == if n == 0 then null else At(i).chains[idx][n - 1]
      ensures entry != null ==> entry.key == key
    {
      hide M.Valid, Consistent, Table.Model, M.ChainFind, Settles, AllPairs, Pairs;
      var t := At(i);
      idx := BitAnd(hash(key), t.mask);
      MaskIsRemainder(hash(key), t.size);
      prev, entry, n := t.FindEntry(idx, key);
    }

    /** What a search of table `i` tells about the key. */
    lemma SearchTells(i: nat, key: K, idx: nat, n: nat)
      requires Shape() && i <= 1 && idx < At(i).size && idx == M.Slot(hash, key, At(i).size)
      requires n == M.ChainFind(M.Bucket(At(i).Model(), idx), key)
      ensures M.Get(hash, At(i).Model(), key) ==
                if n < |At(i).chains[idx]| then Some(At(i).chains[idx][n].value) else None
    {
      hide Consistent, Table.Model, M.ChainGet, M.ChainFind, Settles, AllPairs, M.Bucket;
      BucketIs(At(i), idx);
      R.ChainGetIsFind(M.Bucket(At(i).Model(), idx), key);
      assert M.Get(hash, At(i).Model(), key) == M.ChainGet(M.Bucket(At(i).Model(), idx), key) by {
        BucketGet(hash, At(i).Model(), key);
      }
    }

    /** The search loop of find, delete and the duplicate test: table `i`, bucket `idx`, entry `n`.
        When nothing is found, `i` and `idx` say where a new entry belongs. */
    method Locate(key: K) returns (i: nat, idx: nat, prev: Entry?<K, V>, entry: Entry?<K, V>, ghost n: nat)
      requires Valid() && t0.size > 0
      ensures Valid() && Repr() == old(Repr()) && Model() == old(Model())
      ensures i <= 1 && idx < At(i).size && idx == M.Slot(hash, key, At(i).size)
      ensures entry == null ==> M.Lookup(hash, Model(), key).None? && i == if rehashidx == -1 then 0 else 1
      ensures entry != null ==>
                && entry.key == key && Stands(key, entry, i, idx, n)
                && prev == (if n == 0 then null else At(i).chains[idx][n - 1])
                && M.Lookup(hash, Model(), key) == Some(entry.value)
    {
      hide M.Valid, Shape, Valid, Table.Valid, Table.Model, M.Get, M.ChainFind, M.Bucket, M.Slot;
      hide Repr, Table.Repr, Consistent, Settles, Linked, Pairs, AllPairs;
      Facts();
      R.ValidPhase(hash, Model());
      i := 0;
      while true
        invariant Valid() && Repr() == old(Repr()) && Model() == old(Model()) && i <= 1 && At(i).size > 0
        invariant i == 1 ==> rehashidx != -1 && M.Get(hash, Model().t0, key).None?
        decreases 2 - i
      {
        idx, prev, entry, n := Search(i, key);
        Facts();
        SearchTells(i, key, idx, n);
        if entry != null || rehashidx == -1 || i == 1 { return; }
        i := i + 1;
      }
    }

    /** `_dict_key_index`: -1 when the key exists, else the bucket to insert into. */
    method KeyIndex(key: K) returns (idx: int)
      requires Valid() && t0.used <= MAX_SIZE
      modifies this
      ensures Valid() && fresh(Repr() - old(Repr()))
      ensures Model() == M.TryExpand(old(Model())).0
      ensures if M.TryExpand(old(Model())).1 < 0 || M.Lookup(hash, Model(), key).Some? then idx == -1
              else 0 <= idx < At(if rehashidx == -1 then 0 else 1).size
                   && idx == M.Slot(hash, key, At(if rehashidx == -1 then 0 else 1).size)
      ensures Kept(old(t0.chains), t0.chains) && Kept(old(t1.chains), t1.chains)
    {
      hide M.Valid, Table.Valid, Table.Model, M.TryExpand, M.Lookup, M.Get, M.ChainFind, M.Bucket, M.Slot;
      hide Kept, M.ToMap;
      hide Shape, Valid, Repr, Table.Repr, Consistent, Settles, Linked, Pairs, AllPairs;
      Facts();
      ghost var d := Model();
      var rc := TryExpand();
      Facts();
      if rc < 0 { return -1; }
      R.TryExpandKeeps(hash, d);
      var i, b, prev, entry, n := Locate(key);
      idx := if entry != null then -1 else b;
    }

    method Link(idx: nat, entry: Entry<K, V>)
      requires Shape() && entry !in Repr()
      requires var t := At(if rehashidx == -1 then 0 else 1); idx < t.size && idx == M.Slot(hash, entry.key, t.size)
      modifies Repr(), entry
      ensures Shape() && Repr() == old(Repr()) + {entry}
      ensures Model() == M.Insert(hash, old(Model()), M.Pair(entry.key, old(entry.value)))
      ensures Kept(old(t0.chains), t0.chains) && Kept(old(t1.chains), t1.chains)
    {
      hide Consistent, Table.Model, M.PutBucket;
      var htidx := if rehashidx != -1 then 1 else 0;
      At(htidx).PushEntry(idx, entry);
    }

    /** The entry that dict_add allocates. */
    method NewEntry(key: K, value: V) returns (entry: Entry<K, V>)
      requires Shape()
      ensures Shape() && Repr() == old(Repr()) && Model() == old(Model())
      ensures fresh(entry) && entry !in Repr() && entry.key == key && entry.value == value
    {
      hide Table.Valid, Table.Model;
      entry := new Entry(key, value);
    }

    method AddStepped(key: K, value: V) returns (rc: int)
      requires Valid() && t0.used <= MAX_SIZE
      modifies Repr()
      ensures Valid() && fresh(Repr() - old(Repr()))
      ensures (Model(), rc) == M.AddStepped(hash, old(Model()), key, value)
      ensures Kept(old(t0.chains), t0.chains) && Kept(old(t1.chains), t1.chains)
    {
      hide M.Valid, Table.Model, M.TryExpand, M.Lookup, M.Insert, Kept, M.ToMap, M.Slot, M.EmptyTable;
      hide Shape, Valid, Repr, Table.Repr, Table.Valid, Consistent, Settles, Linked, Pairs, AllPairs;
      Facts();
      R.AddSteppedRefines(hash, Model(), key, value);
      R.TryExpandKeeps(hash, Model());
      var idx := KeyIndex(key);
      Facts();
      if idx < 0 { return -1; }
      ghost var c0, c1 := t0.chains, t1.chains;
      var entry := NewEntry(key, value);
      Link(idx, entry);
      IsValid();
      rc := 1;
      KeptTrans(old(t0.chains), c0, t0.chains);
      KeptTrans(old(t1.chains), c1, t1.chains);
    }

    /** `dict_add`. */
    method Add(key: K, value: V) returns (rc: int)
      requires Valid() && t0.used + t1.used <= MAX_SIZE
      modifies Repr()
      ensures Valid() && fresh(Repr() - old(Repr()))
      ensures (Model(), rc) == M.Add(hash, old(Model()), key, value)
      ensures rc == if key in old(Map()) then -1 else 1
      ensures Map() == if key in old(Map()) then old(Map()) else old(Map())[key := value]
      ensures old(iterators) != 0 ==> Kept(old(t0.chains), t0.chains) && Kept(old(t1.chains), t1.chains)
    {
      hide M.Valid, Table.Model, M.AddStepped, M.TryRehash, Kept, M.ToMap;
      hide Shape, Valid, Repr, Table.Repr, Table.Valid, Consistent, Settles, Linked, Pairs, AllPairs;
      Facts();
      R.AddRefines(hash, Model(), key, value);
      R.TryRehashUsed(hash, Model());
      TryRehash();
      Facts();
      ghost var r, c0, c1 := Repr(), t0.chains, t1.chains;
      assert forall o :: o in r ==> o in old(Repr()) || fresh(o);
      label Before:
      rc := AddStepped(key, value);
      forall o | o in Repr() && o !in r ensures fresh(o) { assert fresh@Before(o); }
      KeptTrans(old(t0.chains), c0, t0.chains);
      KeptTrans(old(t1.chains), c1, t1.chains);
    }

    /** `dict_find`; the ghost results say where the entry is. */
    method Find(key: K) returns (entry: Entry?<K, V>, ghost i: nat, ghost idx: nat, ghost n: nat)
      requires Valid()
      modifies Repr()
      ensures Valid() && fresh(Repr() - old(Repr()))
      ensures Model() == M.Find(hash, old(Model()), key).0
      ensures M.Find(hash, old(Model()), key).1 == if entry == null then None else Some(entry.value)
      ensures entry != null ==> entry.key == key && Stands(key, entry, i, idx, n)
      ensures Map() == old(Map()) && (entry == null <==> key !in Map())
      ensures entry != null ==> entry.value == Map()[key]
      ensures old(iterators) != 0 ==> Kept(old(t0.chains), t0.chains) && Kept(old(t1.chains), t1.chains)
    {
      hide M.Valid, Table.Model, M.TryRehash, Kept, M.Lookup, M.ToMap, Stands;
      hide Shape, Valid, Repr, Table.Repr, Table.Valid, Consistent, Settles, Linked, Pairs, AllPairs;
      Facts();
      R.FindRefines(hash, Model(), key);
      if t0.size == 0 {
        KeptSame(t0.chains);
        KeptSame(t1.chains);
        return null, 0, 0, 0;
      }
      R.TryRehashSize(hash, Model());
      TryRehash();
      Facts();
      var j, b, prev, e, m := Locate(key);
      entry, i, idx, n := e, j, b, m;
    }

    /** `entry` is entry `n` of bucket `idx` of table `i`, where a search for `key` ends. */
    ghost predicate Stands(key: K, entry: Entry<K, V>, i: nat, idx: nat, n: nat)
      requires Shape()
      reads this, t0, t1, t0.Repr(), t1.Repr()
    {
      && i <= 1 && idx < At(i).size && idx == M.Slot(hash, key, At(i).size)
      && n == M.ChainFind(M.Bucket(At(i).Model(), idx), key) < |At(i).chains[idx]|
      && entry == At(i).chains[idx][n]
      && (i == 0 <==> M.Get(hash, t0.Model(), key).Some?)
    }

    method Overwrite(key: K, entry: Entry<K, V>, value: V, ghost i: nat, ghost idx: nat, ghost n: nat)
      requires Shape() && Stands(key, entry, i, idx, n) && entry.key == key
      modifies Repr()
      ensures Shape() && Repr() == old(Repr()) && t0.chains == old(t0.chains) && t1.chains == old(t1.chains)
      ensures var d := old(Model());
              Model() == if M.Get(hash, d.t0, key).Some?
                         then M.Dict(M.TablePut(hash, d.t0, key, value), d.t1, d.rehashidx, d.iterators)
                         else M.Dict(d.t0, M.TablePut(hash, d.t1, key, value), d.rehashidx, d.iterators)
    {
      hide Consistent, Table.Model, M.PutBucket, M.Get;
      SetValue(At(i), idx, n, entry, value);
    }

    /** `dict_replace`. */
    method Replace(key: K, value: V) returns (rc: int)
      requires Valid() && t0.used + t1.used <= MAX_SIZE
      modifies Repr()
      ensures Valid() && fresh(Repr() - old(Repr()))
      ensures (Model(), rc) == M.Replace(hash, old(Model()), key, value)
      ensures rc == if key in old(Map()) then 0 else 1
      ensures Map() == old(Map())[key := value]
      ensures old(iterators) != 0 ==> Kept(old(t0.chains), t0.chains) && Kept(old(t1.chains), t1.chains)
    {
      hide M.Valid, Table.Model, M.Find, M.Add, Kept, M.Get, M.TablePut, Stands, M.ToMap;
      hide Shape, Valid, Repr, Table.Repr, Table.Valid, Consistent, Settles, Linked, Pairs, AllPairs;
      Facts();
      R.ReplaceRefines(hash, Model(), key, value);
      R.FindUsed(hash, Model(), key);
      var entry, i, idx, n := Find(key);
      Facts();
      ghost var r, c0, c1 := Repr(), t0.chains, t1.chains;
      assert forall o :: o in r ==> o in old(Repr()) || fresh(o);
      if entry != null {
        Overwrite(key, entry, value, i, idx, n);
        IsValid();
        KeptSame(c0);
        KeptSame(c1);
        return 0;
      }
      label Before:
      rc := Add(key, value);
      forall o | o in Repr() && o !in r ensures fresh(o) { assert fresh@Before(o); }
      KeptTrans(old(t0.chains), c0, t0.chains);
      KeptTrans(old(t1.chains), c1, t1.chains);
    }

    /** `dict_del_internal`. */
    method Delete(key: K) returns (rc: int)
      requires Valid()
      modifies Repr()
      ensures Valid() && fresh(Repr() - old(Repr()))
      ensures (Model(), rc) == M.Delete(hash, old(Model()), key)
      ensures rc == if key in old(Map()) then 1 else 0
      ensures Map() == old(Map()) - {key}
    {
      hide M.Valid, Table.Model, M.TryRehash, M.Lookup, M.ToMap, M.Get, M.TableRemove, Stands;
      hide Shape, Valid, Repr, Table.Repr, Table.Valid, Consistent, Settles, Linked, Pairs, AllPairs;
      Facts();
      R.DeleteRefines(hash, Model(), key);
      if t0.size == 0 { return 0; }
      R.TryRehashSize(hash, Model());
      TryRehash();
      Facts();
      var i, idx, prev, entry, n := Locate(key);
      if entry == null { return 0; }
      Facts();
      ghost var r := Repr();
      assert forall o :: o in r ==> o in old(Repr()) || fresh(o);
      Remove(key, i, idx, prev, entry, n);
      IsValid();
      return 1;
    }

    /** Unlinking in one table leaves the other as it was. */
    method UnlinkIn(i: nat, idx: nat, prev: Entry?<K, V>, entry: Entry<K, V>, ghost n: nat)
      requires Shape() && i <= 1 && idx < At(i).size && n < |At(i).chains[idx]| && entry == At(i).chains[idx][n]
      requires prev == if n == 0 then null else At(i).chains[idx][n - 1]
      modifies Repr()
      ensures Shape() && Repr() <= old(Repr())
      ensures t0 == old(t0) && t1 == old(t1) && rehashidx == old(rehashidx) && iterators == old(iterators)
      ensures At(1 - i).Model() == old(At(1 - i).Model())
      ensures var t := old(At(i).Model());
              At(i).Model() == M.PutBucket(t, idx, Cut(M.Bucket(t, idx), n), -1)
    {
      hide Consistent, Table.Model, M.PutBucket, M.Bucket, Cut, Settles, Linked, Pairs, AllPairs;
      SettledEntry(At(i).chains, At(i).home, idx, n);
      if n > 0 { SettledEntry(At(i).chains, At(i).home, idx, n - 1); }
      At(i).Unlink(idx, prev, entry, n);
    }

    method Remove(key: K, i: nat, idx: nat, prev: Entry?<K, V>, entry: Entry<K, V>, ghost n: nat)
      requires Shape() && Stands(key, entry, i, idx, n)
      requires prev == if n == 0 then null else At(i).chains[idx][n - 1]
      modifies Repr()
      ensures Shape() && Repr() <= old(Repr())
      ensures var d := old(Model());
              Model() == if M.Get(hash, d.t0, key).Some?
                         then M.Dict(M.TableRemove(hash, d.t0, key), d.t1, d.rehashidx, d.iterators)
                         else M.Dict(d.t0, M.TableRemove(hash, d.t1, key), d.rehashidx, d.iterators)
    {
      hide M.PutBucket, M.Bucket, M.ChainFind, M.Get, M.TableRemove, M.Slot;
      hide Consistent, Table.Model, Table.Valid, Shape, Repr;
      Sizes();
      BucketIs(At(i), idx);
      RemoveIs(hash, At(i).Model(), key, idx, n);
      UnlinkIn(i, idx, prev, entry, n);
    }

    /** `dict_clear`. */
    method Clear()
      requires Valid()
      modifies Repr()
      ensures Valid() && fresh(Repr() - old(Repr()))
      ensures Model() == M.Clear(old(Model())) && Map() == map[]
    {
      hide Table.Valid, Table.Model, M.ToMap;
      R.ValidPhase(hash, Model());
      R.ClearRefines(hash, Model());
      rehashidx := -1;
      t0.Clear();
      t1.Clear();
    }

    /** `entry` stands `rem` places before the end of bucket `idx` of table `tab`. */
    ghost predicate Current(tab: nat, idx: int, entry: Entry<K, V>, rem: nat)
      requires Shape()
      reads `t0, `t1, t0, t1, t0.Repr(), t1.Repr()
    {
      && 0 <= idx < At(tab).size
      && var c := At(tab).chains[idx]; 0 < rem <= |c| && entry == c[|c| - rem]
    }

    method Count()
      requires Valid()
      modifies `iterators
      ensures Valid() && Model() == I.Recount(old(Model()), old(iterators) + 1)
    {
      I.RecountKeeps(hash, Model(), iterators + 1);
      iterators := iterators + 1;
    }

    /** The loop of `dict_iterator_next`, from table `tab`, bucket `idx`, entry `entry`. */
    method Scan(tab: nat, idx: int, entry: Entry?<K, V>, ghost rem: nat)
      returns (t: nat, i: int, n: Entry?<K, V>, ghost r: nat)
      requires Valid() && I.IterOk(Model(), I.Iter(tab, idx, rem))
      requires if rem == 0 then entry == null else entry != null && Current(tab, idx, entry, rem)
      ensures I.Iter(t, i, r) == I.Advance(Model(), I.Iter(tab, idx, rem))
      ensures if r == 0 then n == null else n != null && Current(t, i, n, r)
    {
      hide Table.Valid, Table.Model, M.Valid, I.IterOk, Current, M.Phase, I.Seek, I.ChainAt;
      hide Shape, Valid, Repr, Table.Repr, Consistent, Settles, Linked, Pairs, AllPairs;
      Facts();
      ghost var m, target := Model(), I.Advance(Model(), I.Iter(tab, idx, rem));
      I.IterOkRange(m, I.Iter(tab, idx, rem));
      R.ValidPhase(hash, m);
      Sizes();
      t, i, n, r := tab, idx, entry, rem;
      while true
        invariant Shape() && 0 <= t <= 1 && -1 <= i && (t == 1 ==> rehashidx != -1)
        invariant if n == null then r == 0 && I.Seek(m, t, i) == target
                  else (t, i, n, r) == (tab, idx, entry, rem) && Current(tab, idx, n, rem)
        decreases n != null, 1 - t, At(t).size - i
      {
        if n == null {
          I.SeekTurn(m, t, i);
          i := i + 1;
          if i >= At(t).size {
            if t == 0 && rehashidx != -1 {
              t, i := 1, 0;
            } else {
              return;
            }
          }
          HeadOf(t, i);
          n, r := At(t).entries[i], |I.ChainAt(m, t, i)|;
        } else {
          NextOf(t, i, n, r);
          n, r := n.next, r - 1;
        }
        if n != null { return; }
      }
    }

    lemma Sizes()
      requires Shape()
      ensures t0.Valid() && t0.size == |t0.Model().buckets|
      ensures t1.Valid() && t1.size == |t1.Model().buckets|
    {
    }

    lemma CurrentKey(tab: nat, idx: int, entry: Entry<K, V>, rem: nat)
      requires Shape() && tab <= 1 && Current(tab, idx, entry, rem)
      ensures I.Current(Model(), I.Iter(tab, idx, rem)) == Some(entry.key)
    {
      hide Consistent, Table.Model, Settles, AllPairs, M.Bucket;
      BucketIs(At(tab), idx);
      assert I.ChainAt(Model(), tab, idx) == Pairs(At(tab).chains[idx]);
    }

    lemma HeadOf(tab: nat, idx: nat)
      requires Shape() && tab <= 1 && idx < At(tab).size
      ensures At(tab).entries != null && At(tab).entries.Length == At(tab).size
      ensures var e, r := At(tab).entries[idx], |I.ChainAt(Model(), tab, idx)|;
              if r == 0 then e == null else e != null && Current(tab, idx, e, r)
    {
      At(tab).HeadLinks(idx);
    }

    lemma NextOf(tab: nat, idx: int, at: Entry<K, V>, r: nat)
      requires Shape() && Current(tab, idx, at, r)
      ensures if r == 1 then at.next == null else r > 1 && at.next != null && Current(tab, idx, at.next, r - 1)
    {
      var c := At(tab).chains[idx];
      At(tab).HeadLinks(idx);
      assert c[|c| - r].next == After(c, |c| - r);
    }
  }

  /** `dict_iterator`.  The entry is the one `rem` places before the end of its chain. */
  class Iterator<K(==, !new), V> {
    const d: Dict<K, V>
    var tab: nat
    var idx: int
    var entry: Entry?<K, V>
    ghost var rem: nat

    ghost function Model(): I.Iter
      reads this
    {
      I.Iter(tab, idx, rem)
    }

    ghost predicate Valid()
      reads this, d, d.t0, d.t1, d.t0.Repr(), d.t1.Repr()
    {
      && this !in d.Repr() && d.Valid() && I.IterOk(d.Model(), Model())
      && if rem == 0 then entry == null else entry != null && d.Current(tab, idx, entry, rem)
    }

    /** `dict_get_iterator`. */
    constructor (d: Dict<K, V>)
      requires d.Valid()
      ensures Valid() && this.d == d && Model() == I.FRESH
    {
      this.d := d;
      tab, idx, entry, rem := 0, -1, null, 0;
    }

    method Move(t: nat, i: int, n: Entry?<K, V>, ghost r: nat)
      requires this !in d.Repr() && d.Valid() && I.IterOk(d.Model(), I.Iter(t, i, r))
      requires if r == 0 then n == null else n != null && d.Current(t, i, n, r)
      modifies this
      ensures Valid() && Model() == I.Iter(t, i, r) && entry == n && d.Model() == old(d.Model())
    {
      hide Dict.Shape, Table.Model, I.IterOk, Dict.Current, M.Valid;
      tab, idx, entry, rem := t, i, n, r;
    }

    /** `dict_iterator_next`.  Only the first turn of its loop can count the iterator as open,
        so that is done before the loop, which then only reads. */
    method Next() returns (e: Entry?<K, V>)
      requires Valid()
      modifies this, d`iterators
      ensures Valid() && e == entry
      ensures (d.Model(), Model(), if e == null then None else Some(e.key)) == I.Next(old(d.Model()), old(Model()))
    {
      hide Dict.Shape, Table.Model, I.Current, I.IterOk, Dict.Current, M.Valid, I.Advance, I.Places, M.ToMap;
      ghost var m, start := d.Model(), Model();
      I.IterOkRange(m, start);
      I.AdvanceRecount(m, start, m.iterators + 1);
      I.RecountKeeps(d.hash, m, m.iterators + 1);
      if entry == null && tab == 0 && idx == -1 { d.Count(); }
      var t, i, n, r := d.Scan(tab, idx, entry, rem);
      I.AdvanceOk(d.hash, d.Model(), start);
      if n != null { d.CurrentKey(t, i, n, r); } else { I.NothingCurrent(m, I.Iter(t, i, r)); }
      Move(t, i, n, r);
      e := n;
    }

    /** `dict_iterator_destroy`: an iterator that has begun is counted down. */
    method Destroy()
      requires Valid()
      modifies d`iterators
      ensures d.Valid()
      ensures d.Model() ==
                I.Recount(old(d.Model()), if I.Started(Model()) then old(d.iterators) - 1 else old(d.iterators))
    {
      hide Dict.Shape, Table.Model, I.IterOk, Dict.Current, M.Valid, I.Places, M.ToMap;
      I.RecountKeeps(d.hash, d.Model(), d.iterators - 1);
      if !(idx == -1 && tab == 0) { d.iterators := d.iterators - 1; }
    }
  }

  /** An iterator that has begun survives any call that keeps chains and places: its entry
      is still where it says.  `was` are the chains of its table before the call. */
  lemma IteratorSurvives<K(!new), V>(it: Iterator<K, V>, was: seq<seq<Entry<K, V>>>)
    requires it.d.Valid() && it !in it.d.Repr() && I.IterOk(it.d.Model(), it.Model())
    requires Kept(was, it.d.At(it.tab).chains)
    requires if it.rem == 0 then it.entry == null
             else 0 <= it.idx < |was| && it.rem <= |was[it.idx]| && it.entry == was[it.idx][|was[it.idx]| - it.rem]
    ensures it.Valid()
  {
    hide M.Valid, Table.Valid, Table.Model, Kept, I.IterOk;
    if it.rem > 0 {
      it.d.Sizes();
      KeptAt(was, it.d.At(it.tab).chains, it.idx, it.rem);
    }
  }

  lemma KeptAt<K, V>(was: seq<seq<Entry<K, V>>>, now: seq<seq<Entry<K, V>>>, i: nat, r: nat)
    requires Kept(was, now) && i < |was| && 0 < r <= |was[i]|
    ensures i < |now| && r <= |now[i]| && now[i][|now[i]| - r] == was[i][|was[i]| - r]
  {
    assert Suffix(was[i], now[i]);
    var c, e := was[i], now[i];
    assert e[|e| - |c|..][|c| - r] == e[|e| - r];
  }

  /** The calls on the table that iterator runs consist of. */
  datatype TableCall<K, V> = AddCall(key: K, value: V) | FindCall(key: K) | ReplaceCall(key: K, value: V)

  ghost function Called<K, V>(h: K -> nat, d: M.Dict<K, V>, c: TableCall<K, V>): M.Dict<K, V>
  {
    match c
    case AddCall(k, v) => M.Add(h, d, k, v).0
    case FindCall(k) => M.Find(h, d, k).0
    case ReplaceCall(k, v) => M.Replace(h, d, k, v).0
  }

  lemma CalledSettles<K(!new), V>(h: K -> nat, d: M.Dict<K, V>, c: TableCall<K, V>)
    requires M.Valid(h, d) && d.iterators > 0
    ensures I.Settled(h, d, Called(h, d, c))
  {
    match c
    case AddCall(k, v) => I.AddSettled(h, d, k, v);
    case FindCall(k) => assert M.Find(h, d, k).0 == d;
    case ReplaceCall(k, v) => I.ReplaceSettled(h, d, k, v);
  }

  /** A call on the dictionary while `it` is open: the iterator stays valid, and no entry changes place. */
  method CallWhileIterating<K(==, !new), V>(it: Iterator<K, V>, c: TableCall<K, V>)
    requires it.Valid() && it.d.iterators > 0 && it.d.t0.used + it.d.t1.used <= MAX_SIZE
    modifies it.d.Repr()
    ensures it.Valid() && it.Model() == old(it.Model())
    ensures it.d.Model() == Called(it.d.hash, old(it.d.Model()), c)
    ensures I.Settled(it.d.hash, old(it.d.Model()), it.d.Model())
  {
    hide M.Valid, M.Add, M.Find, M.Replace, Table.Model, Kept, Dict.Map, M.ToMap, I.IterOk, I.Places;
    hide Dict.Shape, Dict.Repr, Table.Repr, Table.Valid, Consistent, Settles, Linked, Pairs, AllPairs;
    CalledSettles(it.d.hash, it.d.Model(), c);
    it.d.Sizes();
    ghost var r, was := it.d.Repr(), it.d.At(it.tab).chains;
    match c {
      case AddCall(k, v) => var rc := it.d.Add(k, v);
      case FindCall(k) => var entry, i, idx, n := it.d.Find(k);
      case ReplaceCall(k, v) => var rc := it.d.Replace(k, v);
    }
    forall o | o in it.d.Repr() ensures o in r || fresh(o) {}
    assert it !in r && !fresh(it);
    IteratorSurvives(it, was);
  }

  lemma NextCounts<K, V>(d: M.Dict<K, V>, it: I.Iter)
    ensures I.Next(d, it).0 == if I.Started(it) then d else I.Recount(d, d.iterators + 1)
  {
  }

  /** Another iterator moves on while `it` is open. */
  method NextWhileIterating<K(==, !new), V>(it: Iterator<K, V>, other: Iterator<K, V>) returns (e: Entry?<K, V>)
    requires it.Valid() && other.Valid() && it != other && it.d == other.d
    modifies other, it.d`iterators
    ensures it.Valid() && other.Valid() && it.Model() == old(it.Model()) && e == other.entry
    ensures (it.d.Model(), other.Model(), if e == null then None else Some(e.key))
         == I.Next(old(it.d.Model()), old(other.Model()))
  {
    hide M.Valid, Table.Model, Table.Valid, Kept, Dict.Map, M.ToMap, I.IterOk, I.Places, I.Advance, I.Current, I.Next;
    hide Dict.Shape, Dict.Repr, Table.Repr, Consistent, Settles, Linked, Pairs, AllPairs;
    ghost var d, was := it.d.Model(), it.d.At(it.tab).chains;
    it.d.Facts();
    I.RecountKeeps(it.d.hash, d, d.iterators + 1);
    NextCounts(d, other.Model());
    KeptSame(was);
    e := other.Next();
    IteratorSurvives(it, was);
  }

  /** No chain lost an entry, and what was there is still at its end. */
  ghost predicate Kept<K, V>(was: seq<seq<Entry<K, V>>>, now: seq<seq<Entry<K, V>>>)
  {
    was == [] || (|now| == |was| && forall i :: 0 <= i < |was| ==> Suffix(was[i], now[i]))
  }

  ghost predicate Suffix<T>(c: seq<T>, e: seq<T>)
  {
    |c| <= |e| && e[|e| - |c|..] == c
  }

  lemma KeptSame<K, V>(c: seq<seq<Entry<K, V>>>)
    ensures Kept(c, c)
  {
  }

  lemma KeptTrans<K, V>(a: seq<seq<Entry<K, V>>>, b: seq<seq<Entry<K, V>>>, c: seq<seq<Entry<K, V>>>)
    ensures Kept(a, b) && Kept(b, c) ==> Kept(a, c)
  {
    if Kept(a, b) && Kept(b, c) && a != [] {
      forall i | 0 <= i < |a| ensures Suffix(a[i], c[i]) {
        assert Suffix(a[i], b[i]) && Suffix(b[i], c[i]);
        var x, y, z := a[i], b[i], c[i];
        assert z[|z| - |x|..] == z[|z| - |y|..][|y| - |x|..];
      }
    }
  }

  lemma HeadTells<K, V>(head: Entry?<K, V>, c: seq<Entry<K, V>>)
    requires Linked(head, c)
    ensures head == null <==> c == []
  {
  }

  lemma BucketIs<K, V>(t: Table<K, V>, i: nat)
    requires t.Valid() && i < t.size
    ensures M.Bucket(t.Model(), i) == Pairs(t.chains[i])
  {
  }

  lemma PutCount<K, V>(t: M.Table<K, V>, i: nat, c: M.Chain<K, V>, n: int)
    ensures var u := M.PutBucket(t, i, c, 0);
            i < |t.buckets| ==> M.Table(u.buckets, u.used + n) == M.PutBucket(t, i, c, n)
  {
  }

  lemma MoveNone<K, V>(h: K -> nat, c: M.Chain<K, V>, t: M.Table<K, V>)
    requires c == []
    ensures M.MoveChain(h, c, t) == t
  {
  }

  lemma ChainApart<K, V>(chains: seq<seq<Entry<K, V>>>, home: map<Entry<K, V>, Home>, i: nat)
    requires Settles(chains, home) && i < |chains|
    ensures forall a :: 0 <= a < |chains[i]| ==> chains[i][a] in home
    ensures forall a, b :: 0 <= a < b < |chains[i]| ==> chains[i][a] != chains[i][b]
  {
  }

  lemma LinkedAt<K, V>(entry: Entry<K, V>, all: seq<Entry<K, V>>, m: nat)
    requires m <= |all| && Linked(entry, all[m..])
    ensures m < |all| && entry == all[m] && Linked(entry.next, all[m + 1..])
  {
    var c, d := all[m..], all[m + 1..];
    assert c[0].next == After(c, 0);
    assert forall j :: 0 <= j < |d| ==> d[j] == c[j + 1] && After(d, j) == After(c, j + 1);
  }

  lemma MoveOne<K, V>(h: K -> nat, c: M.Chain<K, V>, m: nat, t: M.Table<K, V>)
    requires m < |c|
    ensures M.MoveChain(h, c[m..], t) == M.MoveChain(h, c[m + 1..], M.Push(h, t, c[m]))
  {
    assert c[m..][1..] == c[m + 1..];
  }

  lemma BucketGet<K, V>(h: K -> nat, t: M.Table<K, V>, key: K)
    requires t.buckets != []
    ensures M.Get(h, t, key) == M.ChainGet(M.Bucket(t, M.Slot(h, key, |t.buckets|)), key)
  {
  }

  lemma RemoveIs<K, V>(h: K -> nat, t: M.Table<K, V>, key: K, idx: nat, n: nat)
    requires idx == M.Slot(h, key, |t.buckets|) && n == M.ChainFind(M.Bucket(t, idx), key) < |M.Bucket(t, idx)|
    ensures M.TableRemove(h, t, key) == M.PutBucket(t, idx, Cut(M.Bucket(t, idx), n), -1)
  {
  }
}
