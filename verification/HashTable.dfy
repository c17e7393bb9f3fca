/** One table of the dictionary on the heap: an array of bucket heads and linked entries.
    The ghost field `chains` lists the entries of each bucket in link order. */
module HashTable {
  import opened TableIndex
  import opened DictModel

  class Entry<K, V> {
    const key: K
    var value: V
    var next: Entry?<K, V>

    constructor (key: K, value: V)
      ensures this.key == key && this.value == value && next == null
    {
      this.key, this.value, next := key, value, null;
    }
  }

  ghost function After<K, V>(c: seq<Entry<K, V>>, j: nat): Entry?<K, V>
  {
    if j + 1 < |c| then c[j + 1] else null
  }

  /** `head` leads through `next` to exactly the entries of `c`. */
  ghost predicate Linked<K, V>(head: Entry?<K, V>, c: seq<Entry<K, V>>)
    reads c
  {
    && head == (if c == [] then null else c[0])
    && forall j :: 0 <= j < |c| ==> c[j].next == After(c, j)
  }

  ghost function Pairs<K, V>(c: seq<Entry<K, V>>): (r: Chain<K, V>)
    reads c
    ensures |r| == |c| && forall j :: 0 <= j < |c| ==> r[j] == Pair(c[j].key, c[j].value)
  {
    seq(|c|, j requires 0 <= j < |c| reads c => Pair(c[j].key, c[j].value))
  }

  /** Bucket, and distance to the end of the chain. */
  datatype Home = Home(bucket: int, rem: int)

  /** Every entry of a chain is at home there, so no entry object stands twice. */
  ghost predicate Settles<K, V>(chains: seq<seq<Entry<K, V>>>, home: map<Entry<K, V>, Home>)
  {
    forall i, j :: 0 <= i < |chains| && 0 <= j < |chains[i]| ==>
      chains[i][j] in home && home[chains[i][j]] == Home(i, |chains[i]| - j)
  }

  lemma SettlesPush<K, V>(chains: seq<seq<Entry<K, V>>>, home: map<Entry<K, V>, Home>, idx: nat, entry: Entry<K, V>)
    requires Settles(chains, home) && idx < |chains| && entry !in home
    ensures Settles(chains[idx := [entry] + chains[idx]], home[entry := Home(idx, |chains[idx]| + 1)])
  {
    var c := [entry] + chains[idx];
    var r, h := chains[idx := c], home[entry := Home(idx, |c|)];
    forall i: int, j: int | 0 <= i < |r| && 0 <= j < |r[i]| ensures r[i][j] in h && h[r[i][j]] == Home(i, |r[i]| - j) {
      if i != idx { assert r[i][j] == chains[i][j]; }
      else if j > 0 { assert r[i][j] == chains[i][j - 1]; }
    }
  }

  ghost function Cut<T>(c: seq<T>, n: nat): seq<T>
    requires n < |c|
  {
    c[..n] + c[n + 1..]
  }

  /** The homes after `x`, `rem` from the end of bucket `idx`, has left. */
  ghost function HomeCut<K, V>(home: map<Entry<K, V>, Home>, idx: int, rem: int, x: Entry<K, V>): map<Entry<K, V>, Home>
  {
    map e | e in home.Keys - {x} ::
      if home[e].bucket == idx && home[e].rem > rem then Home(idx, home[e].rem - 1) else home[e]
  }

  lemma SettlesCut<K, V>(chains: seq<seq<Entry<K, V>>>, home: map<Entry<K, V>, Home>, idx: nat, n: nat)
    requires Settles(chains, home) && idx < |chains| && n < |chains[idx]|
    ensures Settles(chains[idx := Cut(chains[idx], n)], HomeCut(home, idx, |chains[idx]| - n, chains[idx][n]))
    ensures HomeCut(home, idx, |chains[idx]| - n, chains[idx][n]).Keys == home.Keys - {chains[idx][n]}
  {
    var b := chains[idx];
    var r, h := chains[idx := Cut(b, n)], HomeCut(home, idx, |b| - n, b[n]);
    forall i: int, j: int | 0 <= i < |r| && 0 <= j < |r[i]| ensures r[i][j] in h && h[r[i][j]] == Home(i, |r[i]| - j) {
      var k := if i == idx && j >= n then j + 1 else j;
      assert r[i][j] == chains[i][k];
      assert home[b[n]] == Home(idx, |b| - n);
    }
  }

  /** The entry at `(idx, n)` is owned, and stands nowhere else. */
  lemma SettledEntry<K, V>(chains: seq<seq<Entry<K, V>>>, home: map<Entry<K, V>, Home>, idx: nat, n: nat)
    requires Settles(chains, home) && idx < |chains| && n < |chains[idx]|
    ensures chains[idx][n] in home
    ensures forall i :: 0 <= i < |chains| && i != idx ==> chains[idx][n] !in chains[i]
    ensures forall j :: 0 <= j < |chains[idx]| && j != n ==> chains[idx][j] != chains[idx][n]
  {
    assert home[chains[idx][n]] == Home(idx, |chains[idx]| - n);
  }

  ghost function Elements<K, V>(chain: seq<Entry<K, V>>): set<Entry<K, V>> { set e | e in chain }

  lemma ElementsGrow<K, V>(chain: seq<Entry<K, V>>, m: nat)
    requires m < |chain|
    ensures Elements(chain[..m + 1]) == Elements(chain[..m]) + {chain[m]}
  {
    assert chain[..m + 1] == chain[..m] + [chain[m]];
  }

  lemma SettlesDetach<K, V>(chains: seq<seq<Entry<K, V>>>, home: map<Entry<K, V>, Home>, idx: nat)
    requires Settles(chains, home) && idx < |chains|
    ensures Settles(chains[idx := []], home - Elements(chains[idx]))
  {
    forall i, j | 0 <= i < |chains| && 0 <= j < |chains[i]| && i != idx ensures chains[i][j] !in chains[idx] {
      assert home[chains[i][j]].bucket == i;
      forall k | 0 <= k < |chains[idx]| ensures chains[idx][k] != chains[i][j] {
        assert home[chains[idx][k]].bucket == idx;
      }
    }
  }

  lemma SettledApart<K, V>(chains: seq<seq<Entry<K, V>>>, home: map<Entry<K, V>, Home>, entry: Entry<K, V>)
    requires Settles(chains, home) && entry !in home
    ensures forall i :: 0 <= i < |chains| ==> entry !in chains[i]
  {
  }

  lemma {:induction false} FindIs<K, V>(c: Chain<K, V>, key: K, n: nat)
    requires n <= |c| && (n < |c| ==> c[n].key == key)
    requires forall j :: 0 <= j < n ==> c[j].key != key
    ensures ChainFind(c, key) == n
  {
  }

  lemma NothingLinked<K, V>()
    ensures Linked<K, V>(null, [])
  {
  }

  lemma Links<K, V>(head: Entry?<K, V>, c: seq<Entry<K, V>>)
    requires Linked(head, c) && c != []
    ensures head == c[0] && forall j :: 0 <= j < |c| ==> c[j].next == After(c, j)
  {
  }

  lemma LinkAt<K, V>(head: Entry?<K, V>, c: seq<Entry<K, V>>, n: nat)
    requires Linked(head, c) && n < |c|
    ensures c[n].next == After(c, n)
  {
  }

  lemma HeadIs<K, V>(head: Entry?<K, V>, c: seq<Entry<K, V>>)
    requires Linked(head, c)
    ensures head == if c == [] then null else c[0]
  {
  }

  lemma LinkedPush<K, V>(b: seq<Entry<K, V>>, entry: Entry<K, V>)
    requires Linked(entry.next, b)
    ensures Linked(entry, [entry] + b)
  {
    var c := [entry] + b;
    assert forall j :: 1 <= j < |c| ==> c[j] == b[j - 1] && After(c, j) == After(b, j - 1);
  }

  ghost function AllPairs<K, V>(chains: seq<seq<Entry<K, V>>>, home: map<Entry<K, V>, Home>): (r: seq<Chain<K, V>>)
    requires Settles(chains, home)
    reads home.Keys
    ensures |r| == |chains|
    ensures forall i :: 0 <= i < |chains| ==> r[i] == Pairs(chains[i])
  {
    seq(|chains|, i requires 0 <= i < |chains| && Settles(chains, home) reads home.Keys => Pairs(chains[i]))
  }

  ghost predicate Consistent<K, V>(hole: int, entries: array?<Entry?<K, V>>, size: nat, mask: nat,
                                   chains: seq<seq<Entry<K, V>>>, home: map<Entry<K, V>, Home>): (ok: bool)
    reads home.Keys, if entries == null then {} else {entries}
    ensures ok ==> (size == 0 <==> entries == null) && |chains| == size && Settles(chains, home)
    ensures ok && entries != null ==> entries.Length == size && IsPow2(size) && mask == size - 1
  {
    && (size == 0 <==> entries == null)
    && (entries != null ==> entries.Length == size && IsPow2(size) && size >= INIT_SIZE)
    && mask == (if size == 0 then 0 else size - 1)
    && |chains| == size
    && Settles(chains, home)
    && (entries != null ==> forall i :: 0 <= i < size && i != hole ==> Linked(entries[i], chains[i]))
    && (0 <= hole < size ==> chains[hole] == [])
  }

  class Table<K(==), V> {
    var entries: array?<Entry?<K, V>>
    var size: nat
    var mask: nat
    var used: int
    ghost var chains: seq<seq<Entry<K, V>>>
    ghost var home: map<Entry<K, V>, Home>

    ghost function Repr(): (r: set<object>)
      reads this
      ensures this in r
    {
      {this} + home.Keys + if entries == null then {} else {entries}
    }

    /** Consistent, except that the head of bucket `hole` may be stale. */
    ghost predicate ValidBut(hole: int)
      reads this, Repr()
    {
      Consistent(hole, entries, size, mask, chains, home)
    }

    ghost predicate Valid()
      reads this, Repr()
      ensures Valid() ==> |chains| == size && Settles(chains, home) && (size == 0 <==> entries == null)
    {
      ValidBut(-1)
    }

    ghost function Model(): (m: DictModel.Table<K, V>)
      reads this, Repr()
      requires Settles(chains, home)
      ensures m.used == used && m.buckets == AllPairs(chains, home) && |m.buckets| == |chains|
    {
      DictModel.Table(AllPairs(chains, home), used)
    }

    /** `_table_reset` on a new structure. */
    constructor Reset()
      ensures Valid() && fresh(Repr()) && Model() == EmptyTable() && size == 0
    {
      entries, size, mask, used := null, 0, 0, 0;
      chains, home := [], map[];
    }

    /** The zeroed table that `dict_expand` allocates. */
    constructor Sized(n: nat)
      requires IsPow2(n) && n >= INIT_SIZE
      ensures Valid() && fresh(Repr()) && Model() == NewTable(n) && size == n
    {
      entries := new Entry?<K, V>[n](_ => null);
      size, mask, used := n, n - 1, 0;
      chains, home := seq(n, _ => []), map[];
    }

    /** Walk one bucket for `key`; `prev` trails one entry behind, and `n` is where the walk stopped. */
    method FindEntry(idx: nat, key: K) returns (prev: Entry?<K, V>, entry: Entry?<K, V>, ghost n: nat)
      requires Valid() && idx < size
      ensures n <= |chains[idx]| && entry == (if n < |chains[idx]| then chains[idx][n] else null)
      ensures prev == if n == 0 then null else chains[idx][n - 1]
      ensures n == ChainFind(Bucket(Model(), idx), key) && (entry != null ==> entry.key == key)
    {
      hide Consistent, Linked;
      prev, entry, n := null, entries[idx], 0;
      ghost var c := chains[idx];
      HeadLinks(idx);
      HeadIs(entries[idx], c);
      while entry != null
        invariant n <= |c| && entry == (if n < |c| then c[n] else null) && prev == if n == 0 then null else c[n - 1]
        invariant forall j :: 0 <= j < n ==> c[j].key != key
        decreases |c| - n
      {
        if entry.key == key { break; }
        LinkAt(entries[idx], c, n);
        prev, entry, n := entry, entry.next, n + 1;
      }
      FindIs(Pairs(c), key, n);
    }

    /** Link `entry` in front of bucket `idx`. */
    method PushEntry(idx: nat, entry: Entry<K, V>)
      requires Valid() && idx < size && entry !in home
      modifies this, entries, entry
      ensures Valid() && entries == old(entries) && size == old(size) && mask == old(mask)
      ensures entry.value == old(entry.value) && used == old(used) + 1
      ensures chains == old(chains)[idx := [entry] + old(chains)[idx]]
      ensures home == old(home)[entry := Home(idx, |old(chains)[idx]| + 1)]
      ensures Model() == PutBucket(old(Model()), idx, [Pair(entry.key, entry.value)] + Bucket(old(Model()), idx), 1)
    {
      hide Settles, Model, Linked, Pairs;
      ghost var b, was := chains[idx], DictModel.Table(AllPairs(chains, home), used);
      assert forall i :: 0 <= i < size ==> Linked(entries[i], chains[i]);
      SettledApart(chains, home, entry);
      SettlesPush(chains, home, idx, entry);
      entry.next := entries[idx];
      entries[idx] := entry;
      used := used + 1;
      chains, home := chains[idx := [entry] + b], home[entry := Home(idx, |b| + 1)];
      forall i | 0 <= i < size ensures Linked(entries[i], chains[i]) {
        assert old(Linked(entries[i], chains[i]));
        if i == idx { LinkedPush(b, entry); }
      }
      BucketChanged(this, was, idx);
      PairsPush(b, entry);
    }

    /** Hand the chain of bucket `idx` over to the caller; the head is cleared later. */
    ghost method Detach(idx: nat)
      requires Valid() && idx < size
      modifies this`chains, this`home
      ensures ValidBut(idx) && chains == old(chains)[idx := []]
      ensures home == old(home) - Elements(old(chains)[idx])
      ensures Model() == PutBucket(old(Model()), idx, [], 0)
    {
      hide Linked, Pairs;
      ghost var gone, was := Elements(chains[idx]), Model();
      SettlesDetach(chains, home, idx);
      chains, home := chains[idx := []], home - gone;
      BucketChanged(this, was, idx);
      assert Pairs(chains[idx]) == [];
    }

    /** Clear the stale head that Detach left behind. */
    method ClearHead(idx: nat)
      requires ValidBut(idx) && idx < size
      modifies entries
      ensures Valid() && Model() == old(Model())
    {
      hide Linked, Settles;
      entries[idx] := null;
      assert Linked(null, chains[idx]) by { NothingLinked<K, V>(); }
    }

    lemma HeadLinks(idx: nat)
      requires Valid() && idx < size
      ensures Linked(entries[idx], chains[idx])
    {
    }

    /** The inner loop of `_table_clear`: walk one chain, counting its entries down. */
    method CountDown(i: nat)
      requires Valid() && i < size
      modifies this`used
      ensures Valid() && used == old(used) - |chains[i]|
    {
      hide Consistent, Model, Linked;
      var entry := entries[i];
      ghost var c, n := chains[i], 0;
      HeadLinks(i);
      HeadIs(entries[i], c);
      while entry != null
        invariant n <= |c| && entry == (if n < |c| then c[n] else null) && used == old(used) - n
        decreases |c| - n
      {
        LinkAt(entries[i], c, n);
        used := used - 1;
        entry, n := entry.next, n + 1;
      }
    }

    /** `_table_clear`: count every entry down, then reset. */
    method Clear()
      requires Valid() && used == Total(Model().buckets)
      modifies this
      ensures Valid() && Model() == EmptyTable() && size == 0 && fresh(Repr() - {this})
    {
      hide Linked, Pairs;
      ghost var b := Model().buckets;
      var i := 0;
      while i < size
        invariant i <= size == old(size) == |b| && chains == old(chains)
        invariant Valid() && used == Total(b[i..])
      {
        hide Consistent, Model;
        CountDown(i);
        assert b[i..][1..] == b[i + 1..] && |b[i]| == |chains[i]|;
        i := i + 1;
      }
      assert used == 0;  // every entry was counted, and counted once
      entries, size, mask, used := null, 0, 0, 0;
      chains, home := [], map[];
    }

    /** The links lead past entry number `n` of bucket `idx`, whose predecessor is `prev`. */
    method Bypass(idx: nat, prev: Entry?<K, V>, entry: Entry<K, V>, ghost n: nat)
      requires Valid() && idx < size && n < |chains[idx]| && entry == chains[idx][n]
      requires prev == if n == 0 then null else chains[idx][n - 1]
      modifies entries, prev
      ensures forall i :: 0 <= i < size ==> Linked(entries[i], if i == idx then Cut(chains[idx], n) else chains[i])
      ensures AllPairs(chains, home) == old(AllPairs(chains, home))
    {
      hide Settles, Cut, Linked, Pairs;
      ghost var b, was := chains[idx], AllPairs(chains, home);
      assert forall i :: 0 <= i < size ==> Linked(entries[i], chains[i]);
      SettledEntry(chains, home, idx, n);
      if n > 0 { SettledEntry(chains, home, idx, n - 1); }
      Links(entries[idx], b);
      if prev != null {
        prev.next := entry.next;
      } else {
        entries[idx] := entry.next;
      }
      LinkedCut(entries[idx], b, n);
      forall i | 0 <= i < size && i != idx ensures Linked(entries[i], chains[i]) {
        assert old(Linked(entries[i], chains[i]));
      }
      forall i | 0 <= i < |chains| ensures Pairs(chains[i]) == was[i] {
        assert was[i] == old(Pairs(chains[i]));
      }
      assert AllPairs(chains, home) == was;
    }

    /** Unlink entry number `n` of bucket `idx`, whose predecessor is `prev`. */
    method Unlink(idx: nat, prev: Entry?<K, V>, entry: Entry<K, V>, ghost n: nat)
      requires Valid() && idx < size && n < |chains[idx]| && entry == chains[idx][n]
      requires prev == if n == 0 then null else chains[idx][n - 1]
      modifies this, entries, prev
      ensures Valid() && entries == old(entries) && size == old(size) && mask == old(mask)
      ensures chains == old(chains)[idx := Cut(old(chains)[idx], n)]
      ensures home.Keys == old(home).Keys - {entry}
      ensures Model() == PutBucket(old(Model()), idx, Cut(Bucket(old(Model()), idx), n), -1)
    {
      hide Settles, Model, Cut, HomeCut, Linked, Pairs;
      ghost var b, was := chains[idx], DictModel.Table(AllPairs(chains, home), used);
      SettlesCut(chains, home, idx, n);
      Bypass(idx, prev, entry, n);
      used := used - 1;
      assert AllPairs(chains, home) == was.buckets;
      assert forall i :: 0 <= i < size ==> Pairs(chains[i]) == was.buckets[i];
      PairsCut(b, n);
      chains, home := chains[idx := Cut(b, n)], HomeCut(home, idx, |b| - n, entry);
      BucketChanged(this, was, idx);
    }
  }

  /** DICT_SET_VALUE on entry `n` of bucket `idx` of `t`. */
  method SetValue<K(==), V>(ghost t: Table<K, V>, ghost idx: nat, ghost n: nat, entry: Entry<K, V>, value: V)
    requires t.Valid() && idx < t.size && n < |t.chains[idx]| && entry == t.chains[idx][n]
    modifies entry`value
    ensures t.Valid() && entry.value == value
    ensures var was := old(t.Model());
            t.Model() == PutBucket(was, idx, Bucket(was, idx)[n := Pair(entry.key, value)], 0)
  {
    hide Settles, Table.Model;
    ghost var was := DictModel.Table(AllPairs(t.chains, t.home), t.used);
    SettledEntry(t.chains, t.home, idx, n);
    OwnedChains(t.chains, t.home);
    assert forall i :: 0 <= i < t.size ==> Linked(t.entries[i], t.chains[i]);
    entry.value := value;
    forall i | 0 <= i < t.size ensures Linked(t.entries[i], t.chains[i]) {
      assert old(Linked(t.entries[i], t.chains[i]));
    }
    BucketChanged(t, was, idx);
    assert Pairs(t.chains[idx]) == was.buckets[idx][n := Pair(entry.key, value)];
  }

  /** If the pairs outside bucket `idx` are what they were, so is the rest of the model. */
  lemma BucketChanged<K, V>(t: Table<K, V>, was: DictModel.Table<K, V>, idx: nat)
    requires Settles(t.chains, t.home) && idx < |t.chains| == |was.buckets|
    requires forall i :: 0 <= i < |t.chains| && i != idx ==> Pairs(t.chains[i]) == was.buckets[i]
    ensures t.Model() == PutBucket(was, idx, Pairs(t.chains[idx]), t.used - was.used)
  {
    assert AllPairs(t.chains, t.home) == was.buckets[idx := Pairs(t.chains[idx])];
  }

  lemma OwnedChains<K, V>(chains: seq<seq<Entry<K, V>>>, home: map<Entry<K, V>, Home>)
    requires Settles(chains, home)
    ensures forall i, e :: 0 <= i < |chains| && e in chains[i] ==> e in home
  {
  }

  lemma PairsPush<K, V>(b: seq<Entry<K, V>>, entry: Entry<K, V>)
    ensures Pairs([entry] + b) == [Pair(entry.key, entry.value)] + Pairs(b)
  {
  }

  lemma PairsCut<K, V>(b: seq<Entry<K, V>>, n: nat)
    requires n < |b|
    ensures Pairs(Cut(b, n)) == Cut(Pairs(b), n)
  {
  }

  /** Unlinking entry `n` changes one link: the head, or the link of its predecessor. */
  lemma LinkedCut<K, V>(head: Entry?<K, V>, b: seq<Entry<K, V>>, n: nat)
    requires n < |b| && forall j :: 0 <= j < |b| && j != n - 1 ==> b[j].next == After(b, j)
    requires if n == 0 then head == After(b, 0) else head == b[0] && b[n - 1].next == After(b, n)
    ensures Linked(head, Cut(b, n))
  {
    var c := Cut(b, n);
    forall j | 0 <= j < |c| ensures c[j].next == After(c, j) {
      var k := if j < n then j else j + 1;
      assert c[j] == b[k];
    }
  }
}
