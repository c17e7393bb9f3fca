/** When the dictionary grows, to which size, and that its calls carry a rehash on. */
module DictGrowth {
  import opened Options
  import opened TableIndex
  import opened DictModel
  import opened DictRefine
  import opened DictRuns

  /** `n` is the least power of two that is at least 8 and at least `size`. */
  ghost predicate LeastSize(n: nat, size: int)
  {
    IsPow2(n) && n >= 8 && n >= size && forall p: nat :: IsPow2(p) && p >= 8 && p >= size ==> n <= p
  }

  lemma PowSizeIsLeast(size: int)
    ensures LeastSize(PowSize(size), size)
  {
    assert IsPow2(1) && IsPow2(2) && IsPow2(4) && IsPow2(8);
    forall p: nat | IsPow2(p) && p >= 8 && p >= size ensures PowSize(size) <= p { PowSizeFromLeast(8, size, p); }
  }

  /** An expansion is refused while a rehash is going on, and to a size below the present one.  Otherwise the
      first table is made, or a second one to which a rehash begins. */
  lemma ExpandMeans<K(!new), V>(h: K -> nat, d: Dict<K, V>, size: int)
    requires Valid(h, d)
    ensures var (e, rc) := Expand(d, size);
            && (rc == -1 <==> d.rehashidx != -1 || |d.t0.buckets| > size)
            && (rc == -1 ==> e == d)
            && (rc != -1 ==>
                  && rc == 0 && e.iterators == d.iterators
                  && (d.t0.buckets == [] ==> LeastSize(|e.t0.buckets|, size) && e.rehashidx == -1)
                  && (d.t0.buckets != [] ==> LeastSize(|e.t1.buckets|, size) && e.t0 == d.t0 && e.rehashidx == 0))
  {
    hide LeastSize;
    ValidPhase(h, d);
    PowSizeIsLeast(size);
  }

  /** An add while no rehash is going on: an empty dictionary gets eight buckets, one with room keeps its
      table, and a full one begins to move to twice its entries. */
  lemma AddGrows<K(!new), V>(h: K -> nat, d: Dict<K, V>, k: K, v: V)
    requires Valid(h, d) && d.rehashidx == -1
    ensures var e := Add(h, d, k, v).0;
            && (d.t0.buckets == [] ==> |e.t0.buckets| == 8 && e.rehashidx == -1)
            && (d.t0.buckets != [] && d.t0.used < |d.t0.buckets| ==>
                  |e.t0.buckets| == |d.t0.buckets| && e.rehashidx == -1)
            && (d.t0.buckets != [] && d.t0.used >= |d.t0.buckets| ==>
                  e.rehashidx == 0 && e.t0 == d.t0 && LeastSize(|e.t1.buckets|, 2 * d.t0.used))
  {
    hide LeastSize, Lookup, Valid, Slot;
    ValidPhase(h, d);
    ExpandMeans(h, d, 8);
    EightIsLeast();
    ExpandMeans(h, d, d.t0.used * 2);
  }

  lemma EightIsLeast()
    ensures forall n :: LeastSize(n, 8) ==> n == 8
  {
    assert IsPow2(1) && IsPow2(2) && IsPow2(4) && IsPow2(8);
  }

  /** The rest of an add leaves a rehash where it is, and the size of a first table that exists. */
  lemma AddLeaves<K, V>(h: K -> nat, d: Dict<K, V>, k: K, v: V)
    requires d.t0.buckets != []
    ensures var e := AddStepped(h, d, k, v).0;
            && |e.t0.buckets| == |d.t0.buckets|
            && (d.rehashidx != -1 ==> e.rehashidx == d.rehashidx && |e.t1.buckets| == |d.t1.buckets|)
  {
    hide Lookup, Slot, PowSize;
  }

  /** The chosen step of a rehash was made. */
  ghost predicate Advanced<K, V>(d: Dict<K, V>, e: Dict<K, V>)
  {
    if d.t0.used > 0 then
      e.rehashidx > d.rehashidx && |e.t0.buckets| == |d.t0.buckets| && |e.t1.buckets| == |d.t1.buckets|
    else |e.t0.buckets| == |d.t1.buckets|
  }

  /** With no open iterator every call carries a rehash on: it moves past one more bucket at least, and once
      the old table is empty the new one takes its place.  A replacement that adds does so twice. */
  lemma CallAdvances<K(!new), V>(h: K -> nat, d: Dict<K, V>, op: Op<K, V>)
    requires Valid(h, d) && d.rehashidx != -1 && d.iterators == 0
    requires op.AddOp? || op.FindOp? || op.ReplaceOp? || op.DeleteOp?
    ensures var e := Exec(h, d, op).0;
            Advanced(d, e) || (op.ReplaceOp? && exists f :: Advanced(d, f) && Advanced(f, e))
  {
    hide Valid, Lookup, RehashStep, Slot, Get, PowSize;
    ValidPhase(h, d);
    RehashStepKeeps(h, d);
    var e := RehashStep(h, d);
    ValidPhase(h, e);
    match op
    case AddOp(k, v) => AddLeaves(h, e, k, v);
    case ReplaceOp(k, v) =>
      var f := TryRehash(h, e);
      if e.rehashidx != -1 {
        RehashStepKeeps(h, e);
        ValidPhase(h, f);
      }
      AddLeaves(h, f, k, v);
      AnswerOfReplace(h, d, k, v);
      assert e.rehashidx != -1 ==> Advanced(d, e) && Advanced(e, AddStepped(h, f, k, v).0);
    case _ =>
  }

  /** A replacement overwrites after one step, or adds after two. */
  lemma AnswerOfReplace<K(!new), V>(h: K -> nat, d: Dict<K, V>, k: K, v: V)
    requires Valid(h, d) && d.rehashidx != -1 && d.iterators == 0
    ensures var e, r := RehashStep(h, d), Replace(h, d, k, v).0;
            || r == AddStepped(h, TryRehash(h, e), k, v).0
            || (r.rehashidx == e.rehashidx && |r.t0.buckets| == |e.t0.buckets| && |r.t1.buckets| == |e.t1.buckets|)
  {
    hide Valid, Lookup, RehashStep, Slot, Get, AddStepped, ChainSet;
    ValidPhase(h, d);
  }
}
