/** How many buckets a table has after each call, and where its entries lie. */
module HashLayout {
  import opened Buckets
  import opened BucketsCorrect
  import opened HashRuns

  // ----- The number of buckets -----

  // The number of buckets that a rehash of e entries gives: a power of two that is more than a quarter
  // and at most half full, or a single empty bucket.
  predicate Tight(e: nat, n: nat) {
    IsPow2(n) && if e == 0 then n == 1 else 2 * e <= n < 4 * e
  }

  lemma TightUnique(e: nat, m: nat, n: nat)
    requires Tight(e, m) && Tight(e, n)
    ensures m == n
  {
    hide IsPow2;
    Pow2Unique(m, n);
  }

  // A rehash leaves a tight table, and leaves a table alone exactly if it is tight already.
  lemma RehashTight<K(!new), V(!new)>(hash: K -> nat, t: Table<K, V>)
    requires WF(hash, t)
    ensures var r := Buckets.Rehash(hash, t);
            && Tight(Count(t), |r.chains|)
            && (|r.chains| == |t.chains| <==> Tight(Count(t), |t.chains|))
            && (if Tight(Count(t), |t.chains|) then r == t else r.resized == t.resized + 1)
  {
    RehashCorrect(hash, t);
    var r := Buckets.Rehash(hash, t);
    assert Tight(Count(t), |r.chains|) by { hide IsPow2; }
    if Tight(Count(t), |t.chains|) { TightUnique(Count(t), |t.chains|, |r.chains|); }
  }

  // The buckets of r are those of t.
  predicate SameBuckets<K, V>(t: Table<K, V>, r: Table<K, V>) {
    |r.chains| == |t.chains| && r.resized == t.resized
  }

  // A put rehashes exactly if it adds a key to a table that may grow and is then more than three quarters full.
  lemma PutBuckets<K(!new), V(!new)>(hash: K -> nat, t: Table<K, V>, k: K, v: V)
    requires WF(hash, t)
    ensures var r := TableStep(hash, t, Op<K, V>.Put(k, v)).0;
            if !t.frozen && k !in Contents(hash, t) && 4 * Count(r) > 3 * |t.chains|
            then Tight(Count(r), |r.chains|) && r.resized == t.resized + 1
            else SameBuckets(t, r)
  {
    hide WF, Contents, Items, IsPow2, Buckets.Get, PutLocked, Buckets.Rehash;
    HasBuckets(hash, t);
    ContentsGet(hash, t, k);
    PutLockedCorrect(hash, t, k, v);
    var t1 := PutLocked(hash, t, k, v).0;
    RehashCorrect(hash, t1);
    RehashTight(hash, t1);
    PutLockedFlags(hash, t, k, v);
  }

  lemma PutLockedFlags<K(!new), V(!new)>(hash: K -> nat, t: Table<K, V>, k: K, v: V)
    requires 0 < |t.chains|
    ensures var t1 := PutLocked(hash, t, k, v).0;
            |t1.chains| == |t.chains| && t1.(chains := t.chains) == t
  {
  }

  lemma DeleteLockedFlags<K(!new), V(!new)>(hash: K -> nat, t: Table<K, V>, k: K)
    requires 0 < |t.chains|
    ensures var t1 := DeleteLocked(hash, t, k).0;
            |t1.chains| == |t.chains| && t1.(chains := t.chains) == t
  {
  }

  lemma HasBuckets<K(!new), V(!new)>(hash: K -> nat, t: Table<K, V>)
    requires WF(hash, t)
    ensures 0 < |t.chains|
  {
  }

  // The table may shrink: it is not frozen, nor frozen until it grows.
  predicate MayShrink<K, V>(t: Table<K, V>) {
    !t.frozen && (t.untilGrows ==> t.resized > 0)
  }

  // A delete rehashes exactly if it removes a key from a table that may shrink and is then less than a quarter full.
  lemma DeleteBuckets<K(!new), V(!new)>(hash: K -> nat, t: Table<K, V>, k: K)
    requires WF(hash, t)
    ensures var r := TableStep(hash, t, Op<K, V>.Delete(k)).0;
            if MayShrink(t) && k in Contents(hash, t) && 4 * Count(r) < |t.chains|
            then Tight(Count(r), |r.chains|) && r.resized == t.resized + if |t.chains| == 1 then 0 else 1
            else SameBuckets(t, r)
  {
    hide WF, Contents, Items, IsPow2, Buckets.Get, DeleteLocked, Buckets.Rehash;
    HasBuckets(hash, t);
    ContentsGet(hash, t, k);
    DeleteLockedCorrect(hash, t, k);
    var t1 := DeleteLocked(hash, t, k).0;
    RehashCorrect(hash, t1);
    RehashTight(hash, t1);
    DeleteLockedFlags(hash, t, k);
    TightOne();
  }

  lemma TightOne()
    ensures Tight(0, 1)
  {
  }

  // A cleared table that may shrink has one bucket.
  lemma ClearBuckets<K(!new), V(!new)>(hash: K -> nat, t: Table<K, V>)
    requires WF(hash, t)
    ensures var r := TableStep(hash, t, Op<K, V>.Clear).0;
            && r.chains == seq(if MayShrink(t) then 1 else |t.chains|, _ => [])
            && r.resized == t.resized + if MayShrink(t) && |t.chains| > 1 then 1 else 0
  {
    ClearLockedCorrect(hash, t);
    RehashCorrect(hash, ClearLocked(t));
    TightOne();
    RehashTight(hash, ClearLocked(t));
    var r := TableStep(hash, t, Op<K, V>.Clear).0;
    StepContents(hash, t, Op<K, V>.Clear);
    CountIsSize(hash, r);
    NoItems(r.chains);
  }

  lemma {:induction false} NoItems<K, V>(b: Chains<K, V>)
    ensures Items(b) == [] ==> forall i :: 0 <= i < |b| ==> b[i] == []
  {
    if b == [] {
    } else {
      NoItems(b[..|b| - 1]);
      assert forall i :: 0 <= i < |b| - 1 ==> b[i] == b[..|b| - 1][i];
    }
  }

  // A rehash inside a call relinks every entry the call leaves; without one nothing is relinked.
  lemma StepCostIs<K(!new), V(!new)>(hash: K -> nat, t: Table<K, V>, op: Op<K, V>)
    requires WF(hash, t)
    ensures var r := TableStep(hash, t, op).0;
            StepCost(hash, t, op) == if r.resized == t.resized then 0 else Count(r)
  {
    hide WF, Items, IsPow2, Buckets.Get, PutLocked, DeleteLocked, Slot;
    HasBuckets(hash, t);
    match op {
      case Put(k, v) =>
        PutLockedCorrect(hash, t, k, v);
        PutLockedFlags(hash, t, k, v);
        RehashCorrect(hash, PutLocked(hash, t, k, v).0);
      case Delete(k) =>
        DeleteLockedCorrect(hash, t, k);
        DeleteLockedFlags(hash, t, k);
        RehashCorrect(hash, DeleteLocked(hash, t, k).0);
      case Clear =>
        ClearLockedCorrect(hash, t);
        RehashCorrect(hash, ClearLocked(t));
      case Rehash => RehashCorrect(hash, t);
      case _ =>
    }
  }

  // Calls other than rehash leave the buckets of a frozen table alone.
  lemma FrozenStep<K(!new), V(!new)>(hash: K -> nat, t: Table<K, V>, op: Op<K, V>)
    requires 0 < |t.chains| && t.frozen && !op.Rehash?
    ensures var r := TableStep(hash, t, op).0;
            |r.chains| == |t.chains| && r.resized == t.resized && r.frozen && StepCost(hash, t, op) == 0
  {
  }

  lemma {:induction false} FrozenRun<K(!new), V(!new)>(hash: K -> nat, t: Table<K, V>, ops: seq<Op<K, V>>)
    requires 0 < |t.chains| && t.frozen && forall op :: op in ops ==> !op.Rehash?
    ensures var r := TableRun(hash, t, ops).0;
            |r.chains| == |t.chains| && r.resized == t.resized && r.frozen && RunCost(hash, t, ops) == 0
    decreases |ops|
  {
    hide TableStep, StepCost;
    if ops == [] {
    } else {
      FrozenStep(hash, t, ops[0]);
      FrozenRun(hash, TableStep(hash, t, ops[0]).0, ops[1..]);
    }
  }

  // A new table has the least power of two of buckets that is at least its size. If it is frozen, no run of calls
  // other than rehash changes that, and nothing is ever relinked.
  lemma FrozenKeepsBuckets<K(!new), V(!new)>(hash: K -> nat, size: nat, ops: seq<Op<K, V>>)
    requires forall op :: op in ops ==> !op.Rehash?
    ensures var r := TableRun(hash, New<K, V>(size, true), ops).0;
            && IsPow2(|r.chains|) && size <= |r.chains| && (|r.chains| == 1 || |r.chains| < 2 * size)
            && r.resized == 0 && RunCost(hash, New<K, V>(size, true), ops) == 0
  {
    hide IsPow2;
    FrozenRun(hash, New<K, V>(size, true), ops);
  }

  lemma NewBuckets<K, V>(size: nat, frozen: bool)
    ensures var t := New<K, V>(size, frozen);
            && IsPow2(|t.chains|) && size <= |t.chains| && (|t.chains| == 1 || |t.chains| < 2 * size)
            && (forall i :: 0 <= i < |t.chains| ==> t.chains[i] == [])
            && t.resized == 0 && t.frozen == frozen && t.untilGrows
  {
  }

  // ----- Where the entries lie -----

  // The bucket of a key is the remainder of its hash by the number of buckets.
  lemma SlotIsRemainder<K(!new), V(!new)>(hash: K -> nat, t: Table<K, V>, i: nat, e: Entry<K, V>)
    requires WF(hash, t) && i < |t.chains| && e in t.chains[i]
    ensures i == hash(e.key) % |t.chains|
  {
    MaskIsRemainder(hash(e.key), |t.chains|);
  }

  // A put touches one bucket: the data of the key is replaced in place, or a new entry heads the chain.
  lemma PutPlaces<K(!new), V(!new)>(hash: K -> nat, t: Table<K, V>, k: K, v: V)
    requires WF(hash, t)
    ensures var r, i := PutLocked(hash, t, k, v).0.chains, Slot<K, V>(hash, k, |t.chains|);
            && |r| == |t.chains| && (forall j :: 0 <= j < |r| && j != i ==> r[j] == t.chains[j])
            && if k in Contents(hash, t)
               then |r[i]| == |t.chains[i]| && forall p :: 0 <= p < |r[i]| ==>
                      r[i][p] == if t.chains[i][p].key == k then Entry(k, v) else t.chains[i][p]
               else r[i] == [Entry(k, v)] + t.chains[i]
  {
    ContentsGet(hash, t, k);
  }

  // A delete unlinks one entry and leaves the others in order.
  lemma DeletePlaces<K(!new), V(!new)>(hash: K -> nat, t: Table<K, V>, k: K)
    requires WF(hash, t)
    ensures var r, i := DeleteLocked(hash, t, k).0.chains, Slot<K, V>(hash, k, |t.chains|);
            && |r| == |t.chains| && (forall j :: 0 <= j < |r| && j != i ==> r[j] == t.chains[j])
            && if k in Contents(hash, t) then LessEntry(t.chains[i], Entry(k, Contents(hash, t)[k]), r[i])
               else r[i] == t.chains[i]
  {
    hide Contents, Items, CutChain, LessEntry;
    ContentsGet(hash, t, k);
    CutUnlinks(t.chains[Slot<K, V>(hash, k, |t.chains|)], k);
  }

  // d is c without one occurrence of e.
  ghost predicate LessEntry<K(!new), V(!new)>(c: seq<Entry<K, V>>, e: Entry<K, V>, d: seq<Entry<K, V>>) {
    exists p :: 0 <= p < |c| && c[p] == e && d == c[..p] + c[p + 1..]
  }

  lemma CutUnlinks<K(!new), V(!new)>(c: seq<Entry<K, V>>, k: K)
    ensures match Lookup(c, k)
            case Some(v) => LessEntry(c, Entry(k, v), CutChain(c, k))
            case None => CutChain(c, k) == c
  {
    var p := Find(c, k);
    if p < |c| { assert c[p] == Entry(k, c[p].data); }
  }

  // The entries of es that belong in bucket i of n, the last one first.
  function Landing<K, V>(hash: K -> nat, es: seq<Entry<K, V>>, n: nat, i: nat): seq<Entry<K, V>>
    requires 0 < n
  {
    if es == [] then []
    else (if Slot<K, V>(hash, es[|es| - 1].key, n) == i then [es[|es| - 1]] else []) +
         Landing(hash, es[..|es| - 1], n, i)
  }

  lemma {:induction false} RedistributeLands<K(!new), V(!new)>(hash: K -> nat, es: seq<Entry<K, V>>, n: nat, i: nat)
    requires i < n
    ensures Redistribute(hash, es, EmptyChains(n))[i] == Landing(hash, es, n, i)
  {
    if es == [] {
    } else {
      RedistributeLands(hash, es[..|es| - 1], n, i);
    }
  }

  // A rehash that changes the number of buckets lists the entries of each new bucket in reverse.
  lemma RehashPlaces<K(!new), V(!new)>(hash: K -> nat, t: Table<K, V>, i: nat)
    requires WF(hash, t) && i < |Buckets.Rehash(hash, t).chains|
    ensures var r := Buckets.Rehash(hash, t);
            && (|r.chains| == |t.chains| ==> r == t)
            && (|r.chains| != |t.chains| ==> r.chains[i] == Landing(hash, Items(t.chains), |r.chains|, i))
  {
    RehashTight(hash, t);
    var n := |Buckets.Rehash(hash, t).chains|;
    RedistributeLands(hash, Items(t.chains), n, i);
  }
}
