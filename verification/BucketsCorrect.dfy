/** The hash table operations, seen through Contents, are the operations of a finite map. */
module BucketsCorrect {
  import opened Options
  import opened Buckets

  // Two well-formed tables that answer every lookup alike have the same contents.
  lemma SameGets<K(!new), V(!new)>(hash: K -> nat, t: Table<K, V>, m: map<K, V>)
    requires WF(hash, t)
    requires forall k :: Get(hash, t, k) == if k in m then Some(m[k]) else None
    ensures Contents(hash, t) == m
  {
    forall k
      ensures k in Contents(hash, t) <==> k in m
      ensures k in m ==> Contents(hash, t)[k] == m[k]
    {
      ContentsGet(hash, t, k);
    }
  }

  lemma NewCorrect<K(!new), V(!new)>(hash: K -> nat, size: nat, frozen: bool)
    ensures var t := New<K, V>(size, frozen);
            && WF(hash, t) && Contents(hash, t) == map[] && Count(t) == 0
  {
    var t := New<K, V>(size, frozen);
    SameGets(hash, t, map[]);
    CountEmpty<K, V>(|t.chains|);
  }

  lemma PutChainCorrect<K(!new), V(!new)>(c: seq<Entry<K, V>>, k: K, v: V)
    requires DistinctKeys(c)
    ensures var d := PutChain(c, k, v);
            && DistinctKeys(d)
            && (forall e :: e in d ==> e in c || e.key == k)
            && |d| == |c| + (if Lookup(c, k).None? then 1 else 0)
            && forall x :: Lookup(d, x) == if x == k then Some(v) else Lookup(c, x)
  {
    var d, j := PutChain(c, k, v), Find(c, k);
    assert d[if j < |c| then j else 0] == Entry(k, v);
    forall x
      ensures Lookup(d, x) == if x == k then Some(v) else Lookup(c, x)
    {
      var p, q := Find(c, x), Find(d, x);
      if x != k && p < |c| {
        assert d[if j < |c| then p else p + 1] == c[p];
      }
      if x != k && q < |d| {
        assert c[if j < |c| then q else q - 1] == d[q];
      }
    }
  }

  lemma CutChainCorrect<K(!new), V(!new)>(c: seq<Entry<K, V>>, k: K)
    requires DistinctKeys(c)
    ensures var d := CutChain(c, k);
            && DistinctKeys(d)
            && (forall e :: e in d ==> e in c)
            && |d| == |c| - (if Lookup(c, k).Some? then 1 else 0)
            && forall x :: Lookup(d, x) == if x == k then None else Lookup(c, x)
  {
    var d, j := CutChain(c, k), Find(c, k);
    forall x
      ensures Lookup(d, x) == if x == k then None else Lookup(c, x)
    {
      var p, q := Find(c, x), Find(d, x);
      if x != k && p < |c| {
        assert d[if p < j then p else p - 1] == c[p];
      }
      if q < |d| {
        assert c[if q < j then q else q + 1] == d[q];
      }
    }
  }

  // Replacing one chain by another that answers according to m makes the table answer according to m.
  lemma ReplaceChain<K(!new), V(!new)>(hash: K -> nat, t: Table<K, V>, i: nat, d: seq<Entry<K, V>>, m: map<K, V>)
    requires WF(hash, t) && i < |t.chains| && DistinctKeys(d)
    requires forall e :: e in d ==> Slot<K, V>(hash, e.key, |t.chains|) == i
    requires forall x :: Slot<K, V>(hash, x, |t.chains|) == i ==> Lookup(d, x) == if x in m then Some(m[x]) else None
    requires forall x :: Slot<K, V>(hash, x, |t.chains|) != i ==>
               Get(hash, t, x) == if x in m then Some(m[x]) else None
    ensures var t1 := t.(chains := t.chains[i := d]);
            WF(hash, t1) && Contents(hash, t1) == m && Count(t1) == Count(t) - |t.chains[i]| + |d|
  {
    var t1 := t.(chains := t.chains[i := d]);
    CountUpdate(t.chains, i, d);
    SameGets(hash, t1, m);
  }

  lemma PutLockedCorrect<K(!new), V(!new)>(hash: K -> nat, t: Table<K, V>, k: K, v: V)
    requires WF(hash, t)
    ensures var (t1, prev) := PutLocked(hash, t, k, v);
            && WF(hash, t1)
            && prev == Get(hash, t, k)
            && Contents(hash, t1) == Contents(hash, t)[k := v]
            && Count(t1) == Count(t) + if prev.None? then 1 else 0
  {
    var i, m := Slot<K, V>(hash, k, |t.chains|), Contents(hash, t)[k := v];
    var c := t.chains[i];
    PutChainCorrect(c, k, v);
    forall x
      ensures x != k ==> Get(hash, t, x) == if x in m then Some(m[x]) else None
    {
      ContentsGet(hash, t, x);
    }
    ReplaceChain(hash, t, i, PutChain(c, k, v), m);
  }

  lemma DeleteLockedCorrect<K(!new), V(!new)>(hash: K -> nat, t: Table<K, V>, k: K)
    requires WF(hash, t)
    ensures var (t1, prev) := DeleteLocked(hash, t, k);
            && WF(hash, t1)
            && prev == Get(hash, t, k)
            && Contents(hash, t1) == Contents(hash, t) - {k}
            && Count(t1) == Count(t) - if prev.Some? then 1 else 0
  {
    var i, m := Slot<K, V>(hash, k, |t.chains|), Contents(hash, t) - {k};
    var c := t.chains[i];
    CutChainCorrect(c, k);
    forall x
      ensures x != k ==> Get(hash, t, x) == if x in m then Some(m[x]) else None
    {
      ContentsGet(hash, t, x);
    }
    ReplaceChain(hash, t, i, CutChain(c, k), m);
  }

  lemma ClearLockedCorrect<K(!new), V(!new)>(hash: K -> nat, t: Table<K, V>)
    requires WF(hash, t)
    ensures WF(hash, ClearLocked(t)) && Contents(hash, ClearLocked(t)) == map[] && Count(ClearLocked(t)) == 0
  {
    SameGets(hash, ClearLocked(t), map[]);
    CountEmpty<K, V>(|t.chains|);
  }

  // In a well-formed table the flattened entries have distinct keys.
  lemma {:induction false} ItemsDistinct<K(!new), V(!new)>(hash: K -> nat, b: Chains<K, V>, n: nat)
    requires n <= |b| && Placed(hash, b)
    requires forall i :: 0 <= i < |b| ==> DistinctKeys(b[i])
    ensures DistinctKeys(Items(b[..n]))
  {
    if n == 0 {
    } else {
      ItemsDistinct(hash, b, n - 1);
      assert b[..n][..n - 1] == b[..n - 1];
      var front := Items(b[..n - 1]);
      forall x, y | x in front && y in b[n - 1]
        ensures x.key != y.key
      {
        ItemsIn(b[..n - 1], x);
      }
    }
  }

  // Inserting an entry with a fresh key places it and keeps the others.
  lemma InsertCorrect<K(!new), V(!new)>(hash: K -> nat, b: Chains<K, V>, e: Entry<K, V>)
    requires 0 < |b| && Placed(hash, b)
    requires forall i :: 0 <= i < |b| ==> DistinctKeys(b[i])
    requires forall x :: x in Items(b) ==> x.key != e.key
    ensures var r := Insert(hash, b, e);
            && Placed(hash, r)
            && (forall i :: 0 <= i < |r| ==> DistinctKeys(r[i]))
            && |Items(r)| == |Items(b)| + 1
            && forall x :: x in Items(r) <==> x in Items(b) || x == e
  {
    var r, i := Insert(hash, b, e), Slot<K, V>(hash, e.key, |b|);
    CountUpdate(b, i, r[i]);
    forall q | 0 <= q < |b[i]|
      ensures b[i][q].key != e.key
    {
      ItemsIn(b, b[i][q]);
    }
    forall x
      ensures x in Items(r) <==> x in Items(b) || x == e
    {
      ItemsIn(b, x);
      ItemsIn(r, x);
      if j :| 0 <= j < |b| && x in b[j] {
        assert x in r[j];
      }
      assert e in r[i];
    }
  }

  lemma LastIsFresh<K(!new), V(!new)>(es: seq<Entry<K, V>>, front: seq<Entry<K, V>>)
    requires es != [] && DistinctKeys(es)
    requires forall x :: x in front <==> x in es[..|es| - 1]
    ensures forall x :: x in front ==> x.key != es[|es| - 1].key
  {
  }

  // Redistribution keeps the entries, places each, and introduces no repeated key.
  lemma {:induction false} RedistributeCorrect<K(!new), V(!new)>(hash: K -> nat, es: seq<Entry<K, V>>, n: nat)
    requires 0 < n && DistinctKeys(es)
    ensures var b := Redistribute(hash, es, EmptyChains(n));
            && Placed(hash, b)
            && (forall i :: 0 <= i < n ==> DistinctKeys(b[i]))
            && |Items(b)| == |es|
            && forall e :: e in Items(b) <==> e in es
  {
    if es == [] {
      CountEmpty<K, V>(n);
      assert Redistribute(hash, es, EmptyChains(n)) == EmptyChains<K, V>(n);
    } else {
      var front, e := es[..|es| - 1], es[|es| - 1];
      assert es == front + [e];
      RedistributeCorrect(hash, front, n);
      var b := Redistribute(hash, front, EmptyChains(n));
      LastIsFresh(es, Items(b));
      InsertCorrect(hash, b, e);
    }
  }

  // A rehash changes neither the map nor the number of entries.
  lemma RehashCorrect<K(!new), V(!new)>(hash: K -> nat, t: Table<K, V>)
    requires WF(hash, t)
    ensures var r := Rehash(hash, t);
            && WF(hash, r)
            && Contents(hash, r) == Contents(hash, t)
            && Count(r) == Count(t)
            && |r.chains| == RehashSize(t)
            && r.frozen == t.frozen && r.untilGrows == t.untilGrows
            && r.resized == t.resized + if |r.chains| == |t.chains| then 0 else 1
  {
    var r := Rehash(hash, t);
    if RehashSize(t) != |t.chains| {
      assert t.chains[..|t.chains|] == t.chains;
      ItemsDistinct(hash, t.chains, |t.chains|);
      RedistributeCorrect(hash, Items(t.chains), RehashSize(t));
      forall k
        ensures Get(hash, r, k) == if k in Contents(hash, t) then Some(Contents(hash, t)[k]) else None
      {
        ContentsGet(hash, t, k);
        var g, g' := Get(hash, t, k), Get(hash, r, k);
        if g.Some? { GetFinds(hash, t, k, g.value); GetFinds(hash, r, k, g.value); }
        if g'.Some? { GetFinds(hash, t, k, g'.value); GetFinds(hash, r, k, g'.value); }
      }
      SameGets(hash, r, Contents(hash, t));
    }
  }

  // The number of entries is the size of the map.
  lemma CountIsSize<K(!new), V(!new)>(hash: K -> nat, t: Table<K, V>)
    requires WF(hash, t)
    ensures Count(t) == |Contents(hash, t)|
  {
    var es, m := Items(t.chains), Contents(hash, t);
    assert t.chains[..|t.chains|] == t.chains;
    ItemsDistinct(hash, t.chains, |t.chains|);
    KeySetSize(es);
    forall e | e in es
      ensures e.key in m
    {
      GetFinds(hash, t, e.key, e.data);
    }
    assert m.Keys == set e | e in es :: e.key;
  }

  lemma {:induction false} KeySetSize<K(!new), V(!new)>(es: seq<Entry<K, V>>)
    requires DistinctKeys(es)
    ensures |set e | e in es :: e.key| == |es|
  {
    if es == [] {
    } else {
      var front, last := es[..|es| - 1], es[|es| - 1];
      KeySetSize(front);
      assert es == front + [last];
      assert (set e | e in es :: e.key) == (set e | e in front :: e.key) + {last.key};
    }
  }
}
