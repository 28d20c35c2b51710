/** The chained hash table of cfuhash as a value: a sequence of chains.
    The heap table in HashTable.dfy is proved to compute these functions. */
module Buckets {
  import opened Options

  datatype Entry<K, V> = Entry(key: K, data: V)

  type Chains<K, V> = seq<seq<Entry<K, V>>>

  // `resized` counts the rehashes that changed the number of buckets. The two
  // flags are CFUHASH_FROZEN and CFUHASH_FROZEN_UNTIL_GROWS.
  datatype Table<K, V> = Table(chains: Chains<K, V>, resized: nat, frozen: bool, untilGrows: bool)

  // The smallest power of two that is at least s (1 for s == 0), found by doubling.
  function HashSize(s: nat): (r: nat)
    ensures IsPow2(r) && s <= r && (r == 1 || r < 2 * s)
  {
    DoubleFrom(1, s)
  }

  function DoubleFrom(i: nat, s: nat): (r: nat)
    requires IsPow2(i) && (i == 1 || i < 2 * s)
    ensures IsPow2(r) && s <= r && (r == 1 || r < 2 * s)
    decreases s - i
  {
    if i < s then DoubleFrom(2 * i, s) else i
  }

  predicate IsPow2(n: nat)
    ensures IsPow2(n) ==> 0 < n
  {
    n == 1 || (0 < n && n % 2 == 0 && IsPow2(n / 2))
  }

  lemma Pow2Double(i: nat)
    requires IsPow2(i)
    ensures IsPow2(2 * i)
  {
    assert 2 * i / 2 == i;
  }

  // Two powers of two within a factor of two of each other are equal.
  lemma {:induction false} Pow2Unique(m: nat, n: nat)
    requires IsPow2(m) && IsPow2(n) && m < 2 * n && n < 2 * m
    ensures m == n
    decreases m
  {
    if m == 1 || n == 1 {
    } else {
      Pow2Unique(m / 2, n / 2);
    }
  }

  // Bitwise and.
  function And(a: nat, b: nat): (r: nat)
    ensures r <= a && r <= b
  {
    if a == 0 || b == 0 then 0 else a % 2 * (b % 2) + 2 * And(a / 2, b / 2)
  }

  // hash_value: the hash masked by the number of buckets minus one.
  function Slot<K, V>(hash: K -> nat, k: K, n: nat): (i: nat)
    requires 0 < n
    ensures i < n
  {
    And(hash(k), n - 1)
  }

  lemma RemainderDoubles(q: nat, b: nat, m: nat)
    requires 0 < m && b < 2
    ensures (2 * q + b) % (2 * m) == 2 * (q % m) + b
  {
    var t, r := q / m, q % m;
    assert 2 * q + b == (2 * m) * t + (2 * r + b);
    RemainderIs(2 * q + b, 2 * m, t, 2 * r + b);
  }

  lemma RemainderIs(h: nat, n: nat, t: nat, r: nat)
    requires r < n && h == n * t + r
    ensures h % n == r
  {
    var d := h / n - t;
    assert n * d == r - h % n;
    assert d >= 1 ==> n * d >= n;
    assert d <= -1 ==> n * d + n <= 0;
  }

  // With a power-of-two number of buckets the mask is the remainder.
  lemma {:induction false} MaskIsRemainder(h: nat, n: nat)
    requires IsPow2(n)
    ensures And(h, n - 1) == h % n
  {
    if n == 1 {
    } else {
      var m := n / 2;
      MaskIsRemainder(h / 2, m);
      RemainderDoubles(h / 2, h % 2, m);
      assert (n - 1) / 2 == m - 1 && (n - 1) % 2 == 1;
    }
  }

  // All entries, bucket by bucket, each chain from its head.
  function Items<K, V>(b: Chains<K, V>): seq<Entry<K, V>> {
    if b == [] then [] else Items(b[..|b| - 1]) + b[|b| - 1]
  }

  function Count<K, V>(t: Table<K, V>): nat {
    |Items(t.chains)|
  }

  function EmptyChains<K, V>(n: nat): (b: Chains<K, V>)
    ensures |b| == n && forall i :: 0 <= i < n ==> b[i] == []
  {
    seq(n, i => [])
  }

  // Position of the first entry for k in a chain, or the chain's length.
  function Find<K(==), V>(c: seq<Entry<K, V>>, k: K): (j: nat)
    ensures j <= |c|
    ensures forall i :: 0 <= i < j ==> c[i].key != k
    ensures j < |c| ==> c[j].key == k
  {
    if c == [] || c[0].key == k then 0 else 1 + Find(c[1..], k)
  }

  function Lookup<K(==), V>(c: seq<Entry<K, V>>, k: K): Option<V> {
    var j := Find(c, k);
    if j < |c| then Some(c[j].data) else None
  }

  function Get<K(==), V>(hash: K -> nat, t: Table<K, V>, k: K): Option<V>
    requires 0 < |t.chains|
  {
    Lookup(t.chains[Slot<K, V>(hash, k, |t.chains|)], k)
  }

  // ----- The operations' locked sections and the load tests that follow them -----

  // Overwrite the entry for k, or add one at the head of the chain.
  function PutChain<K(==), V>(c: seq<Entry<K, V>>, k: K, v: V): seq<Entry<K, V>> {
    var j := Find(c, k);
    if j < |c| then c[j := Entry(k, v)] else [Entry(k, v)] + c
  }

  // Unlink the entry for k, if there is one.
  function CutChain<K(==), V>(c: seq<Entry<K, V>>, k: K): seq<Entry<K, V>> {
    var j := Find(c, k);
    if j < |c| then c[..j] + c[j + 1..] else c
  }

  function PutLocked<K(==), V>(hash: K -> nat, t: Table<K, V>, k: K, v: V): (r: (Table<K, V>, Option<V>))
    requires 0 < |t.chains|
    ensures |r.0.chains| == |t.chains|
  {
    var i := Slot<K, V>(hash, k, |t.chains|);
    (t.(chains := t.chains[i := PutChain(t.chains[i], k, v)]), Get(hash, t, k))
  }

  function DeleteLocked<K(==), V>(hash: K -> nat, t: Table<K, V>, k: K): (r: (Table<K, V>, Option<V>))
    requires 0 < |t.chains|
    ensures |r.0.chains| == |t.chains|
  {
    var i := Slot<K, V>(hash, k, |t.chains|);
    (t.(chains := t.chains[i := CutChain(t.chains[i], k)]), Get(hash, t, k))
  }

  function ClearLocked<K, V>(t: Table<K, V>): (r: Table<K, V>)
    ensures |r.chains| == |t.chains|
  {
    t.(chains := EmptyChains(|t.chains|))
  }

  // Link e in front of the chain it hashes to.
  function Insert<K, V>(hash: K -> nat, b: Chains<K, V>, e: Entry<K, V>): (r: Chains<K, V>)
    requires 0 < |b|
    ensures |r| == |b|
  {
    var i := Slot<K, V>(hash, e.key, |b|);
    b[i := [e] + b[i]]
  }

  function Redistribute<K, V>(hash: K -> nat, es: seq<Entry<K, V>>, b: Chains<K, V>): (r: Chains<K, V>)
    requires 0 < |b|
    ensures |r| == |b|
  {
    if es == [] then b else Insert(hash, Redistribute(hash, es[..|es| - 1], b), es[|es| - 1])
  }

  // With the default thresholds 1/4 and 3/4 the source's 2 * entries / (high + low) is 2 * entries.
  function RehashSize<K, V>(t: Table<K, V>): (n: nat)
    ensures 0 < n
  {
    HashSize(2 * Count(t))
  }

  function Rehash<K, V>(hash: K -> nat, t: Table<K, V>): (r: Table<K, V>)
    ensures 0 < |t.chains| ==> 0 < |r.chains|
  {
    var n := RehashSize(t);
    if n == |t.chains| then t
    else t.(chains := Redistribute(hash, Items(t.chains), EmptyChains(n)), resized := t.resized + 1)
  }

  predicate TooFull<K, V>(t: Table<K, V>) {
    !t.frozen && 4 * Count(t) > 3 * |t.chains|
  }

  predicate TooEmpty<K, V>(t: Table<K, V>) {
    !t.frozen && !(t.untilGrows && t.resized == 0) && 4 * Count(t) < |t.chains|
  }

  function PutData<K(==), V>(hash: K -> nat, t: Table<K, V>, k: K, v: V): (r: (Table<K, V>, Option<V>))
    requires 0 < |t.chains|
    ensures 0 < |r.0.chains|
  {
    var (t1, prev) := PutLocked(hash, t, k, v);
    (if prev.None? && TooFull(t1) then Rehash(hash, t1) else t1, prev)
  }

  function DeleteData<K(==), V>(hash: K -> nat, t: Table<K, V>, k: K): (r: (Table<K, V>, Option<V>))
    requires 0 < |t.chains|
    ensures 0 < |r.0.chains|
  {
    var (t1, prev) := DeleteLocked(hash, t, k);
    (if prev.Some? && TooEmpty(t1) then Rehash(hash, t1) else t1, prev)
  }

  function Clear<K, V>(hash: K -> nat, t: Table<K, V>): (r: Table<K, V>)
    requires 0 < |t.chains|
    ensures 0 < |r.chains|
  {
    var t1 := ClearLocked(t);
    if TooEmpty(t1) then Rehash(hash, t1) else t1
  }

  function New<K, V>(size: nat, frozen: bool): (t: Table<K, V>)
    ensures 0 < |t.chains|
  {
    Table(EmptyChains(HashSize(size)), 0, frozen, true)
  }

  // ----- Well-formedness and contents -----

  ghost predicate DistinctKeys<K, V>(c: seq<Entry<K, V>>) {
    forall i, j :: 0 <= i < j < |c| ==> c[i].key != c[j].key
  }

  ghost predicate Placed<K, V>(hash: K -> nat, b: Chains<K, V>) {
    forall i, e :: 0 <= i < |b| && e in b[i] ==> Slot<K, V>(hash, e.key, |b|) == i
  }

  // Every entry sits in the bucket its key hashes to, and no key occurs twice.
  ghost predicate WF<K, V>(hash: K -> nat, t: Table<K, V>) {
    && IsPow2(|t.chains|)
    && Placed(hash, t.chains)
    && forall i :: 0 <= i < |t.chains| ==> DistinctKeys(t.chains[i])
  }

  ghost function Contents<K, V>(hash: K -> nat, t: Table<K, V>): map<K, V>
    requires 0 < |t.chains|
  {
    map k | k in (set e | e in Items(t.chains) :: e.key) && Get(hash, t, k).Some? :: Get(hash, t, k).value
  }

  lemma {:induction false} ItemsIn<K, V>(b: Chains<K, V>, e: Entry<K, V>)
    ensures e in Items(b) <==> exists i :: 0 <= i < |b| && e in b[i]
  {
    if b == [] {
    } else {
      ItemsIn(b[..|b| - 1], e);
      assert b == b[..|b| - 1] + [b[|b| - 1]];
    }
  }

  lemma {:induction false} CountUpdate<K, V>(b: Chains<K, V>, i: nat, c: seq<Entry<K, V>>)
    requires i < |b|
    ensures |Items(b[i := c])| == |Items(b)| - |b[i]| + |c|
  {
    var n := |b| - 1;
    if i == n {
      assert b[i := c][..n] == b[..n];
    } else {
      CountUpdate(b[..n], i, c);
      assert b[i := c][..n] == b[..n][i := c];
    }
  }

  lemma {:induction false} CountEmpty<K, V>(n: nat)
    ensures Items(EmptyChains<K, V>(n)) == []
  {
    if n == 0 {
    } else {
      assert EmptyChains<K, V>(n)[..n - 1] == EmptyChains<K, V>(n - 1);
      CountEmpty<K, V>(n - 1);
    }
  }

  // Looking a key up succeeds exactly on the entries present.
  lemma GetFinds<K, V>(hash: K -> nat, t: Table<K, V>, k: K, v: V)
    requires WF(hash, t)
    ensures Get(hash, t, k) == Some(v) <==> Entry(k, v) in Items(t.chains)
  {
    ItemsIn(t.chains, Entry(k, v));
  }

  // Contents is exactly the lookup function.
  lemma ContentsGet<K, V>(hash: K -> nat, t: Table<K, V>, k: K)
    requires WF(hash, t)
    ensures Get(hash, t, k) == if k in Contents(hash, t) then Some(Contents(hash, t)[k]) else None
  {
    var g := Get(hash, t, k);
    if g.Some? {
      GetFinds(hash, t, k, g.value);
      assert Entry(k, g.value).key == k;
    }
  }
}
