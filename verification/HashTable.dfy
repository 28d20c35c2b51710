/** cfuhash's table on the heap: an array of linked chains, updated in place. */
module HashTables {
  import opened Options
  import opened Buckets
  import opened BucketsCorrect
  import HashRuns

  class Node<K, V> {
    const key: K
    var data: V
    var next: Node?<K, V>
    ghost var owner: object // the bucket array whose chain holds this node
    ghost var slot: nat     // the index of that chain

    constructor (key: K, data: V, next: Node?<K, V>, ghost owner: object, ghost slot: nat)
      ensures this.key == key && this.data == data && this.next == next
      ensures this.owner == owner && this.slot == slot
    {
      this.key, this.data, this.next, this.owner, this.slot := key, data, next, owner, slot;
    }
  }

  // The j-th node, or NULL after the last.
  ghost function NodeAt<K, V>(ns: seq<Node<K, V>>, j: nat): Node?<K, V> {
    if j < |ns| then ns[j] else null
  }

  // `head` starts the linked chain of the distinct nodes ns, which hold the entries c in bucket i of `own`.
  ghost predicate Chain<K(!new), V(!new)>(head: Node?<K, V>, ns: seq<Node<K, V>>, c: seq<Entry<K, V>>, own: object,
                                          i: nat)
    reads ns
  {
    && head == NodeAt(ns, 0)
    && |ns| == |c|
    && (forall j {:trigger ns[j].next} :: 0 <= j < |ns| ==> ns[j].next == NodeAt(ns, j + 1))
    && (forall j :: 0 <= j < |ns| ==> Entry(ns[j].key, ns[j].data) == c[j] && ns[j].owner == own && ns[j].slot == i)
  }

  // A linked chain that ends in NULL repeats no node.
  lemma {:induction false} NoRepeat<K(!new), V(!new)>(head: Node?<K, V>, ns: seq<Node<K, V>>, c: seq<Entry<K, V>>,
                                                      own: object, i: nat, j: nat, l: nat)
    requires Chain(head, ns, c, own, i) && j < l < |ns|
    ensures ns[j] != ns[l]
    decreases |ns| - l
  {
    assert ns[j].next == NodeAt(ns, j + 1) && ns[l].next == NodeAt(ns, l + 1);
    if l + 1 == |ns| {
    } else {
      NoRepeat(head, ns, c, own, i, j + 1, l + 1);
    }
  }

  lemma Distinct<K(!new), V(!new)>(head: Node?<K, V>, ns: seq<Node<K, V>>, c: seq<Entry<K, V>>, own: object, i: nat)
    requires Chain(head, ns, c, own, i)
    ensures forall j, l :: 0 <= j < l < |ns| ==> ns[j] != ns[l]
  {
    forall j, l | 0 <= j < l < |ns|
      ensures ns[j] != ns[l]
    {
      NoRepeat(head, ns, c, own, i, j, l);
    }
  }

  lemma ChainCons<K(!new), V(!new)>(he: Node<K, V>, head: Node?<K, V>, ns: seq<Node<K, V>>, c: seq<Entry<K, V>>,
                                    own: object, i: nat)
    requires Chain(head, ns, c, own, i)
    requires he !in ns && he.next == head && he.owner == own && he.slot == i
    ensures Chain(he, [he] + ns, [Entry(he.key, he.data)] + c, own, i)
  {
  }

  // The bucket array bs and the nodes cs, all in R, hold the chains b.
  ghost predicate Built<K(!new), V(!new)>(bs: array<Node?<K, V>>, cs: seq<seq<Node<K, V>>>, b: Chains<K, V>,
                                          R: set<object>)
    reads bs, R
  {
    && bs.Length == |cs| == |b|
    && (forall i, j :: 0 <= i < |cs| && 0 <= j < |cs[i]| ==> cs[i][j] in R)
    && (forall i :: 0 <= i < |cs| ==> Chain(bs[i], cs[i], b[i], bs, i))
  }

  // Linking past the j-th node of the chain of bucket i, from the node before it or from the bucket, removes it.
  method CutChainAt<K(!new), V(!new)>(bs: array<Node?<K, V>>, i: nat, prev: Node?<K, V>, he: Node<K, V>,
                          ghost ns: seq<Node<K, V>>, ghost c: seq<Entry<K, V>>, ghost j: nat)
    requires i < bs.Length && Chain(bs[i], ns, c, bs, i) && j < |ns| && he == ns[j]
    requires prev == if j == 0 then null else ns[j - 1]
    modifies bs, prev
    ensures Chain(bs[i], ns[..j] + ns[j + 1..], c[..j] + c[j + 1..], bs, i)
    ensures forall x :: 0 <= x < bs.Length && x != i ==> bs[x] == old(bs[x])
  {
    Distinct(bs[i], ns, c, bs, i);
    if prev != null {
      prev.next := he.next;
    } else {
      bs[i] := he.next;
    }
    ghost var r := ns[..j] + ns[j + 1..];
    assert forall l {:trigger NodeAt(r, l)} :: 0 <= l <= |r| ==> NodeAt(r, l) == NodeAt(ns, if l < j then l else l + 1);
  }

  method Cut<K(!new), V(!new)>(bs: array<Node?<K, V>>, i: nat, prev: Node?<K, V>, he: Node<K, V>,
                   ghost cs: seq<seq<Node<K, V>>>, ghost b: Chains<K, V>, ghost R: set<object>, ghost j: nat)
    requires Built(bs, cs, b, R) && bs !in R && i < bs.Length && j < |cs[i]| && he == cs[i][j]
    requires prev == if j == 0 then null else cs[i][j - 1]
    modifies bs, prev
    ensures Built(bs, cs[i := cs[i][..j] + cs[i][j + 1..]], b[i := b[i][..j] + b[i][j + 1..]], R)
  {
    assert forall x :: 0 <= x < bs.Length && x != i ==> prev !in cs[x];
    CutChainAt(bs, i, prev, he, cs[i], b[i], j);
    forall x | 0 <= x < bs.Length && x != i
      ensures Chain(bs[x], cs[x], b[x], bs, x)
    {
      assert old(Chain(bs[x], cs[x], b[x], bs, x));
    }
  }

  // One iteration of the rehash loop: he moves in front of bucket hv of bs.
  method Relink<K(!new), V(!new)>(he: Node<K, V>, bs: array<Node?<K, V>>, hv: nat,
                      ghost cs: seq<seq<Node<K, V>>>, ghost b: Chains<K, V>, ghost R: set<object>)
    returns (ghost cs': seq<seq<Node<K, V>>>)
    requires Built(bs, cs, b, R) && hv < bs.Length && he in R && he.owner != bs
    modifies he, bs
    ensures he.owner == bs && he.data == old(he.data)
    ensures Built(bs, cs', b[hv := [Entry(he.key, he.data)] + b[hv]], R)
    ensures cs' == cs[hv := [he] + cs[hv]]
  {
    he.next := bs[hv];
    bs[hv] := he;
    he.owner, he.slot := bs, hv;
    cs' := cs[hv := [he] + cs[hv]];
    ghost var b' := b[hv := [Entry(he.key, he.data)] + b[hv]];
    forall x | 0 <= x < bs.Length
      ensures Chain(bs[x], cs'[x], b'[x], bs, x)
    {
      assert old(Chain(bs[x], cs[x], b[x], bs, x));
      assert he !in cs[x];
      if x == hv {
        ChainCons(he, old(bs[hv]), cs[hv], b[hv], bs, hv);
      }
    }
  }

  // The tail of a chain is a chain without the head.
  lemma TailChain<K(!new), V(!new)>(he: Node<K, V>, ns: seq<Node<K, V>>, c: seq<Entry<K, V>>, own: object, i: nat)
    requires Chain(he, ns, c, own, i)
    ensures ns != [] && c != [] && he == ns[0] && Entry(he.key, he.data) == c[0] && he.owner == own
    ensures he !in ns[1..] && Chain(he.next, ns[1..], c[1..], own, i)
  {
    Distinct(he, ns, c, own, i);
    var tail := ns[1..];
    assert ns[0].next == NodeAt(ns, 1);
    assert forall j {:trigger tail[j]} :: 0 <= j < |tail| ==>
             tail[j] == ns[j + 1] && tail[j].next == NodeAt(tail, j + 1);
  }

  // One turn of the inner rehash loop: the first node of a chain moves to the bucket of bs its key hashes to.
  method MoveHead<K(!new), V(!new)>(hash: K -> nat, he: Node<K, V>, bs: array<Node?<K, V>>,
                                    ghost ns: seq<Node<K, V>>, ghost c: seq<Entry<K, V>>,
                                    ghost own: object, ghost i: nat, ghost cs: seq<seq<Node<K, V>>>,
                                    ghost b: Chains<K, V>, ghost R: set<object>)
    returns (nhe: Node?<K, V>, ghost cs': seq<seq<Node<K, V>>>)
    requires Chain(he, ns, c, own, i) && own != bs && 0 < bs.Length && Built(bs, cs, b, R) && he in R
    modifies bs, he
    ensures ns != [] && c != [] && Chain(nhe, ns[1..], c[1..], own, i)
    ensures Built(bs, cs', Insert(hash, b, c[0]), R)
  {
    hide Chain, Built;
    TailChain(he, ns, c, own, i);
    BuiltSize(bs, cs, b, R);
    nhe := he.next;
    var hv := Slot<K, V>(hash, he.key, bs.Length);
    cs' := Relink(he, bs, hv, cs, b, R);
  }

  lemma BuiltSize<K(!new), V(!new)>(bs: array<Node?<K, V>>, cs: seq<seq<Node<K, V>>>, b: Chains<K, V>, R: set<object>)
    requires Built(bs, cs, b, R)
    ensures bs.Length == |cs| == |b|
  {
  }

  // The inner rehash loop: every node of one old chain moves to the bucket of bs its key hashes to.
  method MoveChain<K(!new), V(!new)>(hash: K -> nat, head: Node?<K, V>, bs: array<Node?<K, V>>,
                                     ghost ns: seq<Node<K, V>>, ghost c: seq<Entry<K, V>>,
                                     ghost own: object, ghost i: nat, ghost cs: seq<seq<Node<K, V>>>,
                                     ghost b: Chains<K, V>, ghost R: set<object>)
    returns (ghost cs': seq<seq<Node<K, V>>>, ghost b': Chains<K, V>, ghost moved: nat)
    requires Chain(head, ns, c, own, i) && own != bs && 0 < bs.Length
    requires Built(bs, cs, b, R) && forall j :: 0 <= j < |ns| ==> ns[j] in R
    modifies bs, ns
    ensures Built(bs, cs', b', R) && b' == Redistribute(hash, c, b) && moved == |c|
  {
    hide Chain, Built;
    BuiltSize(bs, cs, b, R);
    cs', b', moved := cs, b, 0;
    var he := head;
    ghost var rest, todo := ns, c;
    while he != null
      invariant Chain(he, rest, todo, own, i) && forall x :: x in rest ==> x in ns
      invariant Built(bs, cs', b', R) && |b| == |b'| == bs.Length
      invariant Redistribute(hash, c, b) == Redistribute(hash, todo, b') && moved + |todo| == |c|
      decreases |todo|
    {
      TailChain(he, rest, todo, own, i);
      assert he in rest && he in ns;
      RedistributeHead(hash, todo, b');
      he, cs' := MoveHead(hash, he, bs, rest, todo, own, i, cs', b', R);
      b', rest, todo, moved := Insert(hash, b', todo[0]), rest[1..], todo[1..], moved + 1;
    }
    EmptyChain(rest, todo, own, i);
  }

  lemma EmptyChain<K(!new), V(!new)>(ns: seq<Node<K, V>>, c: seq<Entry<K, V>>, own: object, i: nat)
    requires Chain(null, ns, c, own, i)
    ensures c == []
  {
  }

  lemma CutChainIs<K(!new), V(!new)>(c: seq<Entry<K, V>>, k: K, j: nat)
    requires j == Find(c, k)
    ensures CutChain(c, k) == if j < |c| then c[..j] + c[j + 1..] else c
  {
  }

  class HashTable<K(==, !new), V(!new)> {
    const hash: K -> nat
    const frozen: bool
    const untilGrows: bool
    var numBuckets: nat
    var entries: nat
    var buckets: array<Node?<K, V>>
    var resized: nat
    var eachBucketIndex: int            // -1 before the first bucket
    var eachChainEntry: Node?<K, V>     // the entry last returned

    ghost var table: Table<K, V>             // abstract value
    ghost var chains: seq<seq<Node<K, V>>>   // the nodes of each chain
    ghost var Nodes: set<object>
    ghost var visited: nat                   // entries returned since cfuhash_each_data

    ghost function Repr(): set<object>
      reads `buckets, `Nodes
    {
      {this, buckets} + Nodes
    }

    // The heap holds `table`.
    ghost predicate Shape()
      reads `numBuckets, `entries, `buckets, `resized, `table, `chains, `Nodes, buckets, Nodes
    {
      && this !in Nodes && buckets !in Nodes
      && numBuckets == buckets.Length
      && Built(buckets, chains, table.chains, Nodes)
      && table.resized == resized && table.frozen == frozen && table.untilGrows == untilGrows
    }

    ghost predicate Valid()
      reads `numBuckets, `entries, `buckets, `resized, `table, `chains, `Nodes, buckets, Nodes
    {
      Shape() && WF(hash, table) && entries == Count(table)
    }

    ghost function Map(): map<K, V>
      reads `numBuckets, `entries, `buckets, `resized, `table, `chains, `Nodes, buckets, Nodes
      requires Valid()
    {
      Contents(hash, table)
    }

    constructor (hash: K -> nat, size: nat, frozen: bool)
      ensures Valid() && fresh(Repr())
      ensures this.hash == hash && table == New<K, V>(size, frozen) && Map() == map[]
      ensures this.frozen == frozen && untilGrows && resized == 0
    {
      this.hash, this.frozen, this.untilGrows := hash, frozen, true;
      entries, resized := 0, 0;
      var n := PowerOfTwo(size);
      var bs := new Node?<K, V>[n](_ => null);
      numBuckets, buckets := n, bs;
      table := New<K, V>(size, frozen);
      chains := seq(n, _ => []);
      Nodes := {};
      new;
      NewCorrect<K, V>(hash, size, frozen);
    }

    // The first node for k in its bucket's chain and the node before it.
    method Search(k: K) returns (i: nat, prev: Node?<K, V>, he: Node?<K, V>, ghost j: nat)
      requires Valid()
      ensures i == Slot<K, V>(hash, k, numBuckets) < numBuckets
      ensures j == Find(table.chains[i], k)
      ensures he == NodeAt(chains[i], j)
      ensures prev == if j == 0 then null else chains[i][j - 1]
      ensures |chains[i]| == |table.chains[i]|
      ensures he != null ==> Entry(he.key, he.data) == table.chains[i][j] && he.key == k
    {
      i := Slot<K, V>(hash, k, numBuckets);
      prev, he, j := null, buckets[i], 0;
      ghost var c := table.chains[i];
      while he != null && he.key != k
        invariant j <= |c|
        invariant he == NodeAt(chains[i], j)
        invariant prev == if j == 0 then null else chains[i][j - 1]
        invariant forall l :: 0 <= l < j ==> c[l].key != k
        decreases |c| - j
      {
        prev, he, j := he, he.next, j + 1;
      }
    }

    // What Valid() says about the abstract value.
    lemma Represented()
      requires Valid()
      ensures WF(hash, table) && 0 < |table.chains| == numBuckets && Map() == Contents(hash, table)
      ensures entries == Count(table) == |Map()| && table.resized == resized
      ensures this !in Nodes && buckets !in Nodes
    {
      CountIsSize(hash, table);
    }

    method GetData(k: K) returns (r: Option<V>)
      requires Valid()
      ensures r == Get(hash, table, k)
      ensures r == HashRuns.At(Map(), k)
    {
      var _, _, he, _ := Search(k);
      ContentsGet(hash, table, k);
      r := if he != null then Some(he.data) else None;
    }

    // hash_add_entry: a new node in front of bucket i.
    method AddEntry(i: nat, k: K, v: V)
      requires Shape() && i < numBuckets
      modifies this, buckets
      ensures Shape() && fresh(Repr() - old(Repr())) && buckets == old(buckets)
      ensures table == old(table).(chains := old(table).chains[i := [Entry(k, v)] + old(table).chains[i]])
      ensures entries == old(entries) + 1
    {
      var he := new Node(k, v, buckets[i], buckets, i);
      buckets[i] := he;
      entries := entries + 1;
      table := table.(chains := table.chains[i := [Entry(k, v)] + table.chains[i]]);
      chains := chains[i := [he] + chains[i]];
      Nodes := Nodes + {he};
      forall x | 0 <= x < numBuckets
        ensures Chain(buckets[x], chains[x], table.chains[x], buckets, x)
      {
        assert old(Chain(buckets[x], chains[x], table.chains[x], buckets, x));
        if x == i {
          ChainCons(he, old(buckets[i]), old(chains[i]), old(table.chains[i]), buckets, i);
        }
      }
    }

    // The data of the j-th node of bucket i replaced in place.
    method Overwrite(i: nat, ghost j: nat, he: Node<K, V>, v: V)
      requires Shape() && i < numBuckets && j < |chains[i]| && he == chains[i][j]
      modifies this, he
      ensures Shape() && Repr() == old(Repr())
      ensures table == old(table).(chains :=
                old(table).chains[i := old(table).chains[i][j := Entry(he.key, v)]])
      ensures entries == old(entries)
    {
      Distinct(buckets[i], chains[i], table.chains[i], buckets, i);
      he.data := v;
      table := table.(chains := table.chains[i := table.chains[i][j := Entry(he.key, v)]]);
      forall x | 0 <= x < numBuckets
        ensures Chain(buckets[x], chains[x], table.chains[x], buckets, x)
      {
        assert old(Chain(buckets[x], chains[x], table.chains[x], buckets, x));
      }
    }

    // The j-th node of bucket i unlinked, either from the node before it or from the bucket.
    method Unlink(i: nat, ghost j: nat, prev: Node?<K, V>, he: Node<K, V>)
      requires Shape() && i < numBuckets && j < |chains[i]| && he == chains[i][j] && 0 < entries
      requires prev == if j == 0 then null else chains[i][j - 1]
      modifies this, buckets, prev
      ensures Shape() && Repr() == old(Repr())
      ensures table == old(table).(chains :=
                old(table).chains[i := old(table).chains[i][..j] + old(table).chains[i][j + 1..]])
      ensures entries == old(entries) - 1
    {
      Cut(buckets, i, prev, he, chains, table.chains, Nodes, j);
      entries := entries - 1;
      table := table.(chains := table.chains[i := table.chains[i][..j] + table.chains[i][j + 1..]]);
      chains := chains[i := chains[i][..j] + chains[i][j + 1..]];
    }

    // The section of cfuhash_put_data that holds the lock.
    method PutSection(k: K, v: V) returns (prev: Option<V>)
      requires Valid()
      modifies Repr()
      ensures Valid() && fresh(Repr() - old(Repr()))
      ensures (table, prev) == PutLocked(hash, old(table), k, v)
    {
      hide Chain, WF, Contents, Count;
      var i, _, he, j := Search(k);
      if he != null {
        prev := Some(he.data);
        Overwrite(i, j, he, v);
      } else {
        prev := None;
        AddEntry(i, k, v);
      }
      PutLockedCorrect(hash, old(table), k, v);
    }

    // The section of cfuhash_delete_data that holds the lock.
    method DeleteSection(k: K) returns (r: Option<V>)
      requires Valid()
      modifies Repr()
      ensures Valid() && Repr() == old(Repr())
      ensures (table, r) == DeleteLocked(hash, old(table), k)
    {
      hide Chain, WF, Contents, Count, CutChain;
      var i, prev, he, j := Search(k);
      DeleteLockedCorrect(hash, table, k);
      CutChainIs(table.chains[i], k, j);
      if he == null {
        r := None;
        assert table.chains[i := table.chains[i]] == table.chains;
      } else {
        r := Some(he.data);
        Unlink(i, j, prev, he);
      }
    }

    // The nodes moved to n new buckets.
    method Resize(n: nat) returns (ghost moved: nat)
      requires Shape() && 0 < n
      modifies this, Nodes
      ensures Shape() && fresh(Repr() - old(Repr()))
      ensures table == old(table).(
                chains := Redistribute(hash, Items(old(table).chains), EmptyChains(n)),
                    resized := old(table).resized + 1)
      ensures entries == old(entries) && resized == old(resized) + 1 && moved == Count(old(table))
    {
      hide Built, Items, Redistribute;
      var bs := new Node?<K, V>[n](_ => null);
      ghost var cs, b;
      cs, b, moved := MoveAll(hash, buckets, bs, chains, table.chains, Nodes);
      numBuckets, buckets := n, bs;
      resized := resized + 1;
      table, chains := table.(chains := b, resized := resized), cs;
    }

    // cfuhash_rehash: size the bucket array for twice the entries.
    method Rehash() returns (changed: bool, ghost moved: nat)
      requires Valid()
      modifies Repr()
      ensures Valid() && fresh(Repr() - old(Repr()))
      ensures table == Buckets.Rehash(hash, old(table)) && changed == (resized != old(resized))
      ensures moved == HashRuns.Relinked(old(table))
    {
      hide HashTable.Shape, WF, Items, Redistribute, Contents, IsPow2, DoubleFrom;
      Represented();
      var newSize := PowerOfTwo(2 * entries);
      if newSize == numBuckets {
        return false, 0;
      }
      moved := Resize(newSize);
      RehashCorrect(hash, old(table));
      changed := true;
    }

    // The load test after an added entry, and the rehash it calls for.
    method GrowIfFull() returns (ghost moved: nat)
      requires Valid()
      modifies Repr()
      ensures Valid() && fresh(Repr() - old(Repr()))
      ensures table == if TooFull(old(table)) then Buckets.Rehash(hash, old(table)) else old(table)
      ensures moved == if TooFull(old(table)) then HashRuns.Relinked(old(table)) else 0
    {
      moved := 0;
      if !frozen && 4 * entries > 3 * numBuckets {
        var changed;
        changed, moved := Rehash();
      }
    }

    // The load test after a deletion, and the rehash it calls for.
    method ShrinkIfEmpty() returns (ghost moved: nat)
      requires Valid()
      modifies Repr()
      ensures Valid() && fresh(Repr() - old(Repr()))
      ensures table == if TooEmpty(old(table)) then Buckets.Rehash(hash, old(table)) else old(table)
      ensures moved == if TooEmpty(old(table)) then HashRuns.Relinked(old(table)) else 0
    {
      moved := 0;
      if !frozen && !(untilGrows && resized == 0) && 4 * entries < numBuckets {
        var changed;
        changed, moved := Rehash();
      }
    }

    // cfuhash_put_data: the locked section, then the load test outside the lock.
    method PutData(k: K, v: V) returns (prev: Option<V>, ghost moved: nat)
      requires Valid()
      modifies Repr()
      ensures Valid() && fresh(Repr() - old(Repr()))
      ensures (table, prev) == Buckets.PutData(hash, old(table), k, v)
      ensures moved == HashRuns.StepCost(hash, old(table), HashRuns.Put(k, v))
    {
      hide HashTable.Valid, WF, Items;
      moved := 0;
      prev := PutSection(k, v);
      if prev.None? {
        moved := GrowIfFull();
      }
    }

    // cfuhash_delete_data
    method DeleteData(k: K) returns (r: Option<V>, ghost moved: nat)
      requires Valid()
      modifies Repr()
      ensures Valid() && fresh(Repr() - old(Repr()))
      ensures (table, r) == Buckets.DeleteData(hash, old(table), k)
      ensures moved == HashRuns.StepCost(hash, old(table), HashRuns.Delete(k))
    {
      hide HashTable.Valid, WF, Items;
      moved := 0;
      r := DeleteSection(k);
      if r.Some? {
        moved := ShrinkIfEmpty();
      }
    }

    // The section of cfuhash_clear that holds the lock.
    method ClearSection()
      requires Shape()
      modifies this, buckets
      ensures Shape() && Repr() == old(Repr()) && buckets == old(buckets)
      ensures table == ClearLocked(old(table)) && entries == 0
    {
      var i := 0;
      while i < numBuckets
        invariant i <= numBuckets == buckets.Length
        invariant forall x :: 0 <= x < i ==> buckets[x] == null
        modifies buckets
      {
        buckets[i] := null;
        i := i + 1;
      }
      entries := 0;
      table := ClearLocked(table);
      chains := seq(numBuckets, _ => []);
    }

    method Clear() returns (ghost moved: nat)
      requires Valid()
      modifies Repr()
      ensures Valid() && fresh(Repr() - old(Repr()))
      ensures table == Buckets.Clear(hash, old(table)) && Map() == map[]
      ensures moved == HashRuns.StepCost(hash, old(table), HashRuns.Op<K, V>.Clear)
    {
      ClearLockedCorrect(hash, table);
      ClearSection();
      moved := ShrinkIfEmpty();
      HashRuns.StepContents(hash, old(table), HashRuns.Op<K, V>.Clear);
    }

    // cfuhash_put: the old data, if the key was there.
    method Put(k: K, v: V) returns (prev: Option<V>)
      requires Valid()
      modifies Repr()
      ensures Valid() && fresh(Repr() - old(Repr()))
      ensures Map() == old(Map())[k := v] && prev == HashRuns.At(old(Map()), k)
      ensures table == HashRuns.TableStep(hash, old(table), HashRuns.Put(k, v)).0
    {
      hide HashTable.Valid, Items, WF;
      Represented();
      ghost var moved;
      prev, moved := PutData(k, v);
      HashRuns.StepContents(hash, old(table), HashRuns.Put(k, v));
    }

    // cfuhash_delete: the data removed, if the key was there.
    method Delete(k: K) returns (r: Option<V>)
      requires Valid()
      modifies Repr()
      ensures Valid() && fresh(Repr() - old(Repr()))
      ensures Map() == old(Map()) - {k} && r == HashRuns.At(old(Map()), k)
      ensures table == HashRuns.TableStep(hash, old(table), HashRuns.Op<K, V>.Delete(k)).0
    {
      hide HashTable.Valid, Items, WF;
      Represented();
      ghost var moved;
      r, moved := DeleteData(k);
      HashRuns.StepContents(hash, old(table), HashRuns.Op<K, V>.Delete(k));
    }

    // cfuhash_keys_data: the keys bucket by bucket, each chain from its head.
    method KeysData() returns (keys: seq<K>)
      requires Valid()
      ensures KeysOf(keys, Items(table.chains)) && |keys| == Count(table)
    {
      hide WF;
      keys := [];
      var bucket := 0;
      while bucket < numBuckets
        invariant bucket <= numBuckets
        invariant KeysOf(keys, Items(table.chains[..bucket]))
      {
        ghost var front, c := Items(table.chains[..bucket]), table.chains[bucket];
        ItemsSnoc(table.chains, bucket);
        ItemsPrefix(table.chains, bucket + 1);
        var he := buckets[bucket];
        ghost var j := 0;
        while he != null
          invariant j <= |c| && he == NodeAt(chains[bucket], j)
          invariant KeysOf(keys, front + c[..j])
          decreases |c| - j
        {
          if |keys| >= entries {
            assert false; // "this should never happen"
            break;
          }
          assert front + c[..j + 1] == front + c[..j] + [c[j]];
          keys, he, j := keys + [he.key], he.next, j + 1;
        }
        assert c[..j] == c;
        bucket := bucket + 1;
      }
      assert table.chains[..bucket] == table.chains;
    }

    // Standing on node he of bucket i, v entries have been passed.
    ghost predicate Stands(i: int, he: Node?<K, V>, v: nat)
      reads `numBuckets, `entries, `buckets, `resized, `table, `chains, `Nodes, buckets, Nodes
      requires Valid()
    {
      if he != null then
        0 <= i < numBuckets &&
        exists j :: 0 <= j < |chains[i]| && he == chains[i][j] && v == |Items(table.chains[..i])| + j + 1
      else
        (i == -1 && v == 0) || (i >= numBuckets && v == Count(table))
    }

    // The iterator fields stand right after the first `visited` entries of the table.
    ghost predicate Cursor()
      reads `eachBucketIndex, `eachChainEntry, `visited
      reads `numBuckets, `entries, `buckets, `resized, `table, `chains, `Nodes, buckets, Nodes
      requires Valid()
    {
      Stands(eachBucketIndex, eachChainEntry, visited)
    }

    // The scan for the next non-empty bucket, from bucket i0 on.
    method FirstFrom(i0: nat) returns (i: nat, he: Node?<K, V>)
      requires Valid()
      ensures i0 <= i && (he == null <==> i >= numBuckets)
      ensures he != null ==> i < numBuckets && 0 < |chains[i]| && he == chains[i][0]
      ensures he != null ==> |Items(table.chains[..i])| == |Items(table.chains[..i0])|
      ensures he == null && i0 <= numBuckets ==> |Items(table.chains[..i0])| == Count(table)
    {
      hide WF, Contents;
      i, he := i0, null;
      while i < numBuckets
        invariant i0 <= i && he == null && (i0 <= numBuckets ==> i <= numBuckets)
        invariant i0 <= numBuckets ==> |Items(table.chains[..i])| == |Items(table.chains[..i0])|
      {
        ItemsSnoc(table.chains, i);
        if buckets[i] != null {
          he := buckets[i];
          return;
        }
        i := i + 1;
      }
      assert table.chains[..numBuckets] == table.chains;
    }

    lemma StandsOn(i: nat, j: nat)
      requires Valid() && i < numBuckets && j < |chains[i]|
      ensures var he, v := chains[i][j], |Items(table.chains[..i])| + j;
              Stands(i, he, v + 1) && v < Count(table) && Entry(he.key, he.data) == Items(table.chains)[v]
    {
      assert Chain(buckets[i], chains[i], table.chains[i], buckets, i);
      ItemsPosition(table.chains, i, j);
    }

    lemma StandsAtEnd(i: nat)
      requires Valid() && i >= numBuckets
      ensures Stands(i, null, Count(table))
    {
    }

    // Where a standing node's successor in its chain is.
    lemma Successor(i: int, he: Node<K, V>, v: nat) returns (j: nat)
      requires Valid() && Stands(i, he, v)
      ensures 0 <= i < numBuckets && j <= |chains[i]| && he.next == NodeAt(chains[i], j)
      ensures v == |Items(table.chains[..i])| + j
    {
      var l :| 0 <= l < |chains[i]| && he == chains[i][l] && v == |Items(table.chains[..i])| + l + 1;
      assert Chain(buckets[i], chains[i], table.chains[i], buckets, i);
      j := l + 1;
    }

    // With no successor in the chain, the entries passed are those of the buckets up to i.
    lemma ChainDone(i: int, he: Node?<K, V>, v: nat)
      requires Valid() && Stands(i, he, v) && (he != null ==> he.next == null)
      ensures -1 <= i && v == if i + 1 <= numBuckets then |Items(table.chains[..i + 1])| else Count(table)
    {
      if he != null {
        var j := Successor(i, he, v);
        ItemsSnoc(table.chains, i);
      }
    }

    // The step of cfuhash_next_data from node he of bucket i.
    method Advance(i: int, he: Node?<K, V>, ghost v: nat) returns (i': int, he': Node?<K, V>)
      requires Valid() && Stands(i, he, v)
      ensures he' != null <==> v < Count(table)
      ensures he' != null ==> Entry(he'.key, he'.data) == Items(table.chains)[v]
      ensures Stands(i', he', if he' != null then v + 1 else v)
    {
      hide HashTable.Valid, HashTable.Stands, Items, WF, HashTable.Map, Contents, Get;
      Represented();
      if he != null && he.next != null {
        ghost var j := Successor(i, he, v);
        StandsOn(i, j);
        i', he' := i, he.next;
      } else {
        ChainDone(i, he, v);
        i', he' := FirstFrom(i + 1);
        if he' != null {
          StandsOn(i', 0);
        } else {
          StandsAtEnd(i');
        }
      }
    }

    // cfuhash_next_data: the entry after the one last returned, or nothing at the end.
    method NextData() returns (r: Option<Entry<K, V>>)
      requires Valid() && Cursor()
      modifies this`eachBucketIndex, this`eachChainEntry, this`visited
      ensures Valid() && Cursor()
      ensures r == if old(visited) < Count(table) then Some(Items(table.chains)[old(visited)]) else None
      ensures visited == if r.Some? then old(visited) + 1 else old(visited)
    {
      hide HashTable.Valid, HashTable.Stands, Items, WF, HashTable.Map, Contents, Get;
      Represented();
      var i, he := Advance(eachBucketIndex, eachChainEntry, visited);
      eachBucketIndex, eachChainEntry := i, he;
      if he != null {
        r := Some(Entry(he.key, he.data));
        visited := visited + 1;
      } else {
        r := None;
      }
    }

    // cfuhash_each_data: restart, then return the first entry.
    method EachData() returns (r: Option<Entry<K, V>>)
      requires Valid()
      modifies this`eachBucketIndex, this`eachChainEntry, this`visited
      ensures Valid() && Cursor()
      ensures r == if 0 < Count(table) then Some(Items(table.chains)[0]) else None
      ensures visited == if r.Some? then 1 else 0
    {
      hide HashTable.Valid, Items;
      Represented();
      eachBucketIndex, eachChainEntry, visited := -1, null, 0;
      r := NextData();
    }
  }

  // Each, then next until it returns nothing: every entry once, in the order of cfuhash_keys_data.
  method Traverse<K(!new), V(!new)>(ht: HashTable<K, V>) returns (es: seq<Entry<K, V>>)
    requires ht.Valid()
    modifies ht`eachBucketIndex, ht`eachChainEntry, ht`visited
    ensures ht.Valid() && es == Items(ht.table.chains) && DistinctKeys(es)
    ensures forall i :: 0 <= i < |es| ==> es[i].key in ht.Map() && ht.Map()[es[i].key] == es[i].data
    ensures forall k :: k in ht.Map() ==> exists i :: 0 <= i < |es| && es[i].key == k
  {
    hide HashTable.Valid, HashTable.Cursor, HashTable.Map, WF, Contents, Get;
    var r := ht.EachData();
    es := [];
    while r.Some?
      invariant ht.Valid() && ht.Cursor()
      invariant |es| <= Count(ht.table) && es == Items(ht.table.chains)[..|es|]
      invariant r == if |es| < Count(ht.table) then Some(Items(ht.table.chains)[|es|]) else None
      invariant ht.visited == |es| + if r.Some? then 1 else 0
      decreases Count(ht.table) - |es|
    {
      es := es + [r.value];
      r := ht.NextData();
    }
    ht.Represented();
    ItemsAreMap(ht.hash, ht.table, es, ht.Map());
  }

  // One turn of the copy loop.
  method CopyEntry<K(!new), V(!new)>(src: HashTable<K, V>, dst: HashTable<K, V>, k: K)
    requires src.Valid() && dst.Valid() && (src == dst || src.Repr() !! dst.Repr()) && k in src.Map()
    modifies dst.Repr()
    ensures src.Valid() && dst.Valid() && fresh(dst.Repr() - old(dst.Repr()))
    ensures dst.Map() == old(dst.Map())[k := old(src.Map())[k]] && src.Map() == old(src.Map())
    ensures src != dst ==> src.table == old(src.table) && src.Repr() == old(src.Repr())
  {
    hide HashTable.Valid, HashTable.Map, HashRuns.TableStep;
    var val := src.GetData(k);
    if val.Some? {
      var prev := dst.Put(k, val.value);
    }
    assert src == dst ==> src.Map() == old(src.Map());
  }

  // cfuhash_copy: dst overridden by src. The two may be the same table.
  method Copy<K(!new), V(!new)>(src: HashTable<K, V>, dst: HashTable<K, V>)
    requires src.Valid() && dst.Valid() && (src == dst || src.Repr() !! dst.Repr())
    modifies dst.Repr()
    ensures src.Valid() && dst.Valid() && fresh(dst.Repr() - old(dst.Repr()))
    ensures dst.Map() == old(dst.Map()) + old(src.Map()) && src.Map() == old(src.Map())
    ensures src != dst ==> src.table == old(src.table)
  {
    hide HashTable.Valid, HashTable.Map, Items, WF, KeysOf, Contents, Get;
    var keys := src.KeysData();
    ghost var m := src.Map();
    KeysAreDomain(src, keys, m);
    ghost var done: map<K, V> := map[];
    var i := 0;
    while i < |keys|
      invariant i <= |keys|
      invariant src.Valid() && dst.Valid() && fresh(dst.Repr() - old(dst.Repr()))
      invariant src != dst ==> src.Repr() !! dst.Repr() && src.table == old(src.table)
      invariant src.Map() == m
      invariant forall k :: k in done <==> k in keys[..i]
      invariant forall k :: k in done ==> done[k] == m[k]
      invariant dst.Map() == old(dst.Map()) + done
    {
      CopyEntry(src, dst, keys[i]);
      done := done[keys[i] := m[keys[i]]];
      i := i + 1;
    }
    assert done == m by {
      assert keys[..i] == keys;
      assert done.Keys == m.Keys;
    }
  }

  lemma KeyLookup<K(!new), V(!new)>(ht: HashTable<K, V>, keys: seq<K>, es: seq<Entry<K, V>>, i: nat)
    requires ht.Valid() && es == Items(ht.table.chains) && KeysOf(keys, es) && i < |keys|
    ensures i < |es| && HashRuns.At(ht.Map(), keys[i]) == Some(es[i].data) && es[i] == Entry(keys[i], es[i].data)
  {
    ItemsAreMap(ht.hash, ht.table, es, ht.Map());
  }

  lemma KeysAreDomain<K(!new), V(!new)>(ht: HashTable<K, V>, keys: seq<K>, m: map<K, V>)
    requires ht.Valid() && KeysOf(keys, Items(ht.table.chains)) && m == ht.Map()
    ensures forall k :: k in keys <==> k in m
  {
    var es := Items(ht.table.chains);
    ItemsAreMap(ht.hash, ht.table, es, ht.Map());
    forall k | k in ht.Map()
      ensures k in keys
    {
      var j :| 0 <= j < |es| && es[j].key == k;
      assert keys[j] == k;
    }
  }

  // The traversal order lists each pair of the map once.
  lemma ItemsAreMap<K(!new), V(!new)>(hash: K -> nat, t: Table<K, V>, es: seq<Entry<K, V>>, m: map<K, V>)
    requires WF(hash, t) && es == Items(t.chains) && m == Contents(hash, t)
    ensures DistinctKeys(es)
    ensures forall i :: 0 <= i < |es| ==> es[i].key in m && m[es[i].key] == es[i].data
    ensures forall k :: k in m ==> exists i :: 0 <= i < |es| && es[i].key == k
  {
    assert t.chains[..|t.chains|] == t.chains;
    ItemsDistinct(hash, t.chains, |t.chains|);
    forall i | 0 <= i < |es|
      ensures es[i].key in m && m[es[i].key] == es[i].data
    {
      GetFinds(hash, t, es[i].key, es[i].data);
      ContentsGet(hash, t, es[i].key);
    }
    forall k | k in m
      ensures exists i :: 0 <= i < |es| && es[i].key == k
    {
      ContentsGet(hash, t, k);
      GetFinds(hash, t, k, m[k]);
      var i :| 0 <= i < |es| && es[i] == Entry(k, m[k]);
    }
  }

  // Copy a table that may be NULL into a fresh one.
  method CopyIfAny<K(==, !new), V(!new)>(src: HashTable?<K, V>, dst: HashTable<K, V>)
    requires dst.Valid() && (src != null ==> src.Valid() && src.Repr() !! dst.Repr())
    modifies dst.Repr()
    ensures dst.Valid() && fresh(dst.Repr() - old(dst.Repr()))
    ensures dst.Map() == old(dst.Map()) + (if src == null then map[] else old(src.Map()))
  {
    hide HashTable.Valid, HashTable.Map;
    if src != null {
      Copy(src, dst);
    }
  }

  // A new table of n entries, filled from one that may be NULL.
  method NewFrom<K(==, !new), V(!new)>(hash: K -> nat, n: nat, frozen: bool, src: HashTable?<K, V>)
    returns (ht: HashTable<K, V>)
    requires src != null ==> src.Valid()
    ensures ht.Valid() && fresh(ht.Repr())
    ensures ht.hash == hash && ht.frozen == frozen && ht.untilGrows
    ensures ht.Map() == if src == null then map[] else src.Map()
  {
    hide HashTable.Valid, HashTable.Map, New;
    ht := new HashTable(hash, n, frozen);
    CopyIfAny(src, ht);
  }

  // cfuhash_merge: a new table with ht1 overridden by ht2; either may be NULL.
  method Merge<K(==, !new), V(!new)>(hash: K -> nat, ht1: HashTable?<K, V>, ht2: HashTable?<K, V>, frozen: bool)
    returns (ht: HashTable<K, V>)
    requires (ht1 != null ==> ht1.Valid()) && (ht2 != null ==> ht2.Valid())
    ensures ht.Valid() && fresh(ht.Repr()) && ht.hash == hash && ht.frozen == frozen && ht.untilGrows
    ensures ht.Map() == (if ht1 == null then map[] else ht1.Map()) + (if ht2 == null then map[] else ht2.Map())
  {
    hide HashTable.Valid, HashTable.Map, New;
    var n1 := NumEntries(ht1);
    var n2 := NumEntries(ht2);
    ht := NewFrom(hash, n1 + n2, frozen, ht1);
    CopyIfAny(ht2, ht);
  }

  // cfuhash_num_entries
  method NumEntries<K(==, !new), V(!new)>(ht: HashTable?<K, V>) returns (n: nat)
    requires ht != null ==> ht.Valid()
    ensures n == if ht == null then 0 else ht.entries
  {
    n := if ht == null then 0 else ht.entries;
  }

  // keys are the keys of es, in order.
  ghost predicate KeysOf<K(!new), V(!new)>(keys: seq<K>, es: seq<Entry<K, V>>) {
    |keys| == |es| && forall i :: 0 <= i < |es| ==> keys[i] == es[i].key
  }

  lemma {:induction false} ItemsPosition<K(!new), V(!new)>(b: Chains<K, V>, i: nat, j: nat)
    requires i < |b| && j < |b[i]|
    ensures |Items(b[..i])| + j < |Items(b)|
    ensures Items(b)[|Items(b[..i])| + j] == b[i][j]
  {
    if i == |b| - 1 {
    } else {
      assert b[..|b| - 1][..i] == b[..i];
      ItemsPosition(b[..|b| - 1], i, j);
    }
  }

  lemma {:induction false} ItemsPrefix<K(!new), V(!new)>(b: Chains<K, V>, n: nat)
    requires n <= |b|
    ensures |Items(b[..n])| <= |Items(b)|
  {
    if n == |b| {
      assert b[..n] == b;
    } else {
      assert b[..|b| - 1][..n] == b[..n];
      ItemsPrefix(b[..|b| - 1], n);
    }
  }

  // The outer rehash loop: all chains of bs move to the empty buckets bs'.
  method MoveAll<K(!new), V(!new)>(hash: K -> nat, bs: array<Node?<K, V>>, bs': array<Node?<K, V>>,
                       ghost ns: seq<seq<Node<K, V>>>, ghost c: Chains<K, V>, ghost R: set<object>)
    returns (ghost cs: seq<seq<Node<K, V>>>, ghost b: Chains<K, V>, ghost moved: nat)
    requires Built(bs, ns, c, R) && bs != bs' && bs !in R && bs' !in R
    requires 0 < bs'.Length && forall x :: 0 <= x < bs'.Length ==> bs'[x] == null
    modifies bs', R
    ensures Built(bs', cs, b, R) && b == Redistribute(hash, Items(c), EmptyChains(bs'.Length)) && moved == |Items(c)|
  {
    cs, b, moved := seq(bs'.Length, _ => []), EmptyChains<K, V>(bs'.Length), 0;
    var i := 0;
    while i < bs.Length
      invariant i <= bs.Length
      invariant Built(bs', cs, b, R)
      invariant forall x :: i <= x < bs.Length ==> Chain(bs[x], ns[x], c[x], bs, x)
      invariant b == Redistribute(hash, Items(c[..i]), EmptyChains(bs'.Length))
      invariant moved == |Items(c[..i])|
    {
      ghost var m;
      cs, b, m := MoveChain(hash, bs[i], bs', ns[i], c[i], bs, i, cs, b, R);
      ItemsSnoc(c, i);
      RedistributeAppend(hash, Items(c[..i]), c[i], EmptyChains(bs'.Length));
      i, moved := i + 1, moved + m;
    }
    assert c[..i] == c;
  }

  lemma ItemsSnoc<K(!new), V(!new)>(b: Chains<K, V>, i: nat)
    requires i < |b|
    ensures Items(b[..i + 1]) == Items(b[..i]) + b[i]
  {
    assert b[..i + 1][..i] == b[..i];
  }

  lemma RedistributeHead<K(!new), V(!new)>(hash: K -> nat, es: seq<Entry<K, V>>, b: Chains<K, V>)
    requires 0 < |b| && es != []
    ensures Redistribute(hash, es, b) == Redistribute(hash, es[1..], Insert(hash, b, es[0]))
  {
    var first := [es[0]];
    assert es == first + es[1..] && first[..0] == [];
    assert Redistribute(hash, first, b) == Insert(hash, b, es[0]);
    RedistributeAppend(hash, first, es[1..], b);
  }

  lemma {:induction false} RedistributeAppend<K(!new), V(!new)>(hash: K -> nat, d: seq<Entry<K, V>>,
                                                                e: seq<Entry<K, V>>, b: Chains<K, V>)
    requires 0 < |b|
    ensures Redistribute(hash, d + e, b) == Redistribute(hash, e, Redistribute(hash, d, b))
  {
    if e == [] {
      assert d + e == d;
    } else {
      RedistributeAppend(hash, d, e[..|e| - 1], b);
      assert (d + e)[..|d + e| - 1] == d + e[..|e| - 1];
    }
  }

  // The power-of-two rounding loop of hash_size.
  method PowerOfTwo(s: nat) returns (i: nat)
    ensures i == HashSize(s)
  {
    i := 1;
    while i < s
      invariant IsPow2(i) && (i == 1 || i < 2 * s)
      invariant DoubleFrom(i, s) == HashSize(s)
    {
      Pow2Double(i);
      i := 2 * i;
    }
  }
}
