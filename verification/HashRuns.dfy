/** Whole runs of hash table calls: agreement with a finite map, the load band, and amortised rehashing. */
module HashRuns {
  import opened Options
  import opened Buckets
  import opened BucketsCorrect

  datatype Op<K, V> =
    | Put(key: K, data: V)
    | Get(key: K)
    | Exists(key: K)
    | Delete(key: K)
    | Clear
    | Rehash

  // What a call returns. Put and Delete report the data they displaced;
  // the source's return value 1 of put_data is Displaced(None).
  datatype Outcome<V> = Displaced(prev: Option<V>) | Found(data: Option<V>) | Present(b: bool) | Done

  function TableStep<K(==), V>(hash: K -> nat, t: Table<K, V>, op: Op<K, V>): (r: (Table<K, V>, Outcome<V>))
    requires 0 < |t.chains|
    ensures 0 < |r.0.chains|
  {
    match op
    case Put(k, v) => var (t1, prev) := PutData(hash, t, k, v); (t1, Displaced(prev))
    case Get(k) => (t, Found(Buckets.Get(hash, t, k)))
    case Exists(k) => (t, Present(Buckets.Get(hash, t, k).Some?))
    case Delete(k) => var (t1, prev) := DeleteData(hash, t, k); (t1, Displaced(prev))
    case Clear => (Buckets.Clear(hash, t), Done)
    case Rehash => (Buckets.Rehash(hash, t), Done)
  }

  function At<K, V>(m: map<K, V>, k: K): Option<V> {
    if k in m then Some(m[k]) else None
  }

  function MapStep<K, V>(m: map<K, V>, op: Op<K, V>): (map<K, V>, Outcome<V>) {
    match op
    case Put(k, v) => (m[k := v], Displaced(At(m, k)))
    case Get(k) => (m, Found(At(m, k)))
    case Exists(k) => (m, Present(k in m))
    case Delete(k) => (m - {k}, Displaced(At(m, k)))
    case Clear => (map[], Done)
    case Rehash => (m, Done)
  }

  function TableRun<K(==), V>(hash: K -> nat, t: Table<K, V>, ops: seq<Op<K, V>>): (r: (Table<K, V>, seq<Outcome<V>>))
    requires 0 < |t.chains|
    ensures 0 < |r.0.chains|
    decreases |ops|
  {
    if ops == [] then (t, [])
    else
      var (t1, o) := TableStep(hash, t, ops[0]);
      var (t2, os) := TableRun(hash, t1, ops[1..]);
      (t2, [o] + os)
  }

  function MapRun<K, V>(m: map<K, V>, ops: seq<Op<K, V>>): (map<K, V>, seq<Outcome<V>>)
    decreases |ops|
  {
    if ops == [] then (m, [])
    else
      var (m1, o) := MapStep(m, ops[0]);
      var (m2, os) := MapRun(m1, ops[1..]);
      (m2, [o] + os)
  }

  // Table and map agree: same contents, and `entries` is the map's size.
  ghost predicate Represents<K(!new), V(!new)>(hash: K -> nat, t: Table<K, V>, m: map<K, V>) {
    WF(hash, t) && Contents(hash, t) == m && Count(t) == |m|
  }

  lemma PutRefines<K(!new), V(!new)>(hash: K -> nat, t: Table<K, V>, k: K, v: V)
    requires WF(hash, t)
    ensures var (t', prev) := PutData(hash, t, k, v);
            WF(hash, t') && Contents(hash, t') == Contents(hash, t)[k := v] && prev == At(Contents(hash, t), k)
  {
    hide WF, Contents, PutLocked, Buckets.Rehash, Buckets.Get, TooFull;
    WFSize(hash, t);
    PutLockedCorrect(hash, t, k, v);
    ContentsGet(hash, t, k);
    RehashCorrect(hash, PutLocked(hash, t, k, v).0);
  }

  lemma DeleteRefines<K(!new), V(!new)>(hash: K -> nat, t: Table<K, V>, k: K)
    requires WF(hash, t)
    ensures var (t', prev) := DeleteData(hash, t, k);
            WF(hash, t') && Contents(hash, t') == Contents(hash, t) - {k} && prev == At(Contents(hash, t), k)
  {
    hide WF, Contents, DeleteLocked, Buckets.Rehash, Buckets.Get, TooEmpty;
    WFSize(hash, t);
    DeleteLockedCorrect(hash, t, k);
    ContentsGet(hash, t, k);
    RehashCorrect(hash, DeleteLocked(hash, t, k).0);
  }

  lemma ClearRefines<K(!new), V(!new)>(hash: K -> nat, t: Table<K, V>)
    requires WF(hash, t)
    ensures var t' := Buckets.Clear(hash, t); WF(hash, t') && Contents(hash, t') == map[]
  {
    hide WF, Contents, ClearLocked, Buckets.Rehash, TooEmpty;
    WFSize(hash, t);
    ClearLockedCorrect(hash, t);
    RehashCorrect(hash, ClearLocked(t));
  }

  lemma WFSize<K(!new), V(!new)>(hash: K -> nat, t: Table<K, V>)
    requires WF(hash, t)
    ensures 0 < |t.chains|
  {
  }

  lemma StepRefines<K(!new), V(!new)>(hash: K -> nat, t: Table<K, V>, m: map<K, V>, op: Op<K, V>)
    requires Represents(hash, t, m)
    ensures Represents(hash, TableStep(hash, t, op).0, MapStep(m, op).0)
    ensures TableStep(hash, t, op).1 == MapStep(m, op).1
  {
    hide WF, Contents, Count, PutData, DeleteData, Buckets.Clear, Buckets.Rehash, Buckets.Get;
    WFSize(hash, t);
    match op {
      case Put(k, v) => PutRefines(hash, t, k, v);
      case Get(k) => ContentsGet(hash, t, k);
      case Exists(k) => ContentsGet(hash, t, k);
      case Delete(k) => DeleteRefines(hash, t, k);
      case Clear => ClearRefines(hash, t);
      case Rehash => RehashCorrect(hash, t);
    }
    CountIsSize(hash, TableStep(hash, t, op).0);
  }

  // What a call does to the contents and what it returns.
  lemma StepContents<K(!new), V(!new)>(hash: K -> nat, t: Table<K, V>, op: Op<K, V>)
    requires WF(hash, t)
    ensures WF(hash, TableStep(hash, t, op).0)
    ensures (Contents(hash, TableStep(hash, t, op).0), TableStep(hash, t, op).1) == MapStep(Contents(hash, t), op)
  {
    CountIsSize(hash, t);
    StepRefines(hash, t, Contents(hash, t), op);
  }

  lemma {:induction false} RunRefines<K(!new), V(!new)>(hash: K -> nat, t: Table<K, V>, m: map<K, V>,
                                                        ops: seq<Op<K, V>>)
    requires Represents(hash, t, m)
    ensures Represents(hash, TableRun(hash, t, ops).0, MapRun(m, ops).0)
    ensures TableRun(hash, t, ops).1 == MapRun(m, ops).1
    decreases |ops|
  {
    if ops == [] {
    } else {
      StepRefines(hash, t, m, ops[0]);
      RunRefines(hash, TableStep(hash, t, ops[0]).0, MapStep(m, ops[0]).0, ops[1..]);
    }
  }

  // Every run on a new table returns what the same run on an empty map returns.
  lemma NewTableIsMap<K(!new), V(!new)>(hash: K -> nat, size: nat, frozen: bool, ops: seq<Op<K, V>>)
    ensures Represents(hash, TableRun(hash, New<K, V>(size, frozen), ops).0, MapRun(map[], ops).0)
    ensures TableRun(hash, New<K, V>(size, frozen), ops).1 == MapRun<K, V>(map[], ops).1
  {
    NewCorrect<K, V>(hash, size, frozen);
    RunRefines(hash, New<K, V>(size, frozen), map[], ops);
  }

  // ----- Load band -----

  // At most three quarters full; once resized also at least a quarter full, or minimal.
  ghost predicate InBand<K(!new), V(!new)>(t: Table<K, V>) {
    && 4 * Count(t) <= 3 * |t.chains|
    && (t.resized > 0 ==> 4 * Count(t) >= |t.chains| || (Count(t) == 0 && |t.chains| == 1))
  }

  lemma RehashBand<K(!new), V(!new)>(hash: K -> nat, t: Table<K, V>)
    requires WF(hash, t)
    ensures var r := Buckets.Rehash(hash, t);
            && 4 * Count(r) <= 3 * |r.chains|
            && (4 * Count(r) >= |r.chains| || (Count(r) == 0 && |r.chains| == 1))
            && Buckets.Rehash(hash, r) == r
  {
    RehashCorrect(hash, t);
    RehashCorrect(hash, Buckets.Rehash(hash, t));
  }

  lemma Halve(n: nat) returns (m: nat)
    requires IsPow2(n) && n != 1
    ensures n == 2 * m && IsPow2(m)
  {
    m := n / 2;
  }

  // A power of two above 8 is a multiple of 16.
  lemma Pow2Above8(n: nat) returns (i: nat)
    requires IsPow2(n) && n > 8
    ensures n == 16 * i
  {
    hide IsPow2;
    var m := Halve(n);
    var k := Halve(m);
    var j := Halve(k);
    i := Halve(j);
  }

  lemma Pow2UpTo8(n: nat)
    requires IsPow2(n) && n <= 8
    ensures n == 1 || n == 2 || n == 4 || n == 8
  {
    if n > 1 {
      var m := Halve(n);
      hide IsPow2;
      if m > 1 {
        var k := Halve(m);
        if k > 1 {
          var j := Halve(k);
        }
      }
    }
  }

  lemma Pow2Multiple(n: nat)
    requires IsPow2(n)
    ensures n == 1 || n == 2 || n == 4 || n == 8 || n % 16 == 0
  {
    hide IsPow2;
    if n > 8 {
      var i := Pow2Above8(n);
    } else {
      Pow2UpTo8(n);
    }
  }

  // The first count above three quarters of n asks for exactly 2 * n buckets.
  lemma GrowthDoubles(n: nat, e: nat)
    requires IsPow2(n) && 4 * e > 3 * n && 4 * (e - 1) <= 3 * n
    ensures HashSize(2 * e) == 2 * n && e == 3 * n / 4 + 1
  {
    hide IsPow2, HashSize;
    Pow2Double(n);
    assert e <= n;
    Pow2Unique(HashSize(2 * e), 2 * n);
  }

  // The bucket count after a deletion that rehashes a table of n buckets.
  function ShrunkSize(n: nat): nat {
    if n >= 16 then n / 2 else if n == 8 then 2 else 1
  }

  // The first count below a quarter of n asks for half of n, from 16 buckets on.
  lemma ShrinkHalves(n: nat, e: nat)
    requires IsPow2(n) && 4 * e < n <= 4 * (e + 1) <= 3 * n
    ensures HashSize(2 * e) == ShrunkSize(n) && ((n == 2 && e == 0) || 4 * e + 4 == n)
  {
    hide IsPow2, HashSize;
    if n > 8 {
      var i := Pow2Above8(n);
      var m := Halve(n);
      Pow2Unique(HashSize(2 * e), m);
    } else {
      Pow2UpTo8(n);
      if n == 8 {
        PowersAre();
        Pow2Unique(HashSize(2 * e), 2);
      }
    }
  }

  lemma PowersAre()
    ensures IsPow2(1) && IsPow2(2)
  {
  }

  // Adding an entry to a table in the band keeps it there; if it rehashes, the bucket count exactly doubles.
  lemma PutBand<K(!new), V(!new)>(hash: K -> nat, t: Table<K, V>, k: K, v: V)
    requires WF(hash, t) && InBand(t) && !t.frozen
    ensures var r := PutData(hash, t, k, v).0;
            InBand(r) && (r.resized != t.resized ==> |r.chains| == 2 * |t.chains| && Count(r) == 3 * |t.chains| / 4 + 1)
    ensures var r := PutData(hash, t, k, v).0;
            r.resized == t.resized ==> |r.chains| == |t.chains|
  {
    PutLockedCorrect(hash, t, k, v);
    var (t1, prev) := PutLocked(hash, t, k, v);
    if prev.None? && TooFull(t1) {
      GrowthDoubles(|t.chains|, Count(t1));
      RehashCorrect(hash, t1);
      RehashBand(hash, t1);
    }
  }

  // Deleting from a table in the band keeps it there; from 16 buckets on a shrink exactly halves.
  lemma DeleteBand<K(!new), V(!new)>(hash: K -> nat, t: Table<K, V>, k: K)
    requires WF(hash, t) && InBand(t) && !t.frozen && t.untilGrows
    ensures var r := DeleteData(hash, t, k).0;
            && InBand(r)
            && (r.resized != t.resized ==>
                  |r.chains| == ShrunkSize(|t.chains|) &&
                  ((|t.chains| == 2 && Count(r) == 0) || 4 * Count(r) + 4 == |t.chains|))
            && (r.resized == t.resized ==> |r.chains| == |t.chains|)
  {
    DeleteLockedCorrect(hash, t, k);
    var (t1, prev) := DeleteLocked(hash, t, k);
    if prev.Some? && TooEmpty(t1) {
      ShrinkHalves(|t.chains|, Count(t1));
      RehashCorrect(hash, t1);
      RehashBand(hash, t1);
    }
  }

  lemma ClearBand<K(!new), V(!new)>(hash: K -> nat, t: Table<K, V>)
    requires WF(hash, t) && !t.frozen && t.untilGrows
    ensures var r := Buckets.Clear(hash, t);
            && InBand(r) && Count(r) == 0
            && (if t.resized > 0 then |r.chains| == 1 else |r.chains| == |t.chains| && r.resized == 0)
  {
    ClearLockedCorrect(hash, t);
    var t1 := ClearLocked(t);
    RehashCorrect(hash, t1);
    RehashBand(hash, t1);
  }

  lemma StepBand<K(!new), V(!new)>(hash: K -> nat, t: Table<K, V>, op: Op<K, V>)
    requires WF(hash, t) && InBand(t) && !t.frozen && t.untilGrows
    ensures var r := TableStep(hash, t, op).0; WF(hash, r) && InBand(r) && !r.frozen && r.untilGrows
  {
    hide InBand;
    StepContents(hash, t, op);
    hide WF, Contents;
    match op {
      case Put(k, v) => PutBand(hash, t, k, v); RehashCorrectFlags(hash, PutLocked(hash, t, k, v).0);
      case Get(_) =>
      case Exists(_) =>
      case Delete(k) => DeleteBand(hash, t, k); RehashCorrectFlags(hash, DeleteLocked(hash, t, k).0);
      case Clear => ClearBand(hash, t); RehashCorrectFlags(hash, ClearLocked(t));
      case Rehash => RehashInBand(hash, t); RehashCorrectFlags(hash, t);
    }
  }

  lemma RehashCorrectFlags<K(!new), V(!new)>(hash: K -> nat, t: Table<K, V>)
    ensures var r := Buckets.Rehash(hash, t); r.frozen == t.frozen && r.untilGrows == t.untilGrows
  {
  }

  lemma RehashInBand<K(!new), V(!new)>(hash: K -> nat, t: Table<K, V>)
    requires WF(hash, t)
    ensures InBand(Buckets.Rehash(hash, t))
  {
    RehashBand(hash, t);
  }

  lemma {:induction false} RunBand<K(!new), V(!new)>(hash: K -> nat, t: Table<K, V>, ops: seq<Op<K, V>>)
    requires WF(hash, t) && InBand(t) && !t.frozen && t.untilGrows
    ensures InBand(TableRun(hash, t, ops).0)
    decreases |ops|
  {
    if ops == [] {
    } else {
      StepBand(hash, t, ops[0]);
      RunBand(hash, TableStep(hash, t, ops[0]).0, ops[1..]);
    }
  }

  // Between any two calls on an unfrozen table the load is in the band.
  lemma NewTableInBand<K(!new), V(!new)>(hash: K -> nat, size: nat, ops: seq<Op<K, V>>)
    ensures InBand(TableRun(hash, New<K, V>(size, false), ops).0)
  {
    NewCorrect<K, V>(hash, size, false);
    RunBand(hash, New<K, V>(size, false), ops);
  }

  // ----- Amortised cost of rehashing -----

  // Entries relinked by a rehash of t.
  function Relinked<K, V>(t: Table<K, V>): nat {
    if RehashSize(t) == |t.chains| then 0 else Count(t)
  }

  // Entries relinked by the rehash inside one call.
  function StepCost<K(==), V>(hash: K -> nat, t: Table<K, V>, op: Op<K, V>): nat
    requires 0 < |t.chains|
  {
    match op
    case Put(k, v) =>
      var (t1, prev) := PutLocked(hash, t, k, v);
      if prev.None? && TooFull(t1) then Relinked(t1) else 0
    case Delete(k) =>
      var (t1, prev) := DeleteLocked(hash, t, k);
      if prev.Some? && TooEmpty(t1) then Relinked(t1) else 0
    case Clear => if TooEmpty(ClearLocked(t)) then Relinked(ClearLocked(t)) else 0
    case Rehash => Relinked(t)
    case _ => 0
  }

  function RunCost<K(==), V>(hash: K -> nat, t: Table<K, V>, ops: seq<Op<K, V>>): nat
    requires 0 < |t.chains|
    decreases |ops|
  {
    if ops == [] then 0
    else StepCost(hash, t, ops[0]) + RunCost(hash, TableStep(hash, t, ops[0]).0, ops[1..])
  }

  function Updates<K, V>(ops: seq<Op<K, V>>): nat {
    if ops == [] then 0
    else (if ops[0].Put? || ops[0].Delete? || ops[0].Clear? then 1 else 0) + Updates(ops[1..])
  }

  // Eight times the potential: 3 per entry above half full, 2 per entry below three eighths once resized.
  function Potential<K, V>(t: Table<K, V>): nat {
    Charge(Count(t), |t.chains|, t.resized > 0)
  }

  function Charge(e: nat, n: nat, resized: bool): nat {
    (if 2 * e > n then 3 * (8 * e - 4 * n) else 0) + (if resized && 3 * n > 8 * e then 2 * (3 * n - 8 * e) else 0)
  }

  lemma AddingPays(e: nat, n: nat, resized: bool)
    ensures Charge(e + 1, n, resized) <= Charge(e, n, resized) + 24
    ensures Charge(e, n, resized) <= Charge(e + 1, n, resized) + 24
  {
  }

  lemma GrowthPays(e: nat, n: nat, resized: bool)
    requires 0 < n && 4 * e <= 3 * n < 4 * e + 4
    ensures 8 * (e + 1) + Charge(e + 1, 2 * n, true) <= Charge(e, n, resized) + 24
  {
  }

  lemma ShrinkPays(e: nat, n: nat)
    requires IsPow2(n) && ((n == 2 && e == 0) || 4 * e + 4 == n)
    ensures 8 * e + Charge(e, ShrunkSize(n), true) <= Charge(e + 1, n, true) + 24
  {
    Pow2Multiple(n);
  }

  // What a put costs and how it changes the counts.
  lemma PutCosts<K(!new), V(!new)>(hash: K -> nat, t: Table<K, V>, k: K, v: V)
    requires WF(hash, t) && InBand(t) && !t.frozen && t.untilGrows
    ensures var op := Op<K, V>.Put(k, v);
            var cost, r, e, n := StepCost(hash, t, op), TableStep(hash, t, op).0, Count(t), |t.chains|;
            || (cost == 0 && |r.chains| == n && r.resized == t.resized && (Count(r) == e || Count(r) == e + 1))
            || (cost == Count(r) == e + 1 && |r.chains| == 2 * n && r.resized > 0 && 4 * e <= 3 * n < 4 * e + 4)
  {
    PutLockedCorrect(hash, t, k, v);
    PutBand(hash, t, k, v);
    var t1 := PutLocked(hash, t, k, v).0;
    RehashCorrect(hash, t1);
    hide WF, Contents, Count, Buckets.Get, Buckets.Rehash, IsPow2, HashSize, PutChain, Slot;
  }

  lemma DeleteCosts<K(!new), V(!new)>(hash: K -> nat, t: Table<K, V>, k: K)
    requires WF(hash, t) && InBand(t) && !t.frozen && t.untilGrows
    ensures var op := Op<K, V>.Delete(k);
            var cost, r, e, n := StepCost(hash, t, op), TableStep(hash, t, op).0, Count(t), |t.chains|;
            || (cost == 0 && |r.chains| == n && r.resized == t.resized && (Count(r) == e || Count(r) + 1 == e))
            || (cost == Count(r) == e - 1 && |r.chains| == ShrunkSize(n) && t.resized > 0 && r.resized > 0 &&
                ((n == 2 && e == 1) || 4 * e == n))
  {
    DeleteLockedCorrect(hash, t, k);
    DeleteBand(hash, t, k);
    var t1 := DeleteLocked(hash, t, k).0;
    RehashCorrect(hash, t1);
    hide WF, Contents, Count, Buckets.Get, Buckets.Rehash, IsPow2, HashSize, CutChain, Slot, ShrunkSize;
  }

  lemma PutAmortised<K(!new), V(!new)>(hash: K -> nat, t: Table<K, V>, k: K, v: V)
    requires WF(hash, t) && InBand(t) && !t.frozen && t.untilGrows
    ensures var op := Op<K, V>.Put(k, v);
            8 * StepCost(hash, t, op) + Potential(TableStep(hash, t, op).0) <= Potential(t) + 24
  {
    hide StepCost, TableStep, Count, InBand, Charge;
    PutCosts(hash, t, k, v);
    var e, n, resized := Count(t), |t.chains|, t.resized > 0;
    AddingPays(e, n, resized);
    if 4 * e <= 3 * n < 4 * e + 4 { GrowthPays(e, n, resized); }
  }

  lemma DeleteAmortised<K(!new), V(!new)>(hash: K -> nat, t: Table<K, V>, k: K)
    requires WF(hash, t) && InBand(t) && !t.frozen && t.untilGrows
    ensures var op := Op<K, V>.Delete(k);
            8 * StepCost(hash, t, op) + Potential(TableStep(hash, t, op).0) <= Potential(t) + 24
  {
    hide StepCost, TableStep, Count, InBand, Charge, IsPow2, ShrunkSize;
    DeleteCosts(hash, t, k);
    var e, n, resized := Count(t), |t.chains|, t.resized > 0;
    if e > 0 { AddingPays(e - 1, n, resized); }
    if (n == 2 && e == 1) || (0 < n && 4 * e == n) { ShrinkPays(e - 1, n); }
  }

  lemma StepAmortised<K(!new), V(!new)>(hash: K -> nat, t: Table<K, V>, op: Op<K, V>)
    requires WF(hash, t) && InBand(t) && !t.frozen && t.untilGrows && !op.Rehash?
    ensures 8 * StepCost(hash, t, op) + Potential(TableStep(hash, t, op).0) <= Potential(t) + 24 * Updates([op])
  {
    assert Updates([op]) == if op.Put? || op.Delete? || op.Clear? then 1 else 0;
    match op {
      case Put(k, v) => PutAmortised(hash, t, k, v);
      case Delete(k) => DeleteAmortised(hash, t, k);
      case Clear =>
        ClearLockedCorrect(hash, t);
        ClearBand(hash, t);
      case Get(_) =>
      case Exists(_) =>
    }
  }

  lemma {:induction false} RunAmortised<K(!new), V(!new)>(hash: K -> nat, t: Table<K, V>, ops: seq<Op<K, V>>)
    requires WF(hash, t) && InBand(t) && !t.frozen && t.untilGrows
    requires forall op :: op in ops ==> !op.Rehash?
    ensures 8 * RunCost(hash, t, ops) + Potential(TableRun(hash, t, ops).0) <= Potential(t) + 24 * Updates(ops)
    decreases |ops|
  {
    if ops == [] {
    } else {
      StepAmortised(hash, t, ops[0]);
      StepBand(hash, t, ops[0]);
      RunAmortised(hash, TableStep(hash, t, ops[0]).0, ops[1..]);
      assert Updates(ops) == Updates([ops[0]]) + Updates(ops[1..]);
    }
  }

  // From a new table, the rehashes inside any run of calls relink at most three entries per update.
  lemma RehashingIsAmortised<K(!new), V(!new)>(hash: K -> nat, size: nat, ops: seq<Op<K, V>>)
    requires forall op :: op in ops ==> !op.Rehash?
    ensures RunCost(hash, New<K, V>(size, false), ops) <= 3 * Updates(ops)
  {
    NewCorrect<K, V>(hash, size, false);
    RunAmortised(hash, New<K, V>(size, false), ops);
  }
}
