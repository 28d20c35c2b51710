/** Threads sharing one table. The mutex covers the locked section of a call and,
    separately, the rehash that may follow; the load test in between reads
    without the lock, so here it may come out either way. */
module Concurrent {
  import opened Options
  import opened Buckets
  import opened BucketsCorrect
  import opened HashRuns

  // The section of a call that runs under the lock.
  function Section<K(==), V>(hash: K -> nat, t: Table<K, V>, op: Op<K, V>): (r: (Table<K, V>, Outcome<V>))
    requires 0 < |t.chains|
    ensures 0 < |r.0.chains|
  {
    match op
    case Put(k, v) => var (t1, prev) := PutLocked(hash, t, k, v); (t1, Displaced(prev))
    case Get(k) => (t, Found(Buckets.Get(hash, t, k)))
    case Exists(k) => (t, Present(Buckets.Get(hash, t, k).Some?))
    case Delete(k) => var (t1, prev) := DeleteLocked(hash, t, k); (t1, Displaced(prev))
    case Clear => (ClearLocked(t), Done)
    case Rehash => (Buckets.Rehash(hash, t), Done)
  }

  // Whether the code reaches a load test after its locked section.
  predicate Tests<K, V>(op: Op<K, V>, out: Outcome<V>) {
    match op
    case Put(_, _) => out == Displaced(None)
    case Delete(_) => out.Displaced? && out.prev.Some?
    case Clear => true
    case _ => false
  }

  // `invoked` and `since` are the step number and the log length at the call;
  // `at` is the log position of its locked section.
  datatype Call<K, V> = Call(op: Op<K, V>, invoked: nat, since: nat)

  datatype Stage = Testing | Rehashing | Returning

  datatype Phase<K, V> =
    | Idle
    | Called(call: Call<K, V>)
    | Ran(call: Call<K, V>, out: Outcome<V>, at: nat, stage: Stage)

  datatype Completed<K, V> = Completed(call: Call<K, V>, out: Outcome<V>, at: nat, returned: nat)

  // `log` lists the locked sections of the calls in the order the mutex granted them.
  datatype World<K, V> = World(
    table: Table<K, V>,
    threads: map<nat, Phase<K, V>>,
    log: seq<(Op<K, V>, Outcome<V>)>,
    history: seq<Completed<K, V>>,
    now: nat)

  datatype Step<K, V> =
    | Invoke(tid: nat, op: Op<K, V>)
    | Lock(tid: nat)
    | Test(tid: nat, over: bool)
    | LockRehash(tid: nat)
    | Return(tid: nat)

  function PhaseOf<K, V>(w: World<K, V>, tid: nat): Phase<K, V> {
    if tid in w.threads then w.threads[tid] else Idle
  }

  function Act<K(==), V>(hash: K -> nat, w: World<K, V>, s: Step<K, V>): (r: World<K, V>)
    requires 0 < |w.table.chains|
    ensures 0 < |r.table.chains|
  {
    var w1 := w.(now := w.now + 1);
    match (s, PhaseOf(w, s.tid))
    case (Invoke(tid, op), Idle) =>
      w1.(threads := w.threads[tid := Called(Call(op, w.now, |w.log|))])
    case (Lock(tid), Called(call)) =>
      var (t, out) := Section(hash, w.table, call.op);
      w1.(table := t, log := w.log + [(call.op, out)], threads := w.threads[tid := Ran(call, out, |w.log|, Testing)])
    case (Test(tid, over), Ran(call, out, at, Testing)) =>
      var stage := if over && Tests(call.op, out) && !w.table.frozen then Rehashing else Returning;
      w1.(threads := w.threads[tid := Ran(call, out, at, stage)])
    case (LockRehash(tid), Ran(call, out, at, Rehashing)) =>
      w1.(table := Buckets.Rehash(hash, w.table), threads := w.threads[tid := Ran(call, out, at, Returning)])
    case (Return(tid), Ran(call, out, at, Returning)) =>
      w1.(threads := w.threads[tid := Idle], history := w.history + [Completed(call, out, at, w.now)])
    case _ => w1
  }

  function Start<K, V>(t: Table<K, V>): World<K, V> {
    World(t, map[], [], [], 0)
  }

  function Execute<K(==), V>(hash: K -> nat, w: World<K, V>, steps: seq<Step<K, V>>): (r: World<K, V>)
    requires 0 < |w.table.chains|
    ensures 0 < |r.table.chains|
    decreases |steps|
  {
    if steps == [] then w else Execute(hash, Act(hash, w, steps[0]), steps[1..])
  }

  function Ops<K, V>(log: seq<(Op<K, V>, Outcome<V>)>): seq<Op<K, V>> {
    seq(|log|, i requires 0 <= i < |log| => log[i].0)
  }

  function Outs<K, V>(log: seq<(Op<K, V>, Outcome<V>)>): seq<Outcome<V>> {
    seq(|log|, i requires 0 <= i < |log| => log[i].1)
  }

  // A sequential run of the log on the map m0 gives these outcomes and the table's contents.
  ghost predicate Replays<K(!new), V(!new)>(hash: K -> nat, m0: map<K, V>, w: World<K, V>) {
    && WF(hash, w.table)
    && MapRun(m0, Ops(w.log)).0 == Contents(hash, w.table)
    && MapRun(m0, Ops(w.log)).1 == Outs(w.log)
  }

  // Every call that has run did so at its own log position, after it was invoked.
  ghost predicate Logged<K(!new), V(!new)>(w: World<K, V>, call: Call<K, V>, out: Outcome<V>, at: nat) {
    call.invoked < w.now && call.since <= at < |w.log| && w.log[at] == (call.op, out)
  }

  ghost predicate PhaseLogged<K(!new), V(!new)>(w: World<K, V>, phase: Phase<K, V>) {
    match phase
    case Idle => true
    case Called(call) => call.invoked < w.now && call.since <= |w.log|
    case Ran(call, out, at, _) => Logged(w, call, out, at)
  }

  ghost predicate CallsLogged<K(!new), V(!new)>(w: World<K, V>) {
    && (forall tid :: tid in w.threads ==> PhaseLogged(w, w.threads[tid]))
    && (forall i :: 0 <= i < |w.history| ==>
          Logged(w, w.history[i].call, w.history[i].out, w.history[i].at) && w.history[i].returned < w.now)
  }

  ghost predicate OwnPositions<K(!new), V(!new)>(w: World<K, V>) {
    && (forall i, j :: 0 <= i < j < |w.history| ==> w.history[i].at != w.history[j].at)
    && (forall tid, i :: tid in w.threads && w.threads[tid].Ran? && 0 <= i < |w.history| ==>
          w.threads[tid].at != w.history[i].at)
    && (forall tid, tid' ::
          tid in w.threads && w.threads[tid].Ran? && tid' in w.threads && w.threads[tid'].Ran? && tid != tid' ==>
          w.threads[tid].at != w.threads[tid'].at)
  }

  // A call invoked after c returned may only be logged after c.
  ghost predicate Precedes<K, V>(c: Completed<K, V>, call: Call<K, V>) {
    c.returned <= call.invoked ==> c.at < call.since
  }

  ghost predicate RealTime<K(!new), V(!new)>(w: World<K, V>) {
    && (forall i, tid :: 0 <= i < |w.history| && tid in w.threads && !w.threads[tid].Idle? ==>
          Precedes(w.history[i], w.threads[tid].call))
    && (forall i, j :: 0 <= i < |w.history| && 0 <= j < |w.history| ==> Precedes(w.history[i], w.history[j].call))
  }

  lemma {:induction false} MapRunSnoc<K(!new), V(!new)>(m: map<K, V>, ops: seq<Op<K, V>>, op: Op<K, V>)
    ensures var (m1, os) := MapRun(m, ops);
            MapRun(m, ops + [op]) == (MapStep(m1, op).0, os + [MapStep(m1, op).1])
    decreases |ops|
  {
    if ops == [] {
      assert ops + [op] == [op] && [op][1..] == [];
      assert [MapStep(m, op).1] + [] == [] + [MapStep(m, op).1];
    } else {
      assert (ops + [op])[0] == ops[0] && (ops + [op])[1..] == ops[1..] + [op];
      var (m1, o) := MapStep(m, ops[0]);
      MapRunSnoc(m1, ops[1..], op);
      var (m2, os) := MapRun(m1, ops[1..]);
      assert [o] + (os + [MapStep(m2, op).1]) == [o] + os + [MapStep(m2, op).1];
    }
  }

  // The locked section alone does to the contents what the whole call does.
  lemma SectionRefines<K(!new), V(!new)>(hash: K -> nat, t: Table<K, V>, op: Op<K, V>)
    requires WF(hash, t)
    ensures WF(hash, Section(hash, t, op).0)
    ensures (Contents(hash, Section(hash, t, op).0), Section(hash, t, op).1) == MapStep(Contents(hash, t), op)
  {
    match op {
      case Put(k, v) => PutLockedCorrect(hash, t, k, v); ContentsGet(hash, t, k);
      case Get(k) => ContentsGet(hash, t, k);
      case Exists(k) => ContentsGet(hash, t, k);
      case Delete(k) => DeleteLockedCorrect(hash, t, k); ContentsGet(hash, t, k);
      case Clear => ClearLockedCorrect(hash, t);
      case Rehash => RehashCorrect(hash, t);
    }
  }

  lemma ActReplays<K(!new), V(!new)>(hash: K -> nat, m0: map<K, V>, w: World<K, V>, s: Step<K, V>)
    requires Replays(hash, m0, w)
    ensures Replays(hash, m0, Act(hash, w, s))
  {
    match (s, PhaseOf(w, s.tid)) {
      case (Lock(tid), Called(call)) =>
        SectionRefines(hash, w.table, call.op);
        MapRunSnoc(m0, Ops(w.log), call.op);
        var w' := Act(hash, w, s);
        assert Ops(w'.log) == Ops(w.log) + [call.op];
        assert Outs(w'.log) == Outs(w.log) + [MapStep(Contents(hash, w.table), call.op).1];
      case (LockRehash(tid), Ran(call, out, at, Rehashing)) => RehashCorrect(hash, w.table);
      case _ =>
    }
  }

  ghost predicate Orderly<K(!new), V(!new)>(w: World<K, V>) {
    CallsLogged(w) && OwnPositions(w) && RealTime(w)
  }

  // Log and clock only grow, so what is logged stays logged.
  lemma StaysLogged<K(!new), V(!new)>(w: World<K, V>, w': World<K, V>, phase: Phase<K, V>)
    requires PhaseLogged(w, phase) && w.log <= w'.log && w.now <= w'.now
    ensures PhaseLogged(w', phase)
  {
  }

  lemma ActGrows<K(!new), V(!new)>(hash: K -> nat, w: World<K, V>, s: Step<K, V>)
    requires 0 < |w.table.chains|
    ensures w.log <= Act(hash, w, s).log && w.now < Act(hash, w, s).now
  {
  }

  lemma ActLogged<K(!new), V(!new)>(hash: K -> nat, w: World<K, V>, s: Step<K, V>)
    requires 0 < |w.table.chains| && CallsLogged(w)
    ensures CallsLogged(Act(hash, w, s))
  {
    hide Section, Buckets.Rehash, Tests;
    var w' := Act(hash, w, s);
    ActGrows(hash, w, s);
    forall tid | tid in w'.threads
      ensures PhaseLogged(w', w'.threads[tid])
    {
      if tid in w.threads { StaysLogged(w, w', w.threads[tid]); }
    }
  }

  lemma ActPositions<K(!new), V(!new)>(hash: K -> nat, w: World<K, V>, s: Step<K, V>)
    requires 0 < |w.table.chains| && CallsLogged(w) && OwnPositions(w)
    ensures OwnPositions(Act(hash, w, s))
  {
    hide Section, Buckets.Rehash;
  }

  lemma ActRealTime<K(!new), V(!new)>(hash: K -> nat, w: World<K, V>, s: Step<K, V>)
    requires 0 < |w.table.chains| && CallsLogged(w) && RealTime(w)
    ensures RealTime(Act(hash, w, s))
  {
    hide Section, Buckets.Rehash;
  }

  lemma {:induction false} ExecuteKeeps<K(!new), V(!new)>(hash: K -> nat, m0: map<K, V>, w: World<K, V>,
                                                          steps: seq<Step<K, V>>)
    requires Replays(hash, m0, w) && Orderly(w)
    ensures Replays(hash, m0, Execute(hash, w, steps)) && Orderly(Execute(hash, w, steps))
    decreases |steps|
  {
    if steps == [] {
    } else {
      ActReplays(hash, m0, w, steps[0]);
      ActLogged(hash, w, steps[0]);
      ActPositions(hash, w, steps[0]);
      ActRealTime(hash, w, steps[0]);
      ExecuteKeeps(hash, m0, Act(hash, w, steps[0]), steps[1..]);
    }
  }

  // Linearizability: in every interleaving the log is a sequential run of the map with the same outcomes,
  // each completed call owns one log position, and a call that returned before another was invoked comes first.
  lemma Linearizable<K(!new), V(!new)>(hash: K -> nat, size: nat, frozen: bool, steps: seq<Step<K, V>>)
    ensures var w := Execute(hash, Start(New<K, V>(size, frozen)), steps);
            && Contents(hash, w.table) == MapRun(map[], Ops(w.log)).0
            && Outs(w.log) == MapRun(map[], Ops(w.log)).1
            && (forall c :: c in w.history ==> c.at < |w.log| && w.log[c.at] == (c.call.op, c.out))
            && (forall i, j :: 0 <= i < j < |w.history| ==> w.history[i].at != w.history[j].at)
            && forall c, d :: c in w.history && d in w.history && c.returned <= d.call.invoked ==> c.at < d.at
  {
    NewCorrect<K, V>(hash, size, frozen);
    var w0 := Start(New<K, V>(size, frozen));
    assert Ops(w0.log) == [] && Outs(w0.log) == [];
    ExecuteKeeps(hash, map[], w0, steps);
  }

  // ----- A call that no other thread interrupts -----

  // What the load test after a section finds: an addition made the table too full, or a removal too empty.
  predicate Overloaded<K, V>(t: Table<K, V>, op: Op<K, V>) {
    if op.Put? then 4 * Count(t) > 3 * |t.chains|
    else (t.untilGrows ==> t.resized > 0) && 4 * Count(t) < |t.chains|
  }

  // The table after the section of a call, the load test and the rehash it calls for, is the table after the call.
  lemma SectionThenRehash<K(!new), V(!new)>(hash: K -> nat, t: Table<K, V>, op: Op<K, V>)
    requires 0 < |t.chains|
    ensures var (t1, out) := Section(hash, t, op);
            TableStep(hash, t, op) ==
            (if Overloaded(t1, op) && Tests(op, out) && !t1.frozen then Buckets.Rehash(hash, t1) else t1, out)
  {
    hide Buckets.Rehash, PutLocked, DeleteLocked, ClearLocked, Buckets.Get;
  }

  // The steps of one call.
  function CallSteps<K, V>(tid: nat, op: Op<K, V>, over: bool): seq<Step<K, V>> {
    [Invoke(tid, op), Lock(tid), Test(tid, over), LockRehash(tid), Return(tid)]
  }

  // Run alone, the steps of a call do to the table what the call does, and record its outcome.
  lemma CallAlone<K(!new), V(!new)>(hash: K -> nat, w: World<K, V>, tid: nat, op: Op<K, V>)
    requires 0 < |w.table.chains| && PhaseOf(w, tid).Idle?
    ensures var over := Overloaded(Section(hash, w.table, op).0, op);
            var w' := Execute(hash, w, CallSteps(tid, op, over));
            var (t, out) := TableStep(hash, w.table, op);
            && w'.table == t && w'.log == w.log + [(op, out)] && w'.threads == w.threads[tid := Idle]
            && w'.history == w.history + [Completed(Call(op, w.now, |w.log|), out, |w.log|, w.now + 4)]
  {
    hide Section, TableStep, Overloaded, Act, Execute, Buckets.Rehash, Tests, CallSteps;
    var over := Overloaded(Section(hash, w.table, op).0, op);
    CallSection(hash, w, tid, op);
    var w2 := Act(hash, Act(hash, w, Invoke(tid, op)), Lock(tid));
    CallEnds(hash, w2, tid, over);
    ExecuteCall(hash, w, tid, op, over);
    SectionThenRehash(hash, w.table, op);
    assert w2.threads[tid := Idle] == w.threads[tid := Idle];
  }

  lemma ExecuteCall<K(!new), V(!new)>(hash: K -> nat, w: World<K, V>, tid: nat, op: Op<K, V>, over: bool)
    requires 0 < |w.table.chains|
    ensures Execute(hash, w, CallSteps(tid, op, over)) ==
            Act(hash, Act(hash, Act(hash, Act(hash, Act(hash, w, Invoke(tid, op)), Lock(tid)), Test(tid, over)),
                                LockRehash(tid)), Return(tid))
  {
    hide Act, Execute;
    ExecuteFive(hash, w, CallSteps(tid, op, over));
  }

  lemma ExecuteFrom<K(!new), V(!new)>(hash: K -> nat, w: World<K, V>, steps: seq<Step<K, V>>, i: nat)
    requires 0 < |w.table.chains| && i < |steps|
    ensures Execute(hash, w, steps[i..]) == Execute(hash, Act(hash, w, steps[i]), steps[i + 1..])
  {
    hide Act;
    assert steps[i..][0] == steps[i] && steps[i..][1..] == steps[i + 1..];
  }

  lemma ExecuteFive<K(!new), V(!new)>(hash: K -> nat, w: World<K, V>, steps: seq<Step<K, V>>)
    requires 0 < |w.table.chains| && |steps| == 5
    ensures Execute(hash, w, steps) ==
            Act(hash, Act(hash, Act(hash, Act(hash, Act(hash, w, steps[0]), steps[1]), steps[2]), steps[3]), steps[4])
  {
    hide Act, Execute;
    assert steps[0..] == steps && steps[5..] == [];
    ExecuteFrom(hash, w, steps, 0);
    var w1 := Act(hash, w, steps[0]);
    ExecuteFrom(hash, w1, steps, 1);
    var w2 := Act(hash, w1, steps[1]);
    ExecuteFrom(hash, w2, steps, 2);
    var w3 := Act(hash, w2, steps[2]);
    ExecuteFrom(hash, w3, steps, 3);
    var w4 := Act(hash, w3, steps[3]);
    ExecuteFrom(hash, w4, steps, 4);
    ExecuteNone(hash, Act(hash, w4, steps[4]));
  }

  lemma ExecuteNone<K(!new), V(!new)>(hash: K -> nat, w: World<K, V>)
    requires 0 < |w.table.chains|
    ensures Execute(hash, w, []) == w
  {
  }

  // The call and its locked section.
  lemma CallSection<K(!new), V(!new)>(hash: K -> nat, w: World<K, V>, tid: nat, op: Op<K, V>)
    requires 0 < |w.table.chains| && PhaseOf(w, tid).Idle?
    ensures var (t, out) := Section(hash, w.table, op);
            Act(hash, Act(hash, w, Invoke(tid, op)), Lock(tid)) ==
            w.(table := t, log := w.log + [(op, out)], now := w.now + 2,
               threads := w.threads[tid := Ran(Call(op, w.now, |w.log|), out, |w.log|, Testing)])
  {
    hide Section, Buckets.Rehash, Tests;
    var w1 := Act(hash, w, Invoke(tid, op));
    assert w1 == w.(threads := w.threads[tid := Called(Call(op, w.now, |w.log|))], now := w.now + 1);
    assert PhaseOf(w1, tid) == Called(Call(op, w.now, |w.log|));
    var (_, out) := Section(hash, w.table, op);
    var ran := Ran(Call(op, w.now, |w.log|), out, |w.log|, Testing);
    assert w1.threads[tid := ran] == w.threads[tid := ran];
  }

  // The load test, the rehash it may call for, and the return.
  lemma CallEnds<K(!new), V(!new)>(hash: K -> nat, w: World<K, V>, tid: nat, over: bool)
    requires 0 < |w.table.chains| && PhaseOf(w, tid).Ran? && PhaseOf(w, tid).stage == Testing
    ensures var Ran(call, out, at, _) := PhaseOf(w, tid);
            var t := if over && Tests(call.op, out) && !w.table.frozen then Buckets.Rehash(hash, w.table) else w.table;
            Act(hash, Act(hash, Act(hash, w, Test(tid, over)), LockRehash(tid)), Return(tid)) ==
            w.(table := t, threads := w.threads[tid := Idle], now := w.now + 3,
               history := w.history + [Completed(call, out, at, w.now + 2)])
  {
    hide Section, Buckets.Rehash, Tests;
    var Ran(call, out, at, _) := PhaseOf(w, tid);
    var w1 := Act(hash, w, Test(tid, over));
    var w2 := Act(hash, w1, LockRehash(tid));
    assert PhaseOf(w2, tid) == Ran(call, out, at, Returning);
    assert w2.threads[tid := Idle] == w.threads[tid := Idle];
  }

  // A step of one thread leaves the phases of the others alone.
  lemma OthersStay<K(!new), V(!new)>(hash: K -> nat, w: World<K, V>, s: Step<K, V>, tid: nat)
    requires 0 < |w.table.chains| && tid != s.tid
    ensures PhaseOf(Act(hash, w, s), tid) == PhaseOf(w, tid)
  {
    hide Section, Buckets.Rehash, Tests;
  }
}
