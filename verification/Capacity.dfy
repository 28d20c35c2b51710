/** When the timers suffice: with at most N_TIMERS destinations and no route
    removal no node ever runs out of timer slots, so none crashes. */
module Capacity {
  import opened Options
  import opened Protocol
  import opened Network
  import opened Timers
  import opened Convergence

  ghost predicate OneTimerEach(n: Node) {
    forall k, k' :: k in n.timers && k' in n.timers && k != k' ==> n.timers[k] != n.timers[k']
  }

  // At most one timer per destination, for destinations in D that are pending or already known.
  ghost predicate Frugal(n: Node, D: set<Addr>) {
    && OneTimerEach(n)
    && (forall k :: k in n.timers ==> n.timers[k] in D && (n.timers[k] in n.pnrs || n.timers[k] in n.cache))
    && (forall d :: d in n.pnrs ==> d in D)
  }

  ghost predicate GoodTimers(n: Node, D: set<Addr>) {
    TimerPool(n) && Frugal(n, D) && !n.crashed
  }

  function TimedBelow(n: Node, k: nat): set<Addr> {
    set i: nat | i < k && Key(i) in n.timers :: n.timers[Key(i)]
  }

  lemma TimedNext(n: Node, k: nat)
    requires OneTimerEach(n) && Key(k) in n.timers
    ensures n.timers[Key(k)] !in TimedBelow(n, k)
    ensures TimedBelow(n, k + 1) == TimedBelow(n, k) + {n.timers[Key(k)]}
  {
    hide Key;
    forall i: nat | i < k
      ensures Key(i) != Key(k)
    {
      KeyInjective(i, k);
    }
  }

  lemma {:induction false} TimedBelowSize(n: Node, k: nat)
    requires OneTimerEach(n) && forall i: nat :: i < k ==> Key(i) in n.timers
    ensures |TimedBelow(n, k)| == k
  {
    hide Key, OneTimerEach;
    if k == 0 {
    } else {
      TimedBelowSize(n, k - 1);
      TimedNext(n, k - 1);
      hide TimedBelow;
    }
  }

  // A destination in D without a timer leaves a slot for it.
  lemma SlotLeft(n: Node, D: set<Addr>, dst: Addr)
    requires TimerPool(n) && Frugal(n, D) && |D| <= N_TIMERS && dst in D && !HasTimer(n, dst)
    ensures FreeSlot(n.slots) < N_TIMERS
  {
    hide Key;
    if FreeSlot(n.slots) == N_TIMERS {
      forall i: nat | i < N_TIMERS
        ensures Key(i) in n.timers
      {
        assert Busy(n, i);
      }
      TimedBelowSize(n, N_TIMERS);
      TimedWithin(n, D, dst, N_TIMERS);
    }
  }

  lemma TimedWithin(n: Node, D: set<Addr>, dst: Addr, k: nat)
    requires Frugal(n, D) && dst in D && !HasTimer(n, dst)
    ensures |TimedBelow(n, k)| < |D|
  {
    hide Key;
    var S := TimedBelow(n, k);
    assert S <= D - {dst};
    assert D == S + (D - S) && dst in D - S;
  }

  lemma StartFrugal(n: Node, D: set<Addr>, dst: Addr)
    requires GoodTimers(n, D) && |D| <= N_TIMERS && dst in D && !HasTimer(n, dst) && (dst in n.pnrs || dst in n.cache)
    ensures GoodTimers(StartTimer(n, dst), D)
  {
    SlotLeft(n, D, dst);
    StartTimerPool(n, dst);
    hide SlotsHoldIds, BusyAreArmed, BusyAreListed, HasTimer, Frugal;
    AddedFrugal(n, StartTimer(n, dst), D, Key(FreeSlot(n.slots)), dst);
  }

  lemma AddedFrugal(n: Node, t: Node, D: set<Addr>, key: string, dst: Addr)
    requires Frugal(n, D) && dst in D && !HasTimer(n, dst) && (dst in n.pnrs || dst in n.cache)
    requires t.timers == n.timers[key := dst] && t.pnrs == n.pnrs && t.cache == n.cache
    ensures Frugal(t, D)
  {
  }

  lemma RegisterFrugal(n: Node, D: set<Addr>, dst: Addr, requester: Option<Addr>)
    requires GoodTimers(n, D) && |D| <= N_TIMERS && dst in D && dst !in n.cache
    ensures GoodTimers(Register(n, dst, requester), D)
  {
    hide TimerPool, StartTimer;
    var n0 := n.(pnrs := n.pnrs[dst := [requester]]);
    if dst in n.pnrs {
      PoolIgnoresPnrs(n, Register(n, dst, requester));
    } else {
      PoolIgnoresPnrs(n, n0);
      StartFrugal(n0, D, dst);
    }
  }

  // A fired timer was the only one for its destination.
  lemma StoppedFrugal(n: Node, D: set<Addr>, slot: nat)
    requires Frugal(n, D) && slot < |n.slots| && Key(slot) in n.timers
    ensures Frugal(Stopped(n, slot), D) && n.timers[Key(slot)] in D
    ensures !HasTimer(Stopped(n, slot), n.timers[Key(slot)])
  {
    hide Key;
  }

  lemma TimeoutFrugal(self: Addr, n: Node, D: set<Addr>, slot: nat, route: Option<Addr>)
    requires GoodTimers(n, D) && |D| <= N_TIMERS && slot in n.armed
    ensures GoodTimers(Timeout(self, n, slot, route).node, D)
    ensures forall q :: q in Timeout(self, n, slot, route).nreqs ==> q.dst in D
  {
    hide Timeout, TimerPool, StartTimer, Key, Frugal, HasTimer;
    TimerFires(self, n, slot, route);
    StoppedFrugal(n, D, slot);
    var n1, dst := Stopped(n, slot), n.timers[Key(slot)];
    if dst in n.pnrs && route.Some? {
      StartFrugal(n1, D, dst);
    }
  }

  lemma HandleFrugal(s: Net, e: Event, D: set<Addr>)
    requires Handled(s, e) && !e.RemoveRoute? && GoodTimers(s.nodes[Actor(e)], D) && |D| <= N_TIMERS
    requires (e.AddRoute? ==> e.dst in D) && (e.DeliverNreq? ==> e.q.dst in D)
    ensures GoodTimers(Handle(s, e).node, D) && forall q :: q in Handle(s, e).nreqs ==> q.dst in D
  {
    var n := s.nodes[Actor(e)];
    hide TimerPool, StartTimer, Register, Replies, Timeout;
    match e {
      case AddRoute(_, dst, _) => if dst !in n.cache { RegisterFrugal(n, D, dst, None); }
      case Fire(a, slot, route) => TimeoutFrugal(a, n, D, slot, route);
      case DeliverNreq(q) => if q.dst !in n.cache { RegisterFrugal(n, D, q.dst, Some(q.src)); }
      case DeliverNrep(p) => PoolIgnoresPnrs(n, Handle(s, e).node);
    }
  }

  lemma BootFrugal(self: Addr, hostname: Name, D: set<Addr>)
    ensures GoodTimers(Boot(self, hostname), D)
  {
    hide Key;
  }

  // The destinations named by route events.
  ghost predicate RoutesWithin(events: seq<Event>, D: set<Addr>) {
    forall e :: e in events ==> !e.RemoveRoute? && (e.AddRoute? ==> e.dst in D)
  }

  ghost predicate Frugals(s: Net, D: set<Addr>) {
    && (forall a :: a in s.nodes ==> GoodTimers(s.nodes[a], D))
    && (forall q :: q in s.asked ==> q.dst in D)
  }

  lemma FrugalStep(s: Net, e: Event, D: set<Addr>)
    requires Frugals(s, D) && |D| <= N_TIMERS && !e.RemoveRoute? && (e.AddRoute? ==> e.dst in D)
    requires forall q :: q in s.nreqs ==> q in s.asked
    ensures Frugals(Apply(s, e), D)
  {
    hide Apply, Handle, GoodTimers, NreqsLeft, NrepsLeft;
    NodesStep(s, e);
    MessagesStep(s, e);
    if Handled(s, e) {
      HandleFrugal(s, e, D);
    }
  }

  lemma StartFrugals(hosts: map<Addr, Name>, D: set<Addr>)
    ensures Frugals(Start(hosts), D)
  {
    hide GoodTimers;
    forall a | a in hosts
      ensures GoodTimers(Boot(a, hosts[a]), D)
    {
      BootFrugal(a, hosts[a], D);
    }
  }

  lemma FrugalsLive(hosts: map<Addr, Name>, s: Net, D: set<Addr>)
    requires Frugals(s, D) && s.nodes.Keys == hosts.Keys
    ensures forall a :: a in hosts ==> Live(s, a)
  {
    hide TimerPool, Frugal;
  }

  lemma SoundParts(hosts: map<Addr, Name>, s: Net)
    requires Sound(hosts, s)
    ensures s.nodes.Keys == hosts.Keys && forall q :: q in s.nreqs ==> q in s.asked
  {
    hide GoodNode, GoodReply;
  }

  // At most N_TIMERS destinations and no route removal: no node ever crashes.
  lemma {:induction false} NoCrash(hosts: map<Addr, Name>, events: seq<Event>, D: set<Addr>)
    requires RoutesWithin(events, D) && |D| <= N_TIMERS
    ensures Frugals(Run(Start(hosts), events), D)
    ensures forall a :: a in hosts ==> Live(Run(Start(hosts), events), a)
  {
    hide Apply, Frugals, Start, Sound, Live;
    if events == [] {
      StartFrugals(hosts, D);
    } else {
      var front, e := events[..|events| - 1], events[|events| - 1];
      assert events == front + [e];
      NoCrash(hosts, front, D);
      RunSound(hosts, front);
      SoundParts(hosts, Run(Start(hosts), front));
      FrugalStep(Run(Start(hosts), front), e, D);
    }
    RunSound(hosts, events);
    SoundParts(hosts, Run(Start(hosts), events));
    FrugalsLive(hosts, Run(Start(hosts), events), D);
  }

  // ----- The bound is sharp -----

  // A node that knows itself only, with requests and busy slots for exactly dsts.
  ghost predicate Filled(a: Addr, n: Node, dsts: seq<Addr>) {
    && n.cache.Keys == {a} && !n.crashed && |n.slots| == N_TIMERS
    && (forall d :: d in n.pnrs <==> d in dsts)
    && (forall i :: 0 <= i < N_TIMERS ==> (n.slots[i] != 0 <==> i < |dsts|))
  }

  // Filled as long as there are slots, crashed afterwards.
  ghost predicate FilledOrCrashed(a: Addr, s: Net, dsts: seq<Addr>) {
    a in s.nodes && if |dsts| <= N_TIMERS then Filled(a, s.nodes[a], dsts) else s.nodes[a].crashed
  }

  lemma FilledStep(a: Addr, n: Node, dsts: seq<Addr>, d: Addr, hop: Addr)
    requires Filled(a, n, dsts) && |dsts| <= N_TIMERS && d !in dsts && d != a
    ensures var t := RouteAdded(a, n, d, hop).node;
            if |dsts| < N_TIMERS then Filled(a, t, dsts + [d]) else t.crashed
  {
    assert |dsts| < N_TIMERS ==> n.slots[|dsts|] == 0;
    assert FreeSlot(n.slots) == |dsts|;
  }

  lemma FilledApply(a: Addr, s: Net, dsts: seq<Addr>, d: Addr, hop: Addr)
    requires FilledOrCrashed(a, s, dsts) && d !in dsts && d != a
    ensures FilledOrCrashed(a, Apply(s, AddRoute(a, d, hop)), dsts + [d])
  {
    NodesStep(s, AddRoute(a, d, hop));
    hide Apply, RouteAdded;
    if |dsts| <= N_TIMERS { FilledStep(a, s.nodes[a], dsts, d, hop); }
  }

  function RoutesAdded(a: Addr, dsts: seq<Addr>, hop: Addr): seq<Event> {
    if dsts == [] then [] else RoutesAdded(a, dsts[..|dsts| - 1], hop) + [AddRoute(a, dsts[|dsts| - 1], hop)]
  }

  // Routes to different unknown destinations crash a node exactly if there are more than N_TIMERS.
  lemma {:induction false} CrashesBeyond(hosts: map<Addr, Name>, a: Addr, dsts: seq<Addr>, hop: Addr)
    requires a in hosts && a !in dsts && forall i, j :: 0 <= i < j < |dsts| ==> dsts[i] != dsts[j]
    ensures var s := Run(Start(hosts), RoutesAdded(a, dsts, hop));
            FilledOrCrashed(a, s, dsts) && (s.nodes[a].crashed <==> |dsts| > N_TIMERS)
  {
    hide Apply;
    if dsts == [] {
    } else {
      hide Start, Filled;
      var front, d := dsts[..|dsts| - 1], dsts[|dsts| - 1];
      CrashesBeyond(hosts, a, front, hop);
      assert dsts == front + [d];
      var before := RoutesAdded(a, front, hop);
      FilledApply(a, Run(Start(hosts), before), front, d, hop);
      RunOne(Start(hosts), before, AddRoute(a, d, hop));
    }
  }

  // Convergence without the crash assumption: a run about at most N_TIMERS destinations, in which no route is
  // removed and no request along the routes to dst is lost.
  lemma NamesConverge(hosts: map<Addr, Name>, events: seq<Event>, D: set<Addr>, nodes: set<Addr>, dst: Addr,
                      next: map<Addr, Addr>, dist: map<Addr, nat>)
    requires RoutesWithin(events, D) && |D| <= N_TIMERS
    requires dst in nodes && nodes <= hosts.Keys && LoopFree(nodes, dst, next, dist)
    requires RoutesSeen(events, nodes, dst, next) && RoutesLossFree(events, nodes, dst, next)
    requires AllSettled(Run(Start(hosts), events), nodes, dst, next)
    ensures var s := Run(Start(hosts), events);
            forall n :: n in nodes ==> Knows(s, n, dst) && s.nodes[n].cache[dst] == hosts[dst]
  {
    var s := Run(Start(hosts), events);
    NoCrash(hosts, events, D);
    assert NothingLost(Start(hosts), nodes, dst, next);
    hide Run, Start, RoutesWithin, RoutesSeen, RoutesLossFree, NothingLost, AllSettled, LoopFree, Frugals;
    RoutesKeep(Start(hosts), events, nodes, dst, next, dist);
    forall n | n in nodes
      ensures Knows(s, n, dst) && s.nodes[n].cache[dst] == hosts[dst]
    {
      ConvergesAt(hosts, events, nodes, dst, next, dist, n);
    }
  }
}
