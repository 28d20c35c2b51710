/** Exactly when a node runs out of timer slots and crashes, in runs with loss
    and route removal. */
module Crashes {
  import opened Options
  import opened Decimals
  import opened Protocol
  import opened Network
  import opened Timers

  // The event opens a request at a: its destination is neither cached nor pending there.
  predicate Opens(s: Net, e: Event, a: Addr) {
    Handled(s, e) && Actor(e) == a &&
    match e
    case AddRoute(_, dst, _) => Unheard(s.nodes[a], dst)
    case DeliverNreq(q) => Unheard(s.nodes[a], q.dst)
    case _ => false
  }

  predicate Unheard(n: Node, dst: Addr) {
    dst !in n.cache && dst !in n.pnrs
  }

  // A timer of a fires and is not restarted.
  predicate Frees(s: Net, e: Event, a: Addr) {
    Handled(s, e) && Actor(e) == a && e.Fire? &&
    !(Key(e.slot) in s.nodes[a].timers && s.nodes[a].timers[Key(e.slot)] in s.nodes[a].pnrs && e.route.Some?)
  }

  function BusySlots(slots: seq<nat>): set<nat> {
    set i: nat | i < |slots| && slots[i] != 0
  }

  lemma SlotTaken(slots: seq<nat>, i: nat, id: nat)
    requires i < |slots| && slots[i] == 0 && id != 0
    ensures |BusySlots(slots[i := id])| == |BusySlots(slots)| + 1
  {
    assert BusySlots(slots[i := id]) == BusySlots(slots) + {i};
  }

  lemma SlotFreed(slots: seq<nat>, i: nat)
    requires i < |slots| && slots[i] != 0
    ensures |BusySlots(slots)| == |BusySlots(slots[i := 0])| + 1
  {
    assert BusySlots(slots) == BusySlots(slots[i := 0]) + {i};
  }

  function Indices(m: nat): (r: set<nat>)
    ensures |r| == m && forall i: nat :: i in r <==> i < m
  {
    if m == 0 then {} else Indices(m - 1) + {m - 1}
  }

  // There is no free slot exactly if all are busy.
  lemma NoneFree(slots: seq<nat>)
    ensures |BusySlots(slots)| <= |slots|
    ensures FreeSlot(slots) == |slots| <==> |BusySlots(slots)| == |slots|
  {
    var free := Indices(|slots|) - BusySlots(slots);
    assert Indices(|slots|) == BusySlots(slots) + free;
    if FreeSlot(slots) < |slots| {
      assert FreeSlot(slots) in free;
    } else {
      assert free == {};
    }
  }

  // Starting a timer takes a slot or crashes the node.
  lemma StartTakes(n: Node, dst: Addr)
    requires |n.slots| == N_TIMERS && !n.crashed
    ensures var t := StartTimer(n, dst);
            if |BusySlots(n.slots)| == N_TIMERS then t.crashed
            else !t.crashed && |BusySlots(t.slots)| == |BusySlots(n.slots)| + 1
  {
    hide Digits;
    NoneFree(n.slots);
    var i := FreeSlot(n.slots);
    if i < N_TIMERS { SlotTaken(n.slots, i, i + 1); }
  }

  lemma RegisterTakes(n: Node, dst: Addr, requester: Option<Addr>)
    requires |n.slots| == N_TIMERS && !n.crashed
    ensures var t := Register(n, dst, requester);
            if dst in n.pnrs then t.slots == n.slots && !t.crashed
            else if |BusySlots(n.slots)| == N_TIMERS then t.crashed
            else !t.crashed && |BusySlots(t.slots)| == |BusySlots(n.slots)| + 1
  {
    hide StartTimer, BusySlots;
    if dst !in n.pnrs { StartTakes(n.(pnrs := n.pnrs[dst := [requester]]), dst); }
  }

  lemma TimeoutTakes(self: Addr, n: Node, slot: nat, route: Option<Addr>)
    requires TimerPool(n) && slot in n.armed && !n.crashed
    ensures var t := Timeout(self, n, slot, route).node;
            && !t.crashed && Key(slot) in n.timers
            && |BusySlots(n.slots)| ==
               |BusySlots(t.slots)| + if n.timers[Key(slot)] in n.pnrs && route.Some? then 0 else 1
  {
    hide TimerPool, StartTimer, Timeout, Key, BusySlots;
    TimerFires(self, n, slot, route);
    SlotFreed(n.slots, slot);
    var n1, dst := Stopped(n, slot), n.timers[Key(slot)];
    NoneFree(n1.slots);
    StartTakes(n1, dst);
  }

  // What one handler does to the node's slots.
  lemma HandleTakes(s: Net, e: Event)
    requires Handled(s, e) && TimerPool(s.nodes[Actor(e)])
    ensures var a := Actor(e);
            var n, t := s.nodes[a], Handle(s, e).node;
            && (t.crashed <==> Opens(s, e, a) && |BusySlots(n.slots)| == N_TIMERS)
            && (!t.crashed ==> |BusySlots(t.slots)| + (if Frees(s, e, a) then 1 else 0) ==
                               |BusySlots(n.slots)| + (if Opens(s, e, a) then 1 else 0))
  {
    var n := s.nodes[Actor(e)];
    assert |n.slots| == N_TIMERS;
    hide TimerPool, Register, Timeout, Replies, Key, BusySlots;
    match e {
      case AddRoute(_, dst, _) => RegisterTakes(n, dst, None);
      case RemoveRoute(_, _) =>
      case Fire(a, slot, route) => TimeoutTakes(a, n, slot, route);
      case DeliverNreq(q) => RegisterTakes(n, q.dst, Some(q.src));
      case DeliverNrep(_) =>
    }
  }

  // The same for an event of the network, seen from node a.
  lemma StepTakes(s: Net, e: Event, a: Addr)
    requires a in s.nodes && TimerPool(s.nodes[a])
    ensures var t := Apply(s, e);
            && a in t.nodes && !(Opens(s, e, a) && Frees(s, e, a))
            && (s.nodes[a].crashed ==> t.nodes[a].crashed && !Opens(s, e, a) && !Frees(s, e, a))
            && (!s.nodes[a].crashed ==>
                  && (t.nodes[a].crashed <==> Opens(s, e, a) && |BusySlots(s.nodes[a].slots)| == N_TIMERS)
                  && (!t.nodes[a].crashed ==>
                        |BusySlots(t.nodes[a].slots)| + (if Frees(s, e, a) then 1 else 0) ==
                        |BusySlots(s.nodes[a].slots)| + (if Opens(s, e, a) then 1 else 0)))
  {
    hide Apply, Handle, TimerPool, BusySlots;
    NodesStep(s, e);
    if Handled(s, e) {
      ActorIsNode(s, e);
      if Actor(e) == a { HandleTakes(s, e); }
    }
  }

  // In every run, a handler crashes its node exactly if it opens a request while all slots are busy.
  lemma CrashesExactly(hosts: map<Addr, Name>, events: seq<Event>, e: Event)
    requires Handled(Run(Start(hosts), events), e)
    ensures var s := Run(Start(hosts), events);
            var a := Actor(e);
            && a in s.nodes && a in Apply(s, e).nodes
            && (Apply(s, e).nodes[a].crashed <==> Opens(s, e, a) && FreeSlot(s.nodes[a].slots) == N_TIMERS)
  {
    var s := Run(Start(hosts), events);
    ActorIsNode(s, e);
    RunSound(hosts, events);
    hide Apply, Run, Sound, BusySlots;
    SameNodes(hosts, s);
    TimerPoolAlways(hosts, events, Actor(e));
    StepTakes(s, e, Actor(e));
    NoneFree(s.nodes[Actor(e)].slots);
  }

  lemma SameNodes(hosts: map<Addr, Name>, s: Net)
    requires Sound(hosts, s)
    ensures s.nodes.Keys == hosts.Keys
  {
    hide GoodNode, GoodReply;
  }

  // Requests opened at a in a run, and timers that fired there without being restarted.
  function Opened(s: Net, events: seq<Event>, a: Addr): nat {
    if events == [] then 0
    else
      var front, e := events[..|events| - 1], events[|events| - 1];
      Opened(s, front, a) + if Opens(Run(s, front), e, a) then 1 else 0
  }

  function Freed(s: Net, events: seq<Event>, a: Addr): nat {
    if events == [] then 0
    else
      var front, e := events[..|events| - 1], events[|events| - 1];
      Freed(s, front, a) + if Frees(Run(s, front), e, a) then 1 else 0
  }

  lemma NotYetCrashed(hosts: map<Addr, Name>, a: Addr)
    requires a in hosts
    ensures var s := Run(Start(hosts), []);
            && a in s.nodes && !s.nodes[a].crashed
            && BusySlots(s.nodes[a].slots) == {} && s.nodes[a].pnrs == map[] && s.nodes[a].cache.Keys == {a}
  {
  }

  // The books of a's timers: requests opened minus timers freed are the busy slots, and one too many is a crash.
  lemma {:induction false} TimerBooks(hosts: map<Addr, Name>, events: seq<Event>, a: Addr)
    requires a in hosts
    ensures var s := Run(Start(hosts), events);
            var balance := Opened(Start(hosts), events, a) - Freed(Start(hosts), events, a);
            && a in s.nodes
            && (s.nodes[a].crashed <==> balance > N_TIMERS)
            && (!s.nodes[a].crashed ==> balance == |BusySlots(s.nodes[a].slots)|)
            && 0 <= balance <= N_TIMERS + 1
  {
    hide Start, Apply, TimerPool, Opens, Frees, BusySlots;
    if events == [] {
      NotYetCrashed(hosts, a);
    } else {
      var front, e := events[..|events| - 1], events[|events| - 1];
      var s := Run(Start(hosts), front);
      TimerBooks(hosts, front, a);
      TimerPoolAlways(hosts, front, a);
      StepTakes(s, e, a);
      assert |s.nodes[a].slots| == N_TIMERS by { PoolSize(s.nodes[a]); }
      NoneFree(s.nodes[a].slots);
    }
  }

  lemma PoolSize(n: Node)
    requires TimerPool(n)
    ensures |n.slots| == N_TIMERS
  {
  }

  // The k-th event of a run opens a request at a while all its slots are busy.
  predicate Overflows(s: Net, events: seq<Event>, k: nat, a: Addr)
    requires k < |events|
  {
    var t := Run(s, events[..k]);
    Opens(t, events[k], a) && FreeSlot(t.nodes[a].slots) == |t.nodes[a].slots|
  }

  lemma OverflowCrashes(hosts: map<Addr, Name>, events: seq<Event>, a: Addr)
    requires a in hosts && events != []
    ensures var s := Run(Start(hosts), events[..|events| - 1]);
            var t := Run(Start(hosts), events);
            && a in s.nodes && a in t.nodes
            && (t.nodes[a].crashed <==> s.nodes[a].crashed || Overflows(Start(hosts), events, |events| - 1, a))
  {
    var front := events[..|events| - 1];
    var s := Run(Start(hosts), front);
    hide Apply, BusySlots;
    TimerPoolAlways(hosts, front, a);
    PoolSize(s.nodes[a]);
    hide TimerPool, Start, Frees;
    StepTakes(s, events[|events| - 1], a);
    NoneFree(s.nodes[a].slots);
  }

  lemma OverflowsFront(s: Net, events: seq<Event>, k: nat, a: Addr)
    requires k < |events| - 1
    ensures Overflows(s, events[..|events| - 1], k, a) <==> Overflows(s, events, k, a)
  {
    assert events[..|events| - 1][..k] == events[..k];
  }

  // A node has crashed exactly if some event of the run opened a request while all its slots were busy.
  lemma {:induction false} CrashedWhen(hosts: map<Addr, Name>, events: seq<Event>, a: Addr)
    requires a in hosts
    ensures a in Run(Start(hosts), events).nodes
    ensures Run(Start(hosts), events).nodes[a].crashed <==>
            exists k :: 0 <= k < |events| && Overflows(Start(hosts), events, k, a)
  {
    hide Run, Start, Overflows;
    if events == [] {
      NotYetCrashed(hosts, a);
    } else {
      var front := events[..|events| - 1];
      CrashedWhen(hosts, front, a);
      OverflowCrashes(hosts, events, a);
      forall k | 0 <= k < |front|
        ensures Overflows(Start(hosts), front, k, a) <==> Overflows(Start(hosts), events, k, a)
      {
        OverflowsFront(Start(hosts), events, k, a);
      }
    }
  }

  // Events that may open a request at a, whatever the state.
  function MayOpen(events: seq<Event>, a: Addr): nat {
    if events == [] then 0
    else
      MayOpen(events[..|events| - 1], a) +
      match events[|events| - 1]
      case AddRoute(b, _, _) => if a == b then 1 else 0
      case DeliverNreq(q) => if a == q.to then 1 else 0
      case _ => 0
  }

  lemma {:induction false} OpenedBound(s: Net, events: seq<Event>, a: Addr)
    ensures Opened(s, events, a) <= MayOpen(events, a)
  {
    if events == [] {
    } else {
      OpenedBound(s, events[..|events| - 1], a);
    }
  }

  // A node that is told of at most N_TIMERS routes and requests does not crash, whatever else happens.
  lemma FewRequestsNoCrash(hosts: map<Addr, Name>, events: seq<Event>, a: Addr)
    requires a in hosts && MayOpen(events, a) <= N_TIMERS
    ensures Live(Run(Start(hosts), events), a)
  {
    hide Run, Opened, Freed;
    TimerBooks(hosts, events, a);
    OpenedBound(Start(hosts), events, a);
  }

  // ----- A flapping route -----

  // A route to d that comes and goes k times.
  function Flapping(a: Addr, d: Addr, hop: Addr, k: nat): seq<Event> {
    if k == 0 then [] else Flapping(a, d, hop, k - 1) + [AddRoute(a, d, hop)] + [RemoveRoute(a, d)]
  }

  lemma RouteFlaps(s: Net, a: Addr, d: Addr, hop: Addr)
    requires Live(s, a) && d !in s.nodes[a].cache && d !in s.nodes[a].pnrs
    ensures var s1 := Apply(s, AddRoute(a, d, hop));
            var s2 := Apply(s1, RemoveRoute(a, d));
            && a in s1.nodes && a in s2.nodes && d !in s2.nodes[a].cache
            && (!s2.nodes[a].crashed ==> d !in s2.nodes[a].pnrs)
            && s2.nodes[a].crashed == s1.nodes[a].crashed && s2.nodes[a].slots == s1.nodes[a].slots
  {
    hide Answers, StartTimer;
    TimerTouchesOnlyTimers();
    NodesStep(s, AddRoute(a, d, hop));
    NodesStep(Apply(s, AddRoute(a, d, hop)), RemoveRoute(a, d));
    hide Apply;
  }

  // One more slot is taken, or the node crashes.
  lemma FlapTakes(s: Net, a: Addr, d: Addr, hop: Addr)
    requires a in s.nodes && TimerPool(s.nodes[a]) && d !in s.nodes[a].cache
    requires !s.nodes[a].crashed ==> d !in s.nodes[a].pnrs
    ensures var n, t := s.nodes[a], Apply(Apply(s, AddRoute(a, d, hop)), RemoveRoute(a, d));
            && a in t.nodes && d !in t.nodes[a].cache
            && (t.nodes[a].crashed <==> n.crashed || |BusySlots(n.slots)| == N_TIMERS)
            && (!t.nodes[a].crashed ==>
                  |BusySlots(t.nodes[a].slots)| == |BusySlots(n.slots)| + 1 && d !in t.nodes[a].pnrs)
  {
    hide TimerPool, BusySlots;
    if s.nodes[a].crashed {
    } else {
      hide Apply;
      RouteFlaps(s, a, d, hop);
      StepTakes(s, AddRoute(a, d, hop), a);
    }
  }

  // Each time the route comes back it takes another slot, although at most one request is pending:
  // the node crashes exactly if the route comes more than N_TIMERS times.
  lemma {:induction false} FlappingCrashes(hosts: map<Addr, Name>, a: Addr, d: Addr, hop: Addr, k: nat)
    requires a in hosts && a != d
    ensures var s := Run(Start(hosts), Flapping(a, d, hop, k));
            && a in s.nodes && d !in s.nodes[a].cache
            && (s.nodes[a].crashed <==> k > N_TIMERS)
            && (k <= N_TIMERS ==> |BusySlots(s.nodes[a].slots)| == k && d !in s.nodes[a].pnrs)
  {
    hide Run, Apply, Start, BusySlots, TimerPool;
    if k == 0 {
      NotYetCrashed(hosts, a);
    } else {
      var before := Flapping(a, d, hop, k - 1);
      FlappingCrashes(hosts, a, d, hop, k - 1);
      TimerPoolAlways(hosts, before, a);
      RunOne(Start(hosts), before, AddRoute(a, d, hop));
      RunOne(Start(hosts), before + [AddRoute(a, d, hop)], RemoveRoute(a, d));
      FlapTakes(Run(Start(hosts), before), a, d, hop);
    }
  }
}
