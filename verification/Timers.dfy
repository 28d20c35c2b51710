/** The pool of retry timers of a node. */
module Timers {
  import opened Options
  import opened Decimals
  import opened Protocol
  import opened Network

  // The key of a slot in the timers table: its id in decimal.
  function Key(slot: nat): string {
    Digits(slot + 1)
  }

  // A slot holds 0 or its index plus one.
  ghost predicate SlotsHoldIds(n: Node) {
    |n.slots| == N_TIMERS && forall i :: 0 <= i < N_TIMERS ==> n.slots[i] == 0 || n.slots[i] == i + 1
  }

  predicate Busy(n: Node, i: nat) {
    i < |n.slots| && n.slots[i] != 0
  }

  // Exactly the busy slots have a running timer, one each.
  ghost predicate BusyAreArmed(n: Node) {
    forall i: nat :: n.armed[i] == if Busy(n, i) then 1 else 0
  }

  // Exactly the busy slots have an entry in the timers table.
  ghost predicate BusyAreListed(n: Node) {
    && (forall i: nat {:trigger Key(i)} :: Busy(n, i) <==> Key(i) in n.timers)
    && (forall key :: key in n.timers ==> exists i: nat :: Busy(n, i) && key == Key(i))
  }

  ghost predicate TimerPool(n: Node) {
    SlotsHoldIds(n) && BusyAreArmed(n) && BusyAreListed(n)
  }

  lemma KeyInjective(i: nat, j: nat)
    ensures Key(i) == Key(j) ==> i == j
  {
    if Key(i) == Key(j) { DigitsInjective(i + 1, j + 1); }
  }

  lemma ListedChange(n: Node, t: Node, i: nat)
    requires BusyAreListed(n) && forall j: nat :: j != i ==> (Busy(t, j) <==> Busy(n, j))
    requires if Busy(t, i) then t.timers.Keys == n.timers.Keys + {Key(i)} else t.timers.Keys == n.timers.Keys - {Key(i)}
    ensures BusyAreListed(t)
  {
    hide Key, Busy;
    forall j: nat
      ensures Busy(t, j) <==> Key(j) in t.timers.Keys
    {
      KeyInjective(i, j);
    }
    forall key | key in t.timers
      ensures exists j: nat :: Busy(t, j) && key == Key(j)
    {
      if key == Key(i) {
        assert Busy(t, i);
      } else {
        var j: nat :| Busy(n, j) && key == Key(j);
        assert Busy(t, j);
      }
    }
  }

  lemma StartTimerPool(n: Node, dst: Addr)
    requires TimerPool(n)
    ensures TimerPool(StartTimer(n, dst))
  {
    var i := FreeSlot(n.slots);
    if i < N_TIMERS {
      var t := StartTimer(n, dst);
      assert t.timers == n.timers[Key(i) := dst];
      hide Key, Digits;
      ListedChange(n, t, i);
    }
  }

  // The node after the timer of a slot has fired and been removed.
  function Stopped(n: Node, slot: nat): Node
    requires slot < |n.slots|
  {
    n.(timers := n.timers - {Key(slot)}, slots := n.slots[slot := 0], armed := n.armed - multiset{slot})
  }

  lemma StoppedPool(n: Node, slot: nat)
    requires TimerPool(n) && Busy(n, slot)
    ensures TimerPool(Stopped(n, slot)) && FreeSlot(Stopped(n, slot).slots) < N_TIMERS
  {
    hide Key, Digits;
    var t := Stopped(n, slot);
    assert t.slots[slot] == 0;
    ListedChange(n, t, slot);
  }

  // A running timer's slot holds its id, and its entry is in the timers table.
  lemma RunningTimer(n: Node, slot: nat)
    requires TimerPool(n) && slot in n.armed
    ensures slot < N_TIMERS == |n.slots| && Busy(n, slot) && n.slots[slot] == slot + 1 && Key(slot) in n.timers
  {
    hide Key;
    assert n.armed[slot] > 0;
  }

  // When the timer of a slot fires, its handler stops it and may start another.
  lemma TimeoutIs(self: Addr, n: Node, slot: nat, route: Option<Addr>)
    requires slot < N_TIMERS == |n.slots| && n.slots[slot] == slot + 1 && Key(slot) in n.timers
    ensures var n1, dst := Stopped(n, slot), n.timers[Key(slot)];
            Timeout(self, n, slot, route) ==
            if dst !in n.pnrs || route.None? then Effect(n1, [], [])
            else
              var n2 := StartTimer(n1, dst);
              Effect(n2, if n2.crashed then [] else [Nreq(self, route.value, dst)], [])
  {
    hide Digits, StartTimer;
  }

  lemma StartWithRoom(n: Node, dst: Addr)
    ensures StartTimer(n, dst).crashed <==> n.crashed || FreeSlot(n.slots) == |n.slots|
  {
    hide Digits;
  }

  // A firing timer finds its own entry and frees its slot, so restarting it cannot fail.
  lemma TimerFires(self: Addr, n: Node, slot: nat, route: Option<Addr>)
    requires TimerPool(n) && slot in n.armed && !n.crashed
    ensures slot < N_TIMERS == |n.slots| && n.slots[slot] == slot + 1 && Key(slot) in n.timers
    ensures var n1, dst, f := Stopped(n, slot), n.timers[Key(slot)], Timeout(self, n, slot, route);
            && TimerPool(n1) && FreeSlot(n1.slots) < N_TIMERS && !f.node.crashed
            && f == if dst in n.pnrs && route.Some? then Effect(StartTimer(n1, dst), [Nreq(self, route.value, dst)], [])
                    else Effect(n1, [], [])
  {
    hide StartTimer, Timeout, Key, BusyAreArmed, BusyAreListed;
    RunningTimer(n, slot);
    StoppedPool(n, slot);
    TimeoutIs(self, n, slot, route);
    StartWithRoom(Stopped(n, slot), n.timers[Key(slot)]);
  }

  lemma PoolIgnoresPnrs(n: Node, t: Node)
    requires TimerPool(n) && t.slots == n.slots && t.armed == n.armed && t.timers == n.timers
    ensures TimerPool(t)
  {
    hide Key;
    assert forall i: nat :: Busy(t, i) <==> Busy(n, i);
  }

  lemma RegisterPool(n: Node, dst: Addr, requester: Option<Addr>)
    requires TimerPool(n)
    ensures TimerPool(Register(n, dst, requester))
  {
    hide StartTimer, BusyAreArmed, BusyAreListed, SlotsHoldIds, Exists;
    PoolIgnoresPnrs(n, n.(pnrs := n.pnrs[dst := [requester]]));
    StartTimerPool(n.(pnrs := n.pnrs[dst := [requester]]), dst);
    if dst in n.pnrs { PoolIgnoresPnrs(n, Register(n, dst, requester)); }
  }

  lemma HandlePool(s: Net, e: Event)
    requires Handled(s, e) && TimerPool(s.nodes[Actor(e)])
    ensures TimerPool(Handle(s, e).node)
  {
    var n := s.nodes[Actor(e)];
    hide Register, StartTimer, Replies, Timeout, TimerPool, Key;
    match e {
      case AddRoute(_, dst, _) => RegisterPool(n, dst, None);
      case RemoveRoute(_, _) => PoolIgnoresPnrs(n, Handle(s, e).node);
      case Fire(a, slot, route) =>
        TimerFires(a, n, slot, route);
        StartTimerPool(Stopped(n, slot), n.timers[Key(slot)]);
      case DeliverNreq(q) => RegisterPool(n, q.dst, Some(q.src));
      case DeliverNrep(_) => PoolIgnoresPnrs(n, Handle(s, e).node);
    }
  }

  lemma NodesStep(s: Net, e: Event)
    ensures Apply(s, e).nodes == if Handled(s, e) then s.nodes[Actor(e) := Handle(s, e).node] else s.nodes
  {
    hide Handle, Handled, Answers, NreqsLeft, NrepsLeft;
  }

  // In every run the timer pool of every node is consistent.
  lemma {:induction false} TimerPoolAlways(hosts: map<Addr, Name>, events: seq<Event>, a: Addr)
    requires a in hosts
    ensures var s := Run(Start(hosts), events); a in s.nodes && TimerPool(s.nodes[a])
  {
    if events == [] {
    } else {
      var front, e := events[..|events| - 1], events[|events| - 1];
      var s := Run(Start(hosts), front);
      TimerPoolAlways(hosts, front, a);
      NodesStep(s, e);
      if Handled(s, e) && a == Actor(e) {
        HandlePool(s, e);
      }
      hide Apply, Handle, TimerPool;
    }
  }

  // ----- Every pending request has a live timer -----

  ghost predicate HasTimer(n: Node, d: Addr) {
    exists key :: key in n.timers && n.timers[key] == d
  }

  // If d is pending, a timer for it is running.
  ghost predicate Timed(n: Node, d: Addr) {
    d in n.pnrs ==> HasTimer(n, d)
  }

  lemma StartTimerTimes(n: Node, dst: Addr)
    requires TimerPool(n) && FreeSlot(n.slots) < N_TIMERS
    ensures HasTimer(StartTimer(n, dst), dst)
    ensures forall d :: HasTimer(n, d) ==> HasTimer(StartTimer(n, dst), d)
    ensures var t := StartTimer(n, dst); t.pnrs == n.pnrs && t.cache == n.cache && t.crashed == n.crashed
  {
    hide Digits;
    var t, i := StartTimer(n, dst), FreeSlot(n.slots);
    assert t.timers[Key(i)] == dst;
    forall d | HasTimer(n, d)
      ensures HasTimer(t, d)
    {
      var key :| key in n.timers && n.timers[key] == d;
      assert t.timers[key] == d;
    }
  }

  // A timeout keeps a destination timed exactly when its request is restarted or another timer runs for it.
  lemma TimeoutTimes(self: Addr, n: Node, slot: nat, route: Option<Addr>, d: Addr)
    requires TimerPool(n) && slot in n.armed && !n.crashed && d in n.pnrs && HasTimer(n, d)
    ensures var key := Key(slot);
            key in n.timers &&
            (HasTimer(Timeout(self, n, slot, route).node, d) <==>
               (n.timers[key] == d && route.Some?) || exists k :: k in n.timers && k != key && n.timers[k] == d)
  {
    hide Timeout, Key, StartTimer, Stopped, BusyAreArmed, BusyAreListed;
    TimerFires(self, n, slot, route);
    StoppedTimes(n, slot, d);
    var n1, dst := Stopped(n, slot), n.timers[Key(slot)];
    if dst in n.pnrs && route.Some? {
      StartTimerTimes(n1, dst);
      if d != dst { StartTimerOnly(n1, dst, d); }
    }
  }

  lemma StoppedTimes(n: Node, slot: nat, d: Addr)
    requires slot < |n.slots|
    ensures HasTimer(Stopped(n, slot), d) <==> exists k :: k in n.timers && k != Key(slot) && n.timers[k] == d
  {
    hide Key;
    forall k | k in n.timers && k != Key(slot) && n.timers[k] == d
      ensures HasTimer(Stopped(n, slot), d)
    {
      assert k in Stopped(n, slot).timers;
    }
  }

  lemma StartTimerOnly(n: Node, dst: Addr, d: Addr)
    requires TimerPool(n) && FreeSlot(n.slots) < N_TIMERS && d != dst
    ensures HasTimer(StartTimer(n, dst), d) ==> HasTimer(n, d)
  {
    hide Digits, TimerPool;
    var t, key := StartTimer(n, dst), Digits(FreeSlot(n.slots) + 1);
    if HasTimer(t, d) {
      var k :| k in t.timers && t.timers[k] == d;
      assert FreeSlot(n.slots) < |n.slots| ==> k != key;
      assert n.timers[k] == d;
    }
  }

  lemma RegisterTimes(n: Node, dst: Addr, requester: Option<Addr>, d: Addr)
    requires TimerPool(n) && Timed(n, d) && !Register(n, dst, requester).crashed
    ensures Timed(Register(n, dst, requester), d)
  {
    hide Digits, BusyAreArmed, BusyAreListed, Exists;
    if dst !in n.pnrs {
      var n0 := n.(pnrs := n.pnrs[dst := [requester]]);
      PoolIgnoresPnrs(n, n0);
      StartTimerTimes(n0, dst);
      hide StartTimer;
      assert HasTimer(n, d) ==> HasTimer(n0, d);
    }
  }

  // If the event is the timeout of a pending request of a for d, it finds a route.
  ghost predicate Rerouted(s: Net, e: Event, a: Addr, d: Addr) {
    e.Fire? && e.self == a && Handled(s, e) && Key(e.slot) in s.nodes[a].timers &&
    s.nodes[a].timers[Key(e.slot)] == d && d in s.nodes[a].pnrs ==>
      e.route.Some?
  }

  lemma HandleTimes(s: Net, e: Event, d: Addr)
    requires Handled(s, e) && TimerPool(s.nodes[Actor(e)]) && Timed(s.nodes[Actor(e)], d)
    requires Rerouted(s, e, Actor(e), d) && !Handle(s, e).node.crashed
    ensures Timed(Handle(s, e).node, d)
  {
    var n := s.nodes[Actor(e)];
    hide Key, Register, StartTimer, Replies, TimerPool, Timeout;
    match e {
      case AddRoute(_, dst, _) => if dst !in n.pnrs && dst !in n.cache { RegisterTimes(n, dst, None, d); }
      case RemoveRoute(_, _) =>
      case Fire(a, slot, route) => TimeoutKeepsTimes(a, n, slot, route, d);
      case DeliverNreq(q) => if q.dst !in n.cache { RegisterTimes(n, q.dst, Some(q.src), d); }
      case DeliverNrep(p) =>
    }
  }

  lemma TimeoutKeepsTimes(self: Addr, n: Node, slot: nat, route: Option<Addr>, d: Addr)
    requires TimerPool(n) && slot in n.armed && !n.crashed && Timed(n, d)
    requires Key(slot) in n.timers && n.timers[Key(slot)] == d && d in n.pnrs ==> route.Some?
    ensures Timed(Timeout(self, n, slot, route).node, d)
  {
    hide Timeout, TimerPool, Key, Stopped, HasTimer, StartTimer;
    TimerFires(self, n, slot, route);
    StoppedKeeps(n, slot);
    StartTimerTimes(Stopped(n, slot), n.timers[Key(slot)]);
    if d in n.pnrs {
      TimeoutTimes(self, n, slot, route, d);
      if n.timers[Key(slot)] != d {
        OtherTimer(n, slot, d);
      }
    }
  }

  lemma StoppedKeeps(n: Node, slot: nat)
    requires slot < |n.slots|
    ensures Stopped(n, slot).pnrs == n.pnrs
  {
  }

  lemma OtherTimer(n: Node, slot: nat, d: Addr)
    requires HasTimer(n, d) && Key(slot) in n.timers && n.timers[Key(slot)] != d
    ensures exists k :: k in n.timers && k != Key(slot) && n.timers[k] == d
  {
    hide Key;
  }

  ghost predicate AlwaysRerouted(s: Net, events: seq<Event>, a: Addr, d: Addr) {
    events == [] ||
    (AlwaysRerouted(s, events[..|events| - 1], a, d) &&
     Rerouted(Run(s, events[..|events| - 1]), events[|events| - 1], a, d))
  }

  // While the timeouts of a's pending requests for d find a route, a running node a has a live timer for d
  // whenever d is pending there.
  lemma {:induction false} PendingAreTimed(hosts: map<Addr, Name>, events: seq<Event>, a: Addr, d: Addr)
    requires a in hosts && AlwaysRerouted(Start(hosts), events, a, d)
    ensures var s := Run(Start(hosts), events); Live(s, a) ==> Timed(s.nodes[a], d)
  {
    hide Apply, Handle, TimerPool, Timed, Rerouted;
    if events == [] {
      NothingPending(hosts, a, d);
    } else {
      var front, e := events[..|events| - 1], events[|events| - 1];
      var s := Run(Start(hosts), front);
      PendingAreTimed(hosts, front, a, d);
      TimerPoolAlways(hosts, front, a);
      NodesStep(s, e);
      if Handled(s, e) && a == Actor(e) && !Handle(s, e).node.crashed {
        HandleTimes(s, e, d);
      }
    }
  }

  lemma NothingPending(hosts: map<Addr, Name>, a: Addr, d: Addr)
    requires a in hosts
    ensures a in Start(hosts).nodes && Timed(Start(hosts).nodes[a], d)
  {
  }
}
