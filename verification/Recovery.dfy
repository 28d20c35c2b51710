/** Timeouts make up for lost messages. */
module Recovery {
  import opened Options
  import opened Decimals
  import opened Protocol
  import opened Network
  import opened Convergence
  import opened Timers

  // n does not know dst but has a pending request with a running timer for it.
  ghost predicate Retries(s: Net, n: Addr, dst: Addr) {
    && Live(s, n) && TimerPool(s.nodes[n])
    && dst !in s.nodes[n].cache && dst in s.nodes[n].pnrs && HasTimer(s.nodes[n], dst)
  }

  // Every node of the network is running and either knows dst or keeps retrying.
  ghost predicate Recoverable(s: Net, nodes: set<Addr>, dst: Addr) {
    forall n :: n in nodes ==> Live(s, n) && (Knows(s, n, dst) || Retries(s, n, dst))
  }

  // The timeout of n's timer for dst, then the delivery of the request and of the reply.
  function Retry(s: Net, n: Addr, hop: Addr, dst: Addr, slot: nat): seq<Event>
    requires Knows(s, hop, dst)
  {
    [Fire(n, slot, Some(hop)), DeliverNreq(Nreq(n, hop, dst)), DeliverNrep(Nrep(hop, n, dst, s.nodes[hop].cache[dst]))]
  }

  lemma TimerSlot(n: Node, dst: Addr) returns (slot: nat)
    requires TimerPool(n) && HasTimer(n, dst)
    ensures slot in n.armed && Key(slot) in n.timers && n.timers[Key(slot)] == dst
  {
    var key :| key in n.timers && n.timers[key] == dst;
    slot :| Busy(n, slot) && key == Key(slot);
    assert n.armed[slot] == 1;
  }

  // The timeout sends the request again and leaves every other node alone.
  lemma FireResends(s: Net, n: Addr, hop: Addr, dst: Addr, slot: nat)
    requires Retries(s, n, dst) && slot in s.nodes[n].armed && Key(slot) in s.nodes[n].timers
    requires s.nodes[n].timers[Key(slot)] == dst
    ensures var t := Apply(s, Fire(n, slot, Some(hop)));
            && Nreq(n, hop, dst) in t.nreqs
            && Live(t, n) && dst !in t.nodes[n].cache && t.nodes[n].cache == s.nodes[n].cache
            && t.nodes == s.nodes[n := t.nodes[n]]
  {
    var e := Fire(n, slot, Some(hop));
    hide BusyAreArmed, BusyAreListed, HasTimer;
    TimerFires(n, s.nodes[n], slot, Some(hop));
    StoppedKeeps(s.nodes[n], slot);
    StartTimerTimes(Stopped(s.nodes[n], slot), dst);
    assert Handled(s, e) && Handle(s, e) == Timeout(n, s.nodes[n], slot, Some(hop));
    assert Stopped(s.nodes[n], slot).cache == s.nodes[n].cache;
    hide Timeout, TimerPool, StartTimer, Stopped, Key, HasTimer, Handle;
    NodesStep(s, e);
    MessagesStep(s, e);
  }

  lemma HopReplies(s: Net, n: Addr, hop: Addr, dst: Addr)
    requires Nreq(n, hop, dst) in s.nreqs && Live(s, hop) && Knows(s, hop, dst)
    ensures var t := Apply(s, DeliverNreq(Nreq(n, hop, dst)));
            Nrep(hop, n, dst, s.nodes[hop].cache[dst]) in t.nreps && t.nodes == s.nodes
  {
    var e := DeliverNreq(Nreq(n, hop, dst));
    assert Handle(s, e) == Effect(s.nodes[hop], [], [Nrep(hop, n, dst, s.nodes[hop].cache[dst])]);
    hide Handle;
    NodesStep(s, e);
    MessagesStep(s, e);
  }

  lemma ReplyTeaches(s: Net, p: Nrep)
    requires p in s.nreps && Live(s, p.to)
    ensures var t := Apply(s, DeliverNrep(p));
            p.to in t.nodes && Live(t, p.to) && Knows(t, p.to, p.dst) && t.nodes == s.nodes[p.to := t.nodes[p.to]]
            && s.nodes[p.to].cache.Keys <= t.nodes[p.to].cache.Keys
  {
    var e := DeliverNrep(p);
    var f := Handle(s, e);
    assert p.dst in f.node.cache && s.nodes[p.to].cache.Keys <= f.node.cache.Keys && !f.node.crashed;
    hide Handle;
    NodesStep(s, e);
  }

  // From the state after the timeout: the two deliveries teach n and change no other node.
  lemma DeliveriesTeach(s: Net, n: Addr, hop: Addr, dst: Addr)
    requires Nreq(n, hop, dst) in s.nreqs && Live(s, n) && Live(s, hop) && Knows(s, hop, dst)
    ensures var p := Nrep(hop, n, dst, s.nodes[hop].cache[dst]);
            var t := Apply(Apply(s, DeliverNreq(Nreq(n, hop, dst))), DeliverNrep(p));
            n in t.nodes && Live(t, n) && Knows(t, n, dst) && t.nodes == s.nodes[n := t.nodes[n]]
  {
    hide Apply;
    HopReplies(s, n, hop, dst);
    ReplyTeaches(Apply(s, DeliverNreq(Nreq(n, hop, dst))), Nrep(hop, n, dst, s.nodes[hop].cache[dst]));
  }

  lemma RetryTeaches(s: Net, n: Addr, hop: Addr, dst: Addr) returns (more: seq<Event>)
    requires Retries(s, n, dst) && Live(s, hop) && Knows(s, hop, dst)
    ensures |more| == 3 && Knows(Run(s, more), n, dst) && Live(Run(s, more), n)
    ensures Run(s, more).nodes == s.nodes[n := Run(s, more).nodes[n]]
  {
    hide Run, Apply, HasTimer, TimerPool, Key;
    var slot := TimerSlot(s.nodes[n], dst);
    FireResends(s, n, hop, dst, slot);
    var s1 := Apply(s, Fire(n, slot, Some(hop)));
    assert hop != n && s1.nodes[hop] == s.nodes[hop];
    DeliveriesTeach(s1, n, hop, dst);
    more := Retry(s, n, hop, dst, slot);
    Run3(s, more[0], more[1], more[2]);
  }

  function Unaware(s: Net, nodes: set<Addr>, dst: Addr): set<Addr> {
    set n | n in nodes && !Knows(s, n, dst)
  }

  // An unaware node of least distance: its next hop knows.
  lemma {:induction false} NearestUnaware(s: Net, nodes: set<Addr>, dst: Addr, next: map<Addr, Addr>,
                                          dist: map<Addr, nat>, n: Addr)
    returns (m: Addr)
    requires LoopFree(nodes, dst, next, dist) && n in nodes && !Knows(s, n, dst) && dst in nodes && Knows(s, dst, dst)
    ensures m in nodes && !Knows(s, m, dst) && m != dst && Knows(s, next[m], dst)
    decreases dist[n]
  {
    if Knows(s, next[n], dst) {
      m := n;
    } else {
      m := NearestUnaware(s, nodes, dst, next, dist, next[n]);
    }
  }

  // Whatever was lost before, while every node is running and either knows dst or keeps retrying along a
  // loop-free route, at most three further events per node make dst's name known to all.
  lemma {:induction false} LossIsRepaired(s: Net, nodes: set<Addr>, dst: Addr, next: map<Addr, Addr>,
                                          dist: map<Addr, nat>)
    returns (more: seq<Event>)
    requires Recoverable(s, nodes, dst) && dst in nodes && Knows(s, dst, dst) && LoopFree(nodes, dst, next, dist)
    ensures |more| == 3 * |Unaware(s, nodes, dst)|
    ensures forall n :: n in nodes ==> Knows(Run(s, more), n, dst)
    decreases |Unaware(s, nodes, dst)|
  {
    var U := Unaware(s, nodes, dst);
    if U == {} {
      more := [];
      assert forall n :: n in nodes ==> n !in U;
    } else {
      var n :| n in U;
      var m := NearestUnaware(s, nodes, dst, next, dist, n);
      var first := RetryTeaches(s, m, next[m], dst);
      var t := Run(s, first);
      TaughtOne(s, t, nodes, dst, m);
      var rest := LossIsRepaired(t, nodes, dst, next, dist);
      RunOn(s, first, rest);
      more := first + rest;
    }
  }

  lemma TaughtOne(s: Net, t: Net, nodes: set<Addr>, dst: Addr, m: Addr)
    requires Recoverable(s, nodes, dst) && m in nodes && !Knows(s, m, dst) && Knows(s, dst, dst)
    requires Knows(t, m, dst) && Live(t, m) && t.nodes == s.nodes[m := t.nodes[m]]
    ensures Recoverable(t, nodes, dst) && Knows(t, dst, dst)
    ensures |Unaware(t, nodes, dst)| == |Unaware(s, nodes, dst)| - 1
  {
    hide HasTimer, TimerPool;
    assert forall a :: a in nodes && a != m ==> a in s.nodes && t.nodes[a] == s.nodes[a];
    assert Unaware(s, nodes, dst) == Unaware(t, nodes, dst) + {m};
  }

  lemma PendingRetries(hosts: map<Addr, Name>, events: seq<Event>, n: Addr, dst: Addr)
    requires AlwaysRerouted(Start(hosts), events, n, dst) && n in hosts
    requires var s := Run(Start(hosts), events); Live(s, n) && (Knows(s, n, dst) || dst in s.nodes[n].pnrs)
    ensures var s := Run(Start(hosts), events); Knows(s, n, dst) || Retries(s, n, dst)
  {
    TimerPoolAlways(hosts, events, n);
    PendingAreTimed(hosts, events, n, dst);
    hide TimerPool, HasTimer, Run;
  }

  // The same from any run in which the timeouts of the nodes' requests for dst find routes: it is enough that each
  // node runs and knows dst or still has the request pending.
  lemma RunsRecover(hosts: map<Addr, Name>, events: seq<Event>, nodes: set<Addr>, dst: Addr,
                    next: map<Addr, Addr>, dist: map<Addr, nat>) returns (more: seq<Event>)
    requires dst in nodes && nodes <= hosts.Keys && LoopFree(nodes, dst, next, dist)
    requires forall n :: n in nodes ==> AlwaysRerouted(Start(hosts), events, n, dst)
    requires var s := Run(Start(hosts), events);
             forall n :: n in nodes ==> Live(s, n) && (Knows(s, n, dst) || dst in s.nodes[n].pnrs)
    ensures |more| <= 3 * |nodes|
    ensures var t := Run(Start(hosts), events + more);
            forall n :: n in nodes ==> Knows(t, n, dst) && t.nodes[n].cache[dst] == hosts[dst]
  {
    var s := Run(Start(hosts), events);
    hide AlwaysRerouted, Retries, Run, Unaware, Sound, LoopFree;
    forall n | n in nodes
      ensures Knows(s, n, dst) || Retries(s, n, dst)
    {
      PendingRetries(hosts, events, n, dst);
    }
    RunSound(hosts, events);
    TrueNames(hosts, s);
    more := LossIsRepaired(s, nodes, dst, next, dist);
    RunOn(Start(hosts), events, more);
    UnawareSize(s, nodes, dst);
    RunSound(hosts, events + more);
    TrueNames(hosts, Run(Start(hosts), events + more));
  }

  lemma UnawareSize(s: Net, nodes: set<Addr>, dst: Addr)
    ensures |Unaware(s, nodes, dst)| <= |nodes|
  {
    assert nodes == Unaware(s, nodes, dst) + (nodes - Unaware(s, nodes, dst));
  }

  lemma TrueNames(hosts: map<Addr, Name>, s: Net)
    requires Sound(hosts, s)
    ensures forall a :: a in hosts ==> Knows(s, a, a)
    ensures forall a, d :: Knows(s, a, d) ==> d in hosts && s.nodes[a].cache[d] == hosts[d]
  {
    forall a, d | Knows(s, a, d)
      ensures d in hosts && s.nodes[a].cache[d] == hosts[d]
    {
      assert GoodNode(hosts, s.asked, a, s.nodes[a]);
    }
    forall a | a in hosts
      ensures Knows(s, a, a)
    {
      assert GoodNode(hosts, s.asked, a, s.nodes[a]);
    }
  }

  // ----- One exchange of messages -----

  // a learns d's name from d itself.
  function Exchange(hosts: map<Addr, Name>, a: Addr, d: Addr): seq<Event>
    requires d in hosts
  {
    [AddRoute(a, d, d), DeliverNreq(Nreq(a, d, d)), DeliverNrep(Nrep(d, a, d, hosts[d]))]
  }

  lemma Booted(hosts: map<Addr, Name>, a: Addr)
    requires a in hosts
    ensures Live(Start(hosts), a) && Start(hosts).nodes[a] == Boot(a, hosts[a])
  {
  }

  lemma FirstRouteAdded(a: Addr, name: Name, d: Addr)
    requires a != d
    ensures var f := RouteAdded(a, Boot(a, name), d, d); !f.node.crashed && f.nreqs == [Nreq(a, d, d)]
  {
    hide Digits;
    assert Boot(a, name).slots[0] == 0;
  }

  lemma FirstRequest(hosts: map<Addr, Name>, a: Addr, d: Addr)
    requires a in hosts && d in hosts && a != d
    ensures var s := Apply(Start(hosts), AddRoute(a, d, d));
            Nreq(a, d, d) in s.nreqs && Live(s, a) && Live(s, d) && Knows(s, d, d) && s.nodes[d].cache[d] == hosts[d]
  {
    hide Start, Apply, RouteAdded;
    var s, e := Start(hosts), AddRoute(a, d, d);
    Booted(hosts, a);
    Booted(hosts, d);
    FirstRouteAdded(a, hosts[a], d);
    NodesStep(s, e);
    MessagesStep(s, e);
  }

  lemma ExchangeTeaches(hosts: map<Addr, Name>, a: Addr, d: Addr)
    requires a in hosts && d in hosts && a != d
    ensures var s := Run(Start(hosts), Exchange(hosts, a, d)); Live(s, a) && Knows(s, a, d)
  {
    hide Run, Apply, Start, Live, Knows;
    FirstRequest(hosts, a, d);
    var s1 := Apply(Start(hosts), AddRoute(a, d, d));
    DeliveriesTeach(s1, a, d, d);
    var events := Exchange(hosts, a, d);
    Run3(Start(hosts), events[0], events[1], events[2]);
  }

  // The comment in the source intends a removed route to remove the name; as coded, a cached name stays.
  lemma CachedNameSurvives(hosts: map<Addr, Name>, a: Addr, d: Addr)
    requires a in hosts && d in hosts && a != d
    ensures Knows(Run(Start(hosts), Exchange(hosts, a, d) + [RemoveRoute(a, d)]), a, d)
  {
    hide Run, Exchange, Start;
    ExchangeTeaches(hosts, a, d);
    RunOne(Start(hosts), Exchange(hosts, a, d), RemoveRoute(a, d));
    NodesStep(Run(Start(hosts), Exchange(hosts, a, d)), RemoveRoute(a, d));
    hide Apply;
  }
}
