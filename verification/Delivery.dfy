/** Message exchange terminates: without new routes or timeouts, a bounded number
    of deliveries empties the network, and what it leaves behind has converged. */
module Delivery {
  import opened Options
  import opened Protocol
  import opened Network
  import opened Conservation
  import opened Convergence
  import opened Capacity

  // The remote requesters waiting at node h.
  function WaitSetAt(h: Addr, n: Node): set<Nreq> {
    set d, i | d in n.pnrs && 0 <= i < |n.pnrs[d]| && n.pnrs[d][i].Some? :: Nreq(n.pnrs[d][i].value, h, d)
  }

  function WaitSet(s: Net): set<Nreq> {
    set h, q | h in s.nodes && q in WaitSetAt(h, s.nodes[h]) :: q
  }

  lemma WaitSetIs(s: Net, q: Nreq)
    ensures q in WaitSet(s) <==> Waits(s, q)
  {
    if Waits(s, q) {
      var n := s.nodes[q.to];
      var i :| 0 <= i < |n.pnrs[q.dst]| && n.pnrs[q.dst][i] == Some(q.src);
      assert q in WaitSetAt(q.to, n);
    }
  }

  // A message exchange still to come: three per request in flight, two per waiting requester, one per reply.
  function Work(s: Net): nat {
    3 * |s.nreqs| + 2 * |WaitSet(s)| + |s.nreps|
  }

  // A message in flight to one of the nodes is delivered.
  predicate Delivers(s: Net, e: Event) {
    match e
    case DeliverNreq(q) => q in s.nreqs && q.to in s.nodes
    case DeliverNrep(p) => p in s.nreps && p.to in s.nodes
    case _ => false
  }

  lemma {:induction false} RepliesPerWaiter(h: Addr, list: seq<Option<Addr>>, d: Addr, name: Name)
    requires NoRepeats(list)
    ensures |Replies(h, list, d, name)| == |RequestsOf(h, list, d)|
  {
    if list == [] {
    } else {
      var front, last := list[..|list| - 1], list[|list| - 1];
      RepliesPerWaiter(h, front, d, name);
      assert forall i :: 0 <= i < |front| ==> front[i] == list[i];
      if last.Some? {
        assert RequestsOf(h, list, d) == RequestsOf(h, front, d) + {Nreq(last.value, h, d)};
        assert Nreq(last.value, h, d) !in RequestsOf(h, front, d);
      } else {
        assert RequestsOf(h, list, d) == RequestsOf(h, front, d);
      }
    }
  }

  lemma SubsetSize<T>(a: set<T>, b: set<T>)
    requires a <= b
    ensures |a| <= |b|
  {
    assert b == a + (b - a);
  }

  // Who waits after the delivery of q: whoever waited before, and q's sender if it is not answered at once.
  lemma WaitingAfter(s: Net, q: Nreq, x: Nreq)
    requires Delivers(s, DeliverNreq(q)) && x in WaitSet(Apply(s, DeliverNreq(q)))
    ensures x in WaitSet(s) || (x == q && Handled(s, DeliverNreq(q)) && q.dst !in s.nodes[q.to].cache)
  {
    hide Apply, WaitSet, Register;
    var e := DeliverNreq(q);
    WaitSetIs(s, x);
    WaitSetIs(Apply(s, e), x);
    BooksStep(s, e, x);
    if Handled(s, e) && x.to == q.to {
      RegisterWaits(s.nodes[q.to], q.dst, Some(q.src), x.dst, x.src);
    }
  }

  lemma RequestDelivery(s: Net, q: Nreq)
    requires Delivers(s, DeliverNreq(q))
    ensures Work(Apply(s, DeliverNreq(q))) < Work(s)
  {
    hide Apply, WaitSet, Register;
    var e := DeliverNreq(q);
    var t := Apply(s, e);
    MessagesStep(s, e);
    forall x | x in WaitSet(t)
      ensures x in WaitSet(s) || (x == q && Handled(s, e) && q.dst !in s.nodes[q.to].cache)
    {
      WaitingAfter(s, q, x);
    }
    assert |s.nreqs - multiset{q}| == |s.nreqs| - 1;
    if Handled(s, e) && q.dst !in s.nodes[q.to].cache {
      SubsetSize(WaitSet(t), WaitSet(s) + {q});
    } else {
      SubsetSize(WaitSet(t), WaitSet(s));
    }
  }

  // The requests that a reply settles.
  function Settled(s: Net, p: Nrep): set<Nreq> {
    if Live(s, p.to) && p.dst !in s.nodes[p.to].cache then RequestsOf(p.to, Waiting(s.nodes[p.to], p.dst), p.dst)
    else {}
  }

  lemma SettledAre(s: Net, p: Nrep, x: Nreq)
    requires Delivers(s, DeliverNrep(p))
    ensures x in WaitSet(Apply(s, DeliverNrep(p))) ==> x in WaitSet(s) && x !in Settled(s, p)
    ensures x in Settled(s, p) ==> x in WaitSet(s)
  {
    hide Replies, Apply, WaitSet;
    WaitSetIs(s, x);
    WaitSetIs(Apply(s, DeliverNrep(p)), x);
    BooksStep(s, DeliverNrep(p), x);
  }

  lemma SettledCount(hosts: map<Addr, Name>, s: Net, p: Nrep)
    requires Sound(hosts, s) && Delivers(s, DeliverNrep(p))
    ensures var e := DeliverNrep(p);
            (if Handled(s, e) then |Handle(s, e).nreps| else 0) == |Settled(s, p)| &&
            (Handled(s, e) ==> Handle(s, e).nreqs == [])
  {
    var n := s.nodes[p.to];
    if Live(s, p.to) && p.dst !in n.cache {
      assert WfNode(p.to, n) by { assert GoodNode(hosts, s.asked, p.to, n); }
      RepliesPerWaiter(p.to, Waiting(n, p.dst), p.dst, p.name);
    }
  }

  lemma ReplyDelivery(hosts: map<Addr, Name>, s: Net, p: Nrep)
    requires Sound(hosts, s) && Delivers(s, DeliverNrep(p))
    ensures Work(Apply(s, DeliverNrep(p))) < Work(s)
  {
    hide Apply, WaitSet, Settled, Handle, Sound, Handled;
    var e := DeliverNrep(p);
    var t := Apply(s, e);
    MessagesStep(s, e);
    SettledCount(hosts, s, p);
    forall x
      ensures x in WaitSet(t) ==> x in WaitSet(s) - Settled(s, p)
      ensures x in Settled(s, p) ==> x in WaitSet(s)
    {
      SettledAre(s, p, x);
    }
    SubsetSize(WaitSet(t), WaitSet(s) - Settled(s, p));
    assert |s.nreps - multiset{p}| == |s.nreps| - 1;
  }

  // Only deliveries of messages in flight.
  ghost predicate OnlyDeliveries(s: Net, events: seq<Event>) {
    events == [] ||
    (OnlyDeliveries(s, events[..|events| - 1]) && Delivers(Run(s, events[..|events| - 1]), events[|events| - 1]))
  }

  lemma {:induction false} RunFromSound(hosts: map<Addr, Name>, s: Net, events: seq<Event>)
    requires Sound(hosts, s)
    ensures Sound(hosts, Run(s, events))
  {
    if events == [] {
    } else {
      RunFromSound(hosts, s, events[..|events| - 1]);
      SoundStep(hosts, Run(s, events[..|events| - 1]), events[|events| - 1]);
    }
  }

  // Every delivery uses up some of the work, so there are at most Work(s) of them.
  lemma {:induction false} DeliveriesEnd(hosts: map<Addr, Name>, s: Net, events: seq<Event>)
    requires Sound(hosts, s) && OnlyDeliveries(s, events)
    ensures |events| + Work(Run(s, events)) <= Work(s)
  {
    if events == [] {
    } else {
      var front, e := events[..|events| - 1], events[|events| - 1];
      DeliveriesEnd(hosts, s, front);
      RunFromSound(hosts, s, front);
      match e {
        case DeliverNreq(q) => RequestDelivery(Run(s, front), q);
        case DeliverNrep(p) => ReplyDelivery(hosts, Run(s, front), p);
      }
    }
  }

  // k requests and nothing else pending are settled within 3k deliveries.
  lemma RequestsSettle(hosts: map<Addr, Name>, s: Net, events: seq<Event>, k: nat)
    requires Sound(hosts, s) && OnlyDeliveries(s, events)
    requires |s.nreqs| == k && s.nreps == multiset{} && WaitSet(s) == {}
    ensures |events| <= 3 * k
  {
    DeliveriesEnd(hosts, s, events);
  }

  lemma {:induction false} DeliveriesAre(s: Net, events: seq<Event>)
    requires OnlyDeliveries(s, events)
    ensures forall e :: e in events ==> e.DeliverNreq? || e.DeliverNrep?
  {
    hide Run;
    if events == [] {
    } else {
      DeliveriesAre(s, events[..|events| - 1]);
      assert events == events[..|events| - 1] + [events[|events| - 1]];
    }
  }

  lemma DeliveriesAreLossFree(s: Net, events: seq<Event>, nodes: set<Addr>, dst: Addr, next: map<Addr, Addr>)
    requires OnlyDeliveries(s, events)
    ensures RoutesLossFree(events, nodes, dst, next)
  {
    DeliveriesAre(s, events);
  }

  // After a run that gave every node a loop-free route to dst and lost none of the requests along these routes, any
  // schedule that keeps delivering messages stops within Work steps. When nothing is left to deliver, and none of
  // the nodes has crashed, each of them knows dst's name.
  lemma DeliveringSpreadsNames(hosts: map<Addr, Name>, events: seq<Event>, more: seq<Event>,
                               nodes: set<Addr>, dst: Addr, next: map<Addr, Addr>, dist: map<Addr, nat>)
    requires dst in nodes && nodes <= hosts.Keys && LoopFree(nodes, dst, next, dist)
    requires RoutesSeen(events, nodes, dst, next) && NothingLost(Run(Start(hosts), events), nodes, dst, next)
    requires OnlyDeliveries(Run(Start(hosts), events), more)
    ensures var s := Run(Start(hosts), events);
            var t := Run(s, more);
            && |more| + Work(t) <= Work(s)
            && ((forall e :: !Delivers(t, e)) && (forall a :: a in nodes ==> Live(t, a)) ==>
                  forall n :: n in nodes ==> Knows(t, n, dst) && t.nodes[n].cache[dst] == hosts[dst])
  {
    var s := Run(Start(hosts), events);
    var t := Run(s, more);
    RunSound(hosts, events);
    assert RoutesSeen(events + more, nodes, dst, next);
    hide Run, Start, Work, AllSettled, LoopFree, NothingLost, RoutesSeen, RoutesLossFree, OnlyDeliveries, Sound, Live;
    DeliveriesEnd(hosts, s, more);
    if (forall e :: !Delivers(t, e)) && (forall a :: a in nodes ==> Live(t, a)) {
      RunOn(Start(hosts), events, more);
      RunSound(hosts, events + more);
      SoundParts(hosts, t);
      DeliveriesAreLossFree(s, more, nodes, dst, next);
      RoutesKeep(s, more, nodes, dst, next, dist);
      NothingLeft(t, nodes, dst, next, dist);
      hide Delivers;
      forall n | n in nodes
        ensures Knows(t, n, dst) && t.nodes[n].cache[dst] == hosts[dst]
      {
        ConvergesAt(hosts, events + more, nodes, dst, next, dist, n);
      }
    }
  }

  lemma NothingLeft(t: Net, nodes: set<Addr>, dst: Addr, next: map<Addr, Addr>, dist: map<Addr, nat>)
    requires nodes <= t.nodes.Keys && LoopFree(nodes, dst, next, dist) && forall e :: !Delivers(t, e)
    ensures AllSettled(t, nodes, dst, next)
  {
    forall q | q in t.nreqs
      ensures q.to !in t.nodes
    {
      assert !Delivers(t, DeliverNreq(q));
    }
    forall p | p in t.nreps
      ensures p.to !in t.nodes
    {
      assert !Delivers(t, DeliverNrep(p));
    }
  }

  // The same of runs about at most N_TIMERS destinations without route removal, in which nobody crashes.
  lemma DeliveringWithinCapacity(hosts: map<Addr, Name>, events: seq<Event>, more: seq<Event>, D: set<Addr>,
                                 nodes: set<Addr>, dst: Addr, next: map<Addr, Addr>, dist: map<Addr, nat>)
    requires RoutesWithin(events, D) && |D| <= N_TIMERS
    requires dst in nodes && nodes <= hosts.Keys && LoopFree(nodes, dst, next, dist)
    requires RoutesSeen(events, nodes, dst, next) && RoutesLossFree(events, nodes, dst, next)
    requires OnlyDeliveries(Run(Start(hosts), events), more)
    ensures var t := Run(Run(Start(hosts), events), more);
            (forall e :: !Delivers(t, e)) ==>
              forall n :: n in nodes ==> Knows(t, n, dst) && t.nodes[n].cache[dst] == hosts[dst]
  {
    var s := Run(Start(hosts), events);
    assert NothingLost(Start(hosts), nodes, dst, next);
    DeliveriesWithin(s, more, events, D);
    hide Run, Start, LoopFree, NothingLost, RoutesSeen, RoutesLossFree, RoutesWithin, OnlyDeliveries, Live, Frugals;
    NoCrash(hosts, events, D);
    NoCrash(hosts, events + more, D);
    RunOn(Start(hosts), events, more);
    RoutesKeep(Start(hosts), events, nodes, dst, next, dist);
    DeliveringSpreadsNames(hosts, events, more, nodes, dst, next, dist);
  }

  lemma DeliveriesWithin(s: Net, more: seq<Event>, events: seq<Event>, D: set<Addr>)
    requires RoutesWithin(events, D) && OnlyDeliveries(s, more)
    ensures RoutesWithin(events + more, D)
  {
    DeliveriesAre(s, more);
  }
}
