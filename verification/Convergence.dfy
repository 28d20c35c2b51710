/** No request is forgotten unless it is lost, and names spread along loop-free
    routes. */
module Convergence {
  import opened Options
  import opened Protocol
  import opened Network
  import opened Provenance
  import opened Conservation

  ghost predicate Answered(s: Net, q: Nreq) {
    exists p :: p in s.nreps && IsReply(p, q)
  }

  // What has become of a request: in flight, noted by its receiver, answered, or no longer needed.
  ghost predicate Remembered(s: Net, q: Nreq) {
    q in s.nreqs || Waits(s, q) || Answered(s, q) || Knows(s, q.src, q.dst)
  }

  lemma LiveBefore(s: Net, e: Event, a: Addr)
    requires Live(Apply(s, e), a)
    ensures Live(s, a)
  {
    hide Answers, NreqsLeft, NrepsLeft, Loses, Handle, Record;
    if Handled(s, e) {
      RecordKeeps(s, e, Perform(Wire(s, e), Actor(e), Handle(s, e)));
    }
  }

  lemma LostStep(s: Net, e: Event)
    ensures Apply(s, e).lost == s.lost + Loses(s, e)
  {
    hide Handle, NreqsLeft, NrepsLeft, Answers, Handled, Loses;
  }

  lemma WaiterOf(h: Addr, list: seq<Option<Addr>>, q: Nreq)
    requires q.to == h && Some(q.src) in list
    ensures q in RequestsOf(h, list, q.dst)
  {
    var i :| 0 <= i < |list| && list[i] == Some(q.src);
  }

  // A handler answers or keeps a waiting requester.
  lemma HandleKeepsWaiting(s: Net, e: Event, q: Nreq)
    requires Handled(s, e) && q !in Loses(s, e) && q.to == Actor(e) && WaitsAt(s.nodes[q.to], q.dst, q.src)
    ensures WaitsAt(Handle(s, e).node, q.dst, q.src) || exists p :: p in Handle(s, e).nreps && IsReply(p, q)
  {
    hide Replies, Register, StartTimer;
    var n := s.nodes[Actor(e)];
    match e {
      case AddRoute(_, dst, _) => RegisterWaits(n, dst, None, q.dst, q.src);
      case RemoveRoute(a, d) => if d == q.dst { WaiterOf(a, Waiting(n, d), q); }
      case Fire(_, _, _) => TimerTouchesOnlyTimers();
      case DeliverNreq(q') => RegisterWaits(n, q'.dst, Some(q'.src), q.dst, q.src);
      case DeliverNrep(p) =>
        RepliesAre(p.to, Waiting(n, p.dst), p.dst, p.name);
        if p.dst == q.dst && p.dst !in n.cache {
          assert IsReply(Nrep(p.to, q.src, p.dst, p.name), q);
        }
    }
  }

  // A delivered request is answered at once or noted.
  lemma HandleNotesRequest(s: Net, q: Nreq)
    requires Handled(s, DeliverNreq(q))
    ensures var f := Handle(s, DeliverNreq(q));
            WaitsAt(f.node, q.dst, q.src) || exists p :: p in f.nreps && IsReply(p, q)
  {
    hide Register;
    var n := s.nodes[q.to];
    RegisterWaits(n, q.dst, Some(q.src), q.dst, q.src);
    if q.dst in n.cache {
      assert IsReply(Nrep(q.to, q.src, q.dst, n.cache[q.dst]), q);
    }
  }

  lemma LeftInFlight(s: Net, e: Event, q: Nreq, p: Nrep)
    ensures q in s.nreqs && q !in Loses(s, e) && !(e == DeliverNreq(q) && Handled(s, e)) ==> q in NreqsLeft(s, e)
    ensures p in s.nreps && Nreq(p.to, p.src, p.dst) !in Loses(s, e) && !(e == DeliverNrep(p) && Handled(s, e)) ==>
              p in NrepsLeft(s, e)
  {
    hide RequestsOf;
  }

  lemma MessagesStep(s: Net, e: Event)
    ensures var t := Apply(s, e);
            if Handled(s, e) then
              && t.nreqs == NreqsLeft(s, e) + multiset(Handle(s, e).nreqs)
              && t.nreps == NrepsLeft(s, e) + multiset(Handle(s, e).nreps)
              && t.asked == s.asked + set q | q in Handle(s, e).nreqs
            else
              t.nreqs == NreqsLeft(s, e) && t.nreps == NrepsLeft(s, e) && t.asked == s.asked
  {
    hide Handle, Answers, Handled, NreqsLeft, NrepsLeft;
  }

  // Which messages are in flight after an event.
  lemma FlightStep(s: Net, e: Event, q: Nreq, p: Nrep)
    ensures var t := Apply(s, e);
            && (q in s.nreqs && q !in Loses(s, e) && !(e == DeliverNreq(q) && Handled(s, e)) ==> q in t.nreqs)
            && (p in s.nreps && Nreq(p.to, p.src, p.dst) !in Loses(s, e) && !(e == DeliverNrep(p) && Handled(s, e)) ==>
                  p in t.nreps)
            && (Handled(s, e) && q in Handle(s, e).nreqs ==> q in t.nreqs)
            && (Handled(s, e) && p in Handle(s, e).nreps ==> p in t.nreps)
            && (q in t.asked ==> q in s.asked || (Handled(s, e) && q in Handle(s, e).nreqs))
  {
    hide Apply, Handle, Handled, NreqsLeft, NrepsLeft, Loses;
    LeftInFlight(s, e, q, p);
    MessagesStep(s, e);
  }

  lemma AnsweredStep(s: Net, e: Event, q: Nreq)
    requires q !in Loses(s, e)
    requires Answered(s, q) || (Handled(s, e) && exists p :: p in Handle(s, e).nreps && IsReply(p, q))
    ensures Answered(Apply(s, e), q) || Knows(Apply(s, e), q.src, q.dst)
  {
    hide Apply, Handle, Loses;
    var p :| IsReply(p, q) && (p in s.nreps || (Handled(s, e) && p in Handle(s, e).nreps));
    FlightStep(s, e, q, p);
    KnowledgeGrows(s, e);
  }

  lemma RememberedStep(s: Net, e: Event, q: Nreq)
    requires q !in Loses(s, e) && (q in s.asked ==> Remembered(s, q)) && q in Apply(s, e).asked
    ensures Remembered(Apply(s, e), q)
  {
    hide Apply, Handle, Handled, Actor, WaitsAt, Loses, Answered, Knows;
    FlightStep(s, e, q, Nrep("", "", "", ""));
    KnowledgeGrows(s, e);
    BooksStep(s, e, q);
    if q in s.asked {
      Delivered(s, e, q);
      if Answered(s, q) || (Handled(s, e) && exists p :: p in Handle(s, e).nreps && IsReply(p, q)) {
        AnsweredStep(s, e, q);
      }
      if Handled(s, e) && q.to == Actor(e) && Waits(s, q) {
        HandleKeepsWaiting(s, e, q);
      }
    }
  }

  lemma Delivered(s: Net, e: Event, q: Nreq)
    ensures Handled(s, e) && e == DeliverNreq(q) ==>
              q.to == Actor(e) &&
              (WaitsAt(Handle(s, e).node, q.dst, q.src) || exists p :: p in Handle(s, e).nreps && IsReply(p, q))
  {
    hide Handle, WaitsAt;
    if Handled(s, e) && e == DeliverNreq(q) {
      HandleNotesRequest(s, q);
    }
  }

  // No event of the kind that can lose q.
  predicate Harmless(e: Event, q: Nreq) {
    match e
    case RemoveRoute(a, d) => a != q.to || d != q.dst
    case LoseNreq(q') => q' != q
    case LoseNrep(p) => !IsReply(p, q)
    case _ => true
  }

  // The k-th event of a run loses q.
  predicate LostAt(s: Net, events: seq<Event>, k: nat, q: Nreq)
    requires k < |events|
  {
    q in Loses(Run(s, events[..k]), events[k])
  }

  lemma LostAtFront(s: Net, events: seq<Event>, k: nat, q: Nreq)
    requires k < |events| - 1
    ensures LostAt(s, events[..|events| - 1], k, q) <==> LostAt(s, events, k, q)
  {
    assert events[..|events| - 1][..k] == events[..k];
  }

  lemma LostLast(s: Net, events: seq<Event>, q: Nreq)
    requires events != []
    ensures q in Run(s, events).lost <==>
            q in Run(s, events[..|events| - 1]).lost || LostAt(s, events, |events| - 1, q)
  {
    hide Apply, Loses;
    LostStep(Run(s, events[..|events| - 1]), events[|events| - 1]);
  }

  // A request counts as lost exactly if an event of the run lost it.
  lemma {:induction false} LostIs(s: Net, events: seq<Event>, q: Nreq)
    ensures q in Run(s, events).lost <==> q in s.lost || exists k :: 0 <= k < |events| && LostAt(s, events, k, q)
  {
    hide LostAt, Run;
    if events == [] {
      RunNone(s);
    } else {
      var front := events[..|events| - 1];
      LostIs(s, front, q);
      LostLast(s, events, q);
      forall k | 0 <= k < |front|
        ensures LostAt(s, front, k, q) <==> LostAt(s, events, k, q)
      {
        LostAtFront(s, events, k, q);
      }
    }
  }

  ghost predicate LossFree(events: seq<Event>, q: Nreq) {
    forall e :: e in events ==> Harmless(e, q)
  }

  lemma HarmlessKeeps(s: Net, e: Event, q: Nreq)
    requires Harmless(e, q) && Live(s, q.src) && Live(s, q.to)
    ensures q !in Loses(s, e)
  {
  }

  // Without looking at every state: if no event can lose q, and its sender and receiver run, it is not lost.
  lemma {:induction false} LossFreeKeeps(s: Net, events: seq<Event>, q: Nreq)
    requires LossFree(events, q) && q !in s.lost
    requires Live(Run(s, events), q.src) && Live(Run(s, events), q.to)
    ensures q !in Run(s, events).lost
  {
    hide Apply, Loses, Live, Harmless;
    if events == [] {
    } else {
      var front, e := events[..|events| - 1], events[|events| - 1];
      assert events == front + [e];
      LiveBefore(Run(s, front), e, q.src);
      LiveBefore(Run(s, front), e, q.to);
      LossFreeKeeps(s, front, q);
      HarmlessKeeps(Run(s, front), e, q);
      LostStep(Run(s, front), e);
    }
  }

  // As long as it is not lost, each request ever sent is in flight, waiting, answered or superseded.
  lemma {:induction false} NoRequestForgotten(hosts: map<Addr, Name>, events: seq<Event>, q: Nreq)
    requires var s := Run(Start(hosts), events); q in s.asked && q !in s.lost
    ensures Remembered(Run(Start(hosts), events), q)
  {
    hide Apply, Remembered, Loses;
    if events == [] {
    } else {
      hide Start;
      var front, e := events[..|events| - 1], events[|events| - 1];
      var s := Run(Start(hosts), front);
      LostStep(s, e);
      if q in s.asked {
        NoRequestForgotten(hosts, front, q);
      }
      RememberedStep(s, e, q);
    }
  }

  // A running node that has seen a route to dst through hop knows dst's name or has asked hop for it.
  lemma {:induction false} RoutedAsked(hosts: map<Addr, Name>, events: seq<Event>, n: Addr, dst: Addr, hop: Addr)
    requires Live(Run(Start(hosts), events), n) && AddRoute(n, dst, hop) in events
    ensures var s := Run(Start(hosts), events); Knows(s, n, dst) || Nreq(n, hop, dst) in s.asked
  {
    hide Apply, Live, Knows, Start;
    var front, e := events[..|events| - 1], events[|events| - 1];
    assert events == front + [e];
    var s := Run(Start(hosts), front);
    LiveBefore(s, e, n);
    KnowledgeGrows(s, e);
    if AddRoute(n, dst, hop) in front {
      RoutedAsked(hosts, front, n, dst, hop);
    } else {
      RouteAsked(s, n, dst, hop);
    }
  }

  lemma RouteAsked(s: Net, n: Addr, dst: Addr, hop: Addr)
    requires Live(Apply(s, AddRoute(n, dst, hop)), n)
    ensures Knows(s, n, dst) || Nreq(n, hop, dst) in Apply(s, AddRoute(n, dst, hop)).asked
  {
    hide Answers, Register;
    LiveBefore(s, AddRoute(n, dst, hop), n);
    var t := Apply(s, AddRoute(n, dst, hop));
    assert t.nodes[n] == RouteAdded(n, s.nodes[n], dst, hop).node;
  }

  // Following the next hops from any of the nodes comes closer to dst, within the nodes.
  ghost predicate LoopFree(nodes: set<Addr>, dst: Addr, next: map<Addr, Addr>, dist: map<Addr, nat>) {
    forall n :: n in nodes && n != dst ==>
      n in next && next[n] in nodes && n in dist && next[n] in dist && dist[next[n]] < dist[n]
  }

  // The request that node a of a route sends to its next hop.
  function Asks(a: Addr, dst: Addr, next: map<Addr, Addr>): Nreq
    requires a in next
  {
    Nreq(a, next[a], dst)
  }

  // None of the requests along the routes was lost.
  ghost predicate NothingLost(s: Net, nodes: set<Addr>, dst: Addr, next: map<Addr, Addr>) {
    forall a :: a in nodes && a != dst && a in next ==> Asks(a, dst, next) !in s.lost
  }

  // No event of the run can lose one of them.
  ghost predicate RoutesLossFree(events: seq<Event>, nodes: set<Addr>, dst: Addr, next: map<Addr, Addr>) {
    forall a :: a in nodes && a != dst && a in next ==> LossFree(events, Asks(a, dst, next))
  }

  // Neither these requests nor replies to them are in flight.
  ghost predicate AllSettled(s: Net, nodes: set<Addr>, dst: Addr, next: map<Addr, Addr>) {
    forall a :: a in nodes && a != dst && a in next ==>
      Asks(a, dst, next) !in s.nreqs && !Answered(s, Asks(a, dst, next))
  }

  // Each of the nodes saw its route to dst.
  ghost predicate RoutesSeen(events: seq<Event>, nodes: set<Addr>, dst: Addr, next: map<Addr, Addr>) {
    forall a :: a in nodes && a != dst && a in next ==> AddRoute(a, dst, next[a]) in events
  }

  // If none of the requests along their loop-free routes was lost and no message of theirs is left in flight,
  // running nodes that were given their routes know dst's true name. Whatever else was lost or dropped, and
  // whoever else crashed, does not matter.
  lemma {:induction false} ConvergesAt(hosts: map<Addr, Name>, events: seq<Event>, nodes: set<Addr>, dst: Addr,
                                       next: map<Addr, Addr>, dist: map<Addr, nat>, n: Addr)
    requires dst in nodes && nodes <= hosts.Keys && LoopFree(nodes, dst, next, dist)
    requires RoutesSeen(events, nodes, dst, next)
    requires var s := Run(Start(hosts), events); NothingLost(s, nodes, dst, next) && AllSettled(s, nodes, dst, next)
    requires forall a :: a in nodes ==> Live(Run(Start(hosts), events), a)
    requires n in nodes
    ensures var s := Run(Start(hosts), events); Knows(s, n, dst) && s.nodes[n].cache[dst] == hosts[dst]
    decreases if n in dist then dist[n] else 0
  {
    hide Run, Start, Live;
    var s := Run(Start(hosts), events);
    RunSound(hosts, events);
    assert GoodNode(hosts, s.asked, n, s.nodes[n]);
    if n == dst {
    } else {
      var q := Asks(n, dst, next);
      assert next[n] in nodes;
      ConvergesAt(hosts, events, nodes, dst, next, dist, next[n]);
      RoutedAsked(hosts, events, n, dst, next[n]);
      if q in s.asked {
        NoRequestForgotten(hosts, events, q);
        assert !Waits(s, q) by { assert GoodNode(hosts, s.asked, q.to, s.nodes[q.to]); }
      }
    }
  }

  // The requests of running nodes along their routes get lost only if an event can lose them.
  lemma RoutesKeep(s: Net, events: seq<Event>, nodes: set<Addr>, dst: Addr,
                   next: map<Addr, Addr>, dist: map<Addr, nat>)
    requires LoopFree(nodes, dst, next, dist) && RoutesLossFree(events, nodes, dst, next)
    requires NothingLost(s, nodes, dst, next) && forall a :: a in nodes ==> Live(Run(s, events), a)
    ensures NothingLost(Run(s, events), nodes, dst, next)
  {
    hide Run, LossFree, Live;
    forall a | a in nodes && a != dst && a in next
      ensures Asks(a, dst, next) !in Run(s, events).lost
    {
      LossFreeKeeps(s, events, Asks(a, dst, next));
    }
  }
}
