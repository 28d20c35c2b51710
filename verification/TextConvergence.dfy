/** Convergence in the network of texts, with its exact condition. Other names may
    be misread, other messages and routes lost, and other nodes crashed. */
module TextConvergence {
  import opened Options
  import opened Protocol
  import opened Network
  import opened Messages
  import opened Provenance
  import opened Conservation
  import opened Convergence
  import opened TextNetwork

  // An event that is not misread acts as on parsed messages.
  lemma ReadStep(hosts: map<Addr, Name>, s: Net, e: Event)
    requires TrueNet(hosts, s) && WordNames(hosts) && (e.AddRoute? ==> Word(e.dst))
    requires !(Handled(s, e) && MisreadBy(e))
    ensures ApplyText(s, e) == Apply(s, e)
  {
    hide TrueNet, Handle, HandleText, Perform, TrueNode, Record, Wire, Word, Handled, WordNames, Misread;
    if Handled(s, e) {
      HandledIsTrue(hosts, s, e);
      TextMeans(hosts, s, e);
    }
  }

  // A misread reply acts as a request for the same destination.
  lemma MisreadStep(hosts: map<Addr, Name>, s: Net, e: Event)
    requires TrueNet(hosts, s) && WordNames(hosts) && Handled(s, e) && MisreadBy(e)
    ensures e.p.to in s.nodes && Misread(e.p.dst, e.p.name) && TrueReply(hosts, e.p)
    ensures var t, f := ApplyText(s, e), ReceiveNreq(e.p.to, s.nodes[e.p.to], e.p.src, e.p.dst);
            && t.nodes == s.nodes[e.p.to := f.node]
            && t.nreqs == s.nreqs && t.nreps == s.nreps - multiset{e.p} + multiset(f.nreps)
            && t.asked == s.asked && t.lost == s.lost
  {
    hide TrueNet, HandleText, Handle, TrueNode, Record, Word, WordNames, Misread, ReceiveNreq, Answers, TrueReply;
    hide Wire;
    HandledIsTrue(hosts, s, e);
    TextMeans(hosts, s, e);
    WireOfReply(s, e.p);
    RecordKeeps(s, e, Perform(Wire(s, e), Actor(e), HandleText(s, e)));
    RequestSendsNoRequest(e.p.to, s.nodes[e.p.to], e.p.src, e.p.dst);
  }

  lemma WireOfReply(s: Net, p: Nrep)
    requires Handled(s, DeliverNrep(p))
    ensures var t := Wire(s, DeliverNrep(p));
            && t.nodes == s.nodes && t.nreqs == s.nreqs && t.nreps == s.nreps - multiset{p}
            && t.asked == s.asked && t.lost == s.lost
  {
  }

  lemma RequestSendsNoRequest(a: Addr, n: Node, src: Addr, dst: Addr)
    ensures ReceiveNreq(a, n, src, dst).nreqs == []
  {
  }

  // A request for another destination changes nothing about d.
  lemma OtherRequest(a: Addr, n: Node, src: Addr, dst: Addr, d: Addr)
    requires dst != d
    ensures var t := ReceiveNreq(a, n, src, dst).node;
            (d in t.cache <==> d in n.cache) && (forall r :: WaitsAt(t, d, r) <==> WaitsAt(n, d, r))
  {
    RequestTeachesNothing(a, n, src, dst);
    hide Register, WaitsAt;
    forall r
      ensures WaitsAt(Register(n, dst, Some(src)), d, r) <==> WaitsAt(n, d, r)
    {
      RegisterWaits(n, dst, Some(src), d, r);
    }
  }

  // The reply about d, if d is a host, is not misread.
  predicate Clear(hosts: map<Addr, Name>, d: Addr) {
    d in hosts ==> !Misread(d, hosts[d])
  }

  // Misreading a reply about another destination leaves a request remembered.
  lemma MisreadKeeps(hosts: map<Addr, Name>, s: Net, e: Event, q: Nreq)
    requires TrueNet(hosts, s) && WordNames(hosts) && Handled(s, e) && MisreadBy(e) && Clear(hosts, q.dst)
    requires Remembered(s, q)
    ensures Remembered(ApplyText(s, e), q)
  {
    hide ApplyText, TrueNet, WordNames, Handled, ReceiveNreq, WaitsAt, Misread;
    MisreadStep(hosts, s, e);
    OtherRequest(e.p.to, s.nodes[e.p.to], e.p.src, e.p.dst, q.dst);
    var t := ApplyText(s, e);
    if Answered(s, q) {
      var p :| p in s.nreps && IsReply(p, q);
      assert p in t.nreps;
    }
  }

  lemma TextRememberedStep(hosts: map<Addr, Name>, s: Net, e: Event, q: Nreq)
    requires TrueNet(hosts, s) && WordNames(hosts) && (e.AddRoute? ==> Word(e.dst)) && Clear(hosts, q.dst)
    requires q in s.asked ==> q in s.lost || Remembered(s, q)
    ensures var t := ApplyText(s, e); q in t.asked ==> q in t.lost || Remembered(t, q)
  {
    hide Apply, ApplyText, TrueNet, WordNames, Handled, MisreadBy, Remembered, Word, Loses, Clear, ReceiveNreq;
    if Handled(s, e) && MisreadBy(e) {
      MisreadStep(hosts, s, e);
      if q in s.asked && q !in s.lost { MisreadKeeps(hosts, s, e, q); }
    } else {
      ReadStep(hosts, s, e);
      LostStep(s, e);
      if q in Apply(s, e).asked && q !in Apply(s, e).lost { RememberedStep(s, e, q); }
    }
  }

  // As long as it is not lost, no request for a name that is not misread is forgotten.
  lemma {:induction false} TextNoRequestForgotten(hosts: map<Addr, Name>, events: seq<Event>, q: Nreq)
    requires WordNames(hosts) && WordRoutes(events) && Clear(hosts, q.dst)
    ensures var s := RunText(Start(hosts), events); q in s.asked ==> q in s.lost || Remembered(s, q)
  {
    hide ApplyText, WordNames, Word, Remembered, TrueNet, Clear;
    if events == [] {
    } else {
      var front := events[..|events| - 1];
      assert events == front + [events[|events| - 1]];
      TextNoRequestForgotten(hosts, front, q);
      TextRunTrue(hosts, front);
      TextRememberedStep(hosts, RunText(Start(hosts), front), events[|events| - 1], q);
    }
  }

  lemma TextLiveBefore(s: Net, e: Event, a: Addr)
    requires Live(ApplyText(s, e), a)
    ensures Live(s, a)
  {
    hide Answers, NreqsLeft, NrepsLeft, Loses, Handle, HandleText, Record;
    if Handled(s, e) {
      RecordKeeps(s, e, Perform(Wire(s, e), Actor(e), HandleText(s, e)));
    }
  }

  // Names and requests sent are never forgotten.
  lemma TextGrows(s: Net, e: Event, a: Addr, d: Addr)
    ensures s.asked <= ApplyText(s, e).asked && (Knows(s, a, d) ==> Knows(ApplyText(s, e), a, d))
  {
    hide Answers, NreqsLeft, NrepsLeft, Loses, Handle, HandleText, Record;
    if Handled(s, e) {
      RecordKeeps(s, e, Perform(Wire(s, e), Actor(e), HandleText(s, e)));
      ActorIsNode(s, e);
      if d in s.nodes[Actor(e)].cache { TextHandlerKeeps(s, e, d); }
    }
  }

  lemma ReceiveKeeps(a: Addr, n: Node, src: Addr, text: string, d: Addr)
    requires d in n.cache
    ensures d in Receive(a, n, src, text).node.cache
  {
    hide Parse, ReceiveNreq, Replies;
    match Parse(text) {
      case Request(Some(dst)) => RequestTeachesNothing(a, n, src, dst);
      case _ =>
    }
  }

  lemma TextHandlerKeeps(s: Net, e: Event, d: Addr)
    requires Handled(s, e) && d in s.nodes[Actor(e)].cache
    ensures d in HandleText(s, e).node.cache
  {
    hide Receive, PrintNreq, PrintNrep, Handle;
    match e {
      case DeliverNreq(q) => ReceiveKeeps(q.to, s.nodes[q.to], q.src, PrintNreq(q.dst), d);
      case DeliverNrep(p) => ReceiveKeeps(p.to, s.nodes[p.to], p.src, PrintNrep(p.dst, p.name), d);
      case _ => HandleKnows(s, e);
    }
  }

  lemma {:induction false} TextRoutedAsked(hosts: map<Addr, Name>, events: seq<Event>, n: Addr, dst: Addr, hop: Addr)
    requires Live(RunText(Start(hosts), events), n) && AddRoute(n, dst, hop) in events
    ensures var s := RunText(Start(hosts), events); Knows(s, n, dst) || Nreq(n, hop, dst) in s.asked
  {
    hide Apply, ApplyText, Live, Knows, Start;
    var front, e := events[..|events| - 1], events[|events| - 1];
    assert events == front + [e];
    var s := RunText(Start(hosts), front);
    TextLiveBefore(s, e, n);
    TextGrows(s, e, n, dst);
    if AddRoute(n, dst, hop) in front {
      TextRoutedAsked(hosts, front, n, dst, hop);
    } else {
      RouteIsRouteInText(s, n, dst, hop);
      RouteAsked(s, n, dst, hop);
    }
  }

  lemma RouteIsRouteInText(s: Net, n: Addr, dst: Addr, hop: Addr)
    ensures ApplyText(s, AddRoute(n, dst, hop)) == Apply(s, AddRoute(n, dst, hop))
  {
    hide Handle, Perform, Wire, Record;
  }

  // A known name is not pending.
  ghost predicate KnownNotPending(n: Node) {
    forall d :: d in n.pnrs ==> d !in n.cache
  }

  lemma HandlerKeepsApart(s: Net, e: Event)
    requires Handled(s, e) && KnownNotPending(s.nodes[Actor(e)])
    ensures KnownNotPending(Handle(s, e).node)
    ensures e.DeliverNrep? ==> KnownNotPending(ReceiveNreq(e.p.to, s.nodes[e.p.to], e.p.src, e.p.dst).node)
  {
    hide StartTimer, Replies, Exists;
    TimerTouchesOnlyTimers();
  }

  lemma TextStepKeepsApart(hosts: map<Addr, Name>, s: Net, e: Event, a: Addr)
    requires TrueNet(hosts, s) && WordNames(hosts) && (e.AddRoute? ==> Word(e.dst))
    requires a in s.nodes && KnownNotPending(s.nodes[a])
    ensures a in ApplyText(s, e).nodes && KnownNotPending(ApplyText(s, e).nodes[a])
  {
    hide TrueNet, WordNames, Word, Handle, HandleText, Record, TrueEvent, TrueNode, KnownNotPending, ReceiveNreq;
    hide NreqsLeft, NrepsLeft, Loses, Answers, Misread;
    if Handled(s, e) {
      HandledIsTrue(hosts, s, e);
      TextMeans(hosts, s, e);
      RecordKeeps(s, e, Perform(Wire(s, e), Actor(e), HandleText(s, e)));
      if a == Actor(e) { HandlerKeepsApart(s, e); }
    }
  }

  lemma {:induction false} TextKnownNotPending(hosts: map<Addr, Name>, events: seq<Event>, a: Addr)
    requires WordNames(hosts) && WordRoutes(events) && a in hosts
    ensures var s := RunText(Start(hosts), events); a in s.nodes && KnownNotPending(s.nodes[a])
  {
    hide ApplyText, WordNames, Word, TrueNet;
    if events == [] {
    } else {
      var front := events[..|events| - 1];
      assert events == front + [events[|events| - 1]];
      TextKnownNotPending(hosts, front, a);
      TextRunTrue(hosts, front);
      TextStepKeepsApart(hosts, RunText(Start(hosts), front), events[|events| - 1], a);
    }
  }

  lemma KnowsItself(hosts: map<Addr, Name>, s: Net, a: Addr)
    requires TrueNet(hosts, s) && a in hosts
    ensures Knows(s, a, a)
  {
    hide Word, TrueReply;
    assert TrueNode(hosts, a, s.nodes[a]);
  }

  lemma KnownIsTrue(hosts: map<Addr, Name>, s: Net, a: Addr, d: Addr)
    requires TrueNet(hosts, s) && Knows(s, a, d)
    ensures d in hosts && s.nodes[a].cache[d] == hosts[d]
  {
    hide Word, TrueReply, WordNode;
    assert TrueNode(hosts, a, s.nodes[a]);
  }

  lemma NotWaiting(s: Net, q: Nreq)
    requires Knows(s, q.to, q.dst) && KnownNotPending(s.nodes[q.to])
    ensures !Waits(s, q)
  {
  }

  // A name that is not misread reaches every running node whose request along its route was not lost.
  lemma {:induction false} TextConvergesAt(hosts: map<Addr, Name>, events: seq<Event>, nodes: set<Addr>, dst: Addr,
                                           next: map<Addr, Addr>, dist: map<Addr, nat>, n: Addr)
    requires WordNames(hosts) && WordRoutes(events) && Clear(hosts, dst)
    requires dst in nodes && nodes <= hosts.Keys && LoopFree(nodes, dst, next, dist)
    requires RoutesSeen(events, nodes, dst, next)
    requires var s := RunText(Start(hosts), events);
             NothingLost(s, nodes, dst, next) && AllSettled(s, nodes, dst, next)
    requires forall a :: a in nodes ==> Live(RunText(Start(hosts), events), a)
    requires n in nodes
    ensures Knows(RunText(Start(hosts), events), n, dst)
    decreases if n in dist then dist[n] else 0
  {
    hide RunText, Start, Live, WordNames, WordRoutes, Clear, TrueNet, KnownNotPending, Knows, Waits;
    var s := RunText(Start(hosts), events);
    if n == dst {
      TextRunTrue(hosts, events);
      KnowsItself(hosts, s, dst);
    } else {
      var q := Asks(n, dst, next);
      assert next[n] in nodes;
      TextConvergesAt(hosts, events, nodes, dst, next, dist, next[n]);
      TextRoutedAsked(hosts, events, n, dst, next[n]);
      TextNoRequestForgotten(hosts, events, q);
      TextKnownNotPending(hosts, events, next[n]);
      NotWaiting(s, q);
    }
  }

  // The exact condition: the nodes come to know dst's true name exactly if its reply is not misread, or there is
  // nobody to tell.
  lemma TextConverges(hosts: map<Addr, Name>, events: seq<Event>, nodes: set<Addr>, dst: Addr,
                      next: map<Addr, Addr>, dist: map<Addr, nat>)
    requires WordNames(hosts) && WordRoutes(events)
    requires dst in nodes && nodes <= hosts.Keys && LoopFree(nodes, dst, next, dist)
    requires RoutesSeen(events, nodes, dst, next)
    requires var s := RunText(Start(hosts), events);
             NothingLost(s, nodes, dst, next) && AllSettled(s, nodes, dst, next)
    requires forall a :: a in nodes ==> Live(RunText(Start(hosts), events), a)
    ensures var s := RunText(Start(hosts), events);
            (forall n :: n in nodes ==> Knows(s, n, dst) && s.nodes[n].cache[dst] == hosts[dst]) <==>
            !Misread(dst, hosts[dst]) || nodes == {dst}
  {
    hide RunText, Start, Live, WordNames, WordRoutes, LoopFree, RoutesSeen, NothingLost, AllSettled, Misread, TrueNet;
    var s := RunText(Start(hosts), events);
    TextRunTrue(hosts, events);
    KnowsItself(hosts, s, dst);
    KnownIsTrue(hosts, s, dst, dst);
    if !Misread(dst, hosts[dst]) {
      forall n | n in nodes
        ensures Knows(s, n, dst) && s.nodes[n].cache[dst] == hosts[dst]
      {
        TextConvergesAt(hosts, events, nodes, dst, next, dist, n);
        KnownIsTrue(hosts, s, n, dst);
      }
    } else {
      OnlyOwnerKnows(hosts, events, dst);
      if n :| n in nodes && n != dst {
        assert !Knows(s, n, dst);
      } else {
        assert nodes == {dst};
      }
    }
  }
}
