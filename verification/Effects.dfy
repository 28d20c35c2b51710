/** What every event does, said without the handlers: which requests and replies
    it sends, what becomes of pending requests and timers, and the books of all
    messages over whole runs. */
module Effects {
  import opened Options
  import opened Protocol
  import opened Network
  import opened Timers
  import opened Crashes
  import opened Conservation
  import opened Convergence

  // ----- Requests -----

  // A request is sent for a route to an unknown name, unless no slot is left for its timer, and for a timer whose
  // destination is pending and has a route.
  ghost predicate SendsRequest(s: Net, e: Event, q: Nreq) {
    Handled(s, e) &&
    match e
    case AddRoute(a, dst, hop) => q == Nreq(a, hop, dst) && MayAsk(s.nodes[a], dst)
    case Fire(a, slot, route) => route.Some? && Retried(s.nodes[a], slot, q.dst) && q == Nreq(a, route.value, q.dst)
    case _ => false
  }

  ghost predicate MayAsk(n: Node, dst: Addr) {
    dst !in n.cache && (dst in n.pnrs || exists i :: 0 <= i < |n.slots| && n.slots[i] == 0)
  }

  // The timer of the slot is for dst, which is pending.
  predicate Retried(n: Node, slot: nat, dst: Addr) {
    Key(slot) in n.timers && n.timers[Key(slot)] == dst && dst in n.pnrs
  }

  lemma FreeSlotExists(slots: seq<nat>)
    ensures FreeSlot(slots) < |slots| <==> exists i :: 0 <= i < |slots| && slots[i] == 0
  {
  }

  lemma RouteSends(a: Addr, n: Node, dst: Addr, hop: Addr)
    requires !n.crashed
    ensures RouteAdded(a, n, dst, hop).nreqs == if MayAsk(n, dst) then [Nreq(a, hop, dst)] else []
  {
    FreeSlotExists(n.slots);
    RegisterCrashes(n, dst, None);
    hide Register;
  }

  lemma TimeoutSends(a: Addr, n: Node, slot: nat, route: Option<Addr>)
    requires TimerPool(n) && slot in n.armed && !n.crashed
    ensures Key(slot) in n.timers
    ensures Timeout(a, n, slot, route).nreqs ==
            var dst := n.timers[Key(slot)];
            if route.Some? && Retried(n, slot, dst) then [Nreq(a, route.value, dst)] else []
  {
    hide Timeout, TimerPool, StartTimer, Key, Stopped;
    TimerFires(a, n, slot, route);
  }

  // A handler sends exactly these requests, each once.
  lemma RequestsSent(s: Net, e: Event, q: Nreq)
    requires Handled(s, e) && TimerPool(s.nodes[Actor(e)])
    ensures multiset(Handle(s, e).nreqs)[q] == if SendsRequest(s, e, q) then 1 else 0
  {
    hide RouteAdded, Timeout, TimerPool, MayAsk, Key;
    match e {
      case AddRoute(a, dst, hop) => RouteSends(a, s.nodes[a], dst, hop);
      case Fire(a, slot, route) => TimeoutSends(a, s.nodes[a], slot, route);
      case _ =>
    }
  }

  lemma RegisterCrashes(n: Node, dst: Addr, requester: Option<Addr>)
    ensures Register(n, dst, requester).crashed <==>
            n.crashed || (dst !in n.pnrs && FreeSlot(n.slots) == |n.slots|)
  {
  }

  // Nobody asks for a name it knows.
  lemma OnlyUnknownIsAsked(hosts: map<Addr, Name>, events: seq<Event>, e: Event, q: Nreq)
    requires SendsRequest(Run(Start(hosts), events), e, q)
    ensures var s := Run(Start(hosts), events); Live(s, q.src) && !Knows(s, q.src, q.dst)
  {
    hide Run, Start, Key;
    var s := Run(Start(hosts), events);
    RunSound(hosts, events);
    SameNodes(hosts, s);
    PnrTablesWellFormed(hosts, events, Actor(e));
    hide WfList;
  }

  // An event takes a copy of a request off the wire.
  predicate TakesRequest(s: Net, e: Event, q: Nreq) {
    q in s.nreqs && (e == LoseNreq(q) || (e == DeliverNreq(q) && q.to in s.nodes))
  }

  lemma RequestStep(s: Net, e: Event, q: Nreq)
    requires Handled(s, e) ==> TimerPool(s.nodes[Actor(e)])
    ensures var t := Apply(s, e);
            && t.nreqs[q] + (if TakesRequest(s, e, q) then 1 else 0) ==
               s.nreqs[q] + (if SendsRequest(s, e, q) then 1 else 0) +
               (if e == CopyNreq(q) && q in s.nreqs then 1 else 0)
            && (q in t.asked <==> q in s.asked || SendsRequest(s, e, q))
            && t.received[q] == s.received[q] + if Handled(s, e) && e == DeliverNreq(q) then 1 else 0
  {
    MessagesStep(s, e);
    BooksStep(s, e, q);
    RequestsLeft(s, e, q);
    if Handled(s, e) {
      RequestsSent(s, e, q);
      InSequence(Handle(s, e).nreqs, q);
    }
    hide Apply, Handle, NreqsLeft, TakesRequest, TimerPool;
  }

  lemma InSequence<T>(xs: seq<T>, x: T)
    ensures x in xs <==> multiset(xs)[x] > 0
  {
    assert x in xs <==> x in multiset(xs);
  }

  lemma RequestsLeft(s: Net, e: Event, q: Nreq)
    ensures NreqsLeft(s, e)[q] + (if TakesRequest(s, e, q) then 1 else 0) ==
            s.nreqs[q] + if e == CopyNreq(q) && q in s.nreqs then 1 else 0
  {
  }

  // How often a message was sent, copied, taken off the wire and received in a run.
  datatype Tally = Tally(sent: nat, copied: nat, taken: nat, received: nat)

  ghost function RequestTally(s: Net, events: seq<Event>, q: Nreq): Tally {
    if events == [] then Tally(0, 0, 0, 0)
    else
      var t, e := Run(s, events[..|events| - 1]), events[|events| - 1];
      var r := RequestTally(s, events[..|events| - 1], q);
      Tally(r.sent + (if SendsRequest(t, e, q) then 1 else 0),
            r.copied + (if e == CopyNreq(q) && q in t.nreqs then 1 else 0),
            r.taken + (if TakesRequest(t, e, q) then 1 else 0),
            r.received + (if Handled(t, e) && e == DeliverNreq(q) then 1 else 0))
  }

  // The books of a request: what is in flight was sent or copied and not yet taken; it counts as asked exactly if
  // it was sent, and as received whenever it reached a running node.
  lemma {:induction false} RequestBooks(hosts: map<Addr, Name>, events: seq<Event>, q: Nreq)
    ensures var s, r := Run(Start(hosts), events), RequestTally(Start(hosts), events, q);
            && s.nreqs[q] + r.taken == r.sent + r.copied
            && (q in s.asked <==> r.sent > 0) && s.received[q] == r.received
  {
    hide Start, Run, Apply, SendsRequest, TakesRequest, Handled;
    if events == [] {
      RunNone(Start(hosts));
      NothingSent(hosts);
    } else {
      var front, e := events[..|events| - 1], events[|events| - 1];
      assert events == front + [e];
      RequestBooks(hosts, front, q);
      RunOne(Start(hosts), front, e);
      if Handled(Run(Start(hosts), front), e) { PoolOf(hosts, front, e); }
      RequestStep(Run(Start(hosts), front), e, q);
    }
  }

  lemma NothingSent(hosts: map<Addr, Name>)
    ensures var s := Start(hosts);
            && s.nreqs == multiset{} && s.nreps == multiset{} && s.asked == {}
            && s.received == multiset{} && s.answered == multiset{}
  {
  }

  // In a run, the node that handles an event has a consistent timer pool and well-formed tables.
  lemma PoolOf(hosts: map<Addr, Name>, events: seq<Event>, e: Event)
    requires Handled(Run(Start(hosts), events), e)
    ensures var s := Run(Start(hosts), events);
            && Actor(e) in hosts && Actor(e) in s.nodes
            && TimerPool(s.nodes[Actor(e)]) && WfNode(Actor(e), s.nodes[Actor(e)])
  {
    hide Run, Start, TimerPool, WfNode;
    ActorIsNode(Run(Start(hosts), events), e);
    RunSound(hosts, events);
    SameNodes(hosts, Run(Start(hosts), events));
    TimerPoolAlways(hosts, events, Actor(e));
    PnrTablesWellFormed(hosts, events, Actor(e));
  }

  // ----- Replies -----

  // The remote requesters of a list, in order.
  function Remotes(list: seq<Option<Addr>>): seq<Addr> {
    if list == [] then []
    else (if list[0].Some? then [list[0].value] else []) + Remotes(list[1..])
  }

  lemma {:induction false} RemotesSnoc(list: seq<Option<Addr>>, x: Option<Addr>)
    ensures Remotes(list + [x]) == Remotes(list) + if x.Some? then [x.value] else []
  {
    if list == [] {
      assert list + [x] == [x];
    } else {
      RemotesSnoc(list[1..], x);
      assert (list + [x])[1..] == list[1..] + [x];
    }
  }

  // The list walk replies to every remote requester, in the order of the list.
  lemma {:induction false} RepliesInOrder(self: Addr, list: seq<Option<Addr>>, dst: Addr, name: Name)
    ensures var ps, rs := Replies(self, list, dst, name), Remotes(list);
            |ps| == |rs| && forall i :: 0 <= i < |rs| ==> ps[i] == Nrep(self, rs[i], dst, name)
  {
    if list == [] {
    } else {
      var front, x := list[..|list| - 1], list[|list| - 1];
      assert list == front + [x];
      RepliesInOrder(self, front, dst, name);
      RemotesSnoc(front, x);
    }
  }

  lemma {:induction false} RepliesOnce(self: Addr, list: seq<Option<Addr>>, dst: Addr, name: Name, p: Nrep)
    requires NoRepeats(list)
    ensures multiset(Replies(self, list, dst, name))[p] ==
            if p.src == self && p.dst == dst && p.name == name && Some(p.to) in list then 1 else 0
  {
    hide NoRepeats;
    if list == [] {
    } else {
      var front, last := list[..|list| - 1], list[|list| - 1];
      NoRepeatsFront(list);
      RepliesOnce(self, front, dst, name, p);
    }
  }

  // A request for a known name is answered at once; the first reply about a name is passed on to all who wait for it.
  predicate SendsReply(s: Net, e: Event, p: Nrep) {
    Handled(s, e) &&
    match e
    case DeliverNreq(q) => q.dst in s.nodes[q.to].cache && p == Nrep(q.to, q.src, q.dst, s.nodes[q.to].cache[q.dst])
    case DeliverNrep(r) =>
      && r.dst !in s.nodes[r.to].cache && Some(p.to) in Waiting(s.nodes[r.to], r.dst)
      && p == Nrep(r.to, p.to, r.dst, r.name)
    case _ => false
  }

  // A handler sends exactly these replies, each once.
  lemma RepliesSent(s: Net, e: Event, p: Nrep)
    requires Handled(s, e) && TimerPool(s.nodes[Actor(e)]) && WfNode(Actor(e), s.nodes[Actor(e)])
    ensures multiset(Handle(s, e).nreps)[p] == if SendsReply(s, e, p) then 1 else 0
  {
    hide Register, StartTimer, Replies, TimerPool;
    match e {
      case DeliverNrep(r) =>
        if r.dst in s.nodes[r.to].pnrs { assert WfList(s.nodes[r.to].pnrs[r.dst]); }
        RepliesOnce(r.to, Waiting(s.nodes[r.to], r.dst), r.dst, r.name, p);
      case _ =>
    }
  }

  predicate TakesReply(s: Net, e: Event, p: Nrep) {
    p in s.nreps && (e == LoseNrep(p) || (e == DeliverNrep(p) && p.to in s.nodes))
  }

  lemma RepliesLeft(s: Net, e: Event, p: Nrep)
    ensures NrepsLeft(s, e)[p] + (if TakesReply(s, e, p) then 1 else 0) ==
            s.nreps[p] + if e == CopyNrep(p) && p in s.nreps then 1 else 0
  {
  }

  lemma ReplyStep(s: Net, e: Event, p: Nrep)
    requires Handled(s, e) ==> TimerPool(s.nodes[Actor(e)]) && WfNode(Actor(e), s.nodes[Actor(e)])
    ensures Apply(s, e).nreps[p] + (if TakesReply(s, e, p) then 1 else 0) ==
            s.nreps[p] + (if SendsReply(s, e, p) then 1 else 0) + (if e == CopyNrep(p) && p in s.nreps then 1 else 0)
  {
    MessagesStep(s, e);
    RepliesLeft(s, e, p);
    if Handled(s, e) {
      RepliesSent(s, e, p);
    }
    hide Apply, Handle, NrepsLeft, TakesReply, TimerPool, WfNode;
  }

  ghost function ReplyTally(s: Net, events: seq<Event>, p: Nrep): Tally {
    if events == [] then Tally(0, 0, 0, 0)
    else
      var t, e := Run(s, events[..|events| - 1]), events[|events| - 1];
      var r := ReplyTally(s, events[..|events| - 1], p);
      Tally(r.sent + (if SendsReply(t, e, p) then 1 else 0),
            r.copied + (if e == CopyNrep(p) && p in t.nreps then 1 else 0),
            r.taken + (if TakesReply(t, e, p) then 1 else 0),
            r.received + (if Handled(t, e) && e == DeliverNrep(p) then 1 else 0))
  }

  // The books of a reply.
  lemma {:induction false} ReplyBooks(hosts: map<Addr, Name>, events: seq<Event>, p: Nrep)
    ensures var s, r := Run(Start(hosts), events), ReplyTally(Start(hosts), events, p);
            s.nreps[p] + r.taken == r.sent + r.copied
  {
    hide Start, Run, Apply, SendsReply, TakesReply, Handled;
    if events == [] {
      RunNone(Start(hosts));
      NothingSent(hosts);
    } else {
      var front, e := events[..|events| - 1], events[|events| - 1];
      assert events == front + [e];
      ReplyBooks(hosts, front, p);
      RunOne(Start(hosts), front, e);
      if Handled(Run(Start(hosts), front), e) { PoolOf(hosts, front, e); }
      ReplyStep(Run(Start(hosts), front), e, p);
    }
  }

  // An event answers q.
  ghost predicate AnswersRequest(s: Net, e: Event, q: Nreq) {
    exists p :: SendsReply(s, e, p) && IsReply(p, q)
  }

  lemma {:induction false} AnswersOnce(ps: seq<Nrep>, q: Nreq)
    requires forall p, p' :: p in ps && p' in ps && IsReply(p, q) && IsReply(p', q) ==> p == p'
    requires forall p :: multiset(ps)[p] <= 1
    ensures Answers(ps)[q] == if exists p :: p in ps && IsReply(p, q) then 1 else 0
  {
    if ps == [] {
    } else {
      var front, last := ps[..|ps| - 1], ps[|ps| - 1];
      assert ps == front + [last];
      assert forall p :: multiset(ps)[p] == multiset(front)[p] + if p == last then 1 else 0;
      AnswersOnce(front, q);
      if IsReply(last, q) {
        assert last !in front by { assert multiset(front)[last] == 0; }
      }
    }
  }

  // Answers recorded for q are the events that sent a reply to it.
  lemma AnswersStep(s: Net, e: Event, q: Nreq)
    requires Handled(s, e) ==> TimerPool(s.nodes[Actor(e)]) && WfNode(Actor(e), s.nodes[Actor(e)])
    ensures Apply(s, e).answered[q] == s.answered[q] + if AnswersRequest(s, e, q) then 1 else 0
  {
    hide Apply, Handle, Handled, TimerPool, WfNode, SendsReply, Answers, Waits;
    BooksStep(s, e, q);
    if Handled(s, e) {
      HandlerAnswers(s, e, q);
    } else {
      UnhandledAnswersNothing(s, e, q);
    }
  }

  lemma HandlerAnswers(s: Net, e: Event, q: Nreq)
    requires Handled(s, e) && TimerPool(s.nodes[Actor(e)]) && WfNode(Actor(e), s.nodes[Actor(e)])
    ensures Answers(Handle(s, e).nreps)[q] == if AnswersRequest(s, e, q) then 1 else 0
  {
    hide Handle, Handled, TimerPool, WfNode, SendsReply, Answers;
    var ps := Handle(s, e).nreps;
    forall p
      ensures multiset(ps)[p] == if SendsReply(s, e, p) then 1 else 0
      ensures p in ps <==> SendsReply(s, e, p)
    {
      RepliesSent(s, e, p);
      InSequence(ps, p);
    }
    forall p, p' | p in ps && p' in ps && IsReply(p, q) && IsReply(p', q)
      ensures p == p'
    {
      OneReplyEach(s, e, p, p');
    }
    AnswersOnce(ps, q);
  }

  lemma OneReplyEach(s: Net, e: Event, p: Nrep, p': Nrep)
    requires SendsReply(s, e, p) && SendsReply(s, e, p') && p.to == p'.to && p.dst == p'.dst
    ensures p == p'
  {
  }

  lemma UnhandledAnswersNothing(s: Net, e: Event, q: Nreq)
    requires !Handled(s, e)
    ensures !AnswersRequest(s, e, q)
  {
  }

  ghost function AnswerTally(s: Net, events: seq<Event>, q: Nreq): nat {
    if events == [] then 0
    else
      AnswerTally(s, events[..|events| - 1], q) +
      if AnswersRequest(Run(s, events[..|events| - 1]), events[|events| - 1], q) then 1 else 0
  }

  lemma {:induction false} AnswerBooks(hosts: map<Addr, Name>, events: seq<Event>, q: Nreq)
    ensures Run(Start(hosts), events).answered[q] == AnswerTally(Start(hosts), events, q)
  {
    hide Start, Run, Apply, AnswersRequest, Handled;
    if events == [] {
      RunNone(Start(hosts));
      NothingSent(hosts);
    } else {
      var front, e := events[..|events| - 1], events[|events| - 1];
      assert events == front + [e];
      AnswerBooks(hosts, front, q);
      RunOne(Start(hosts), front, e);
      if Handled(Run(Start(hosts), front), e) { PoolOf(hosts, front, e); }
      AnswersStep(Run(Start(hosts), front), e, q);
    }
  }

  // ----- Pending requests and timers -----

  // The event asks a for d, or adds a route of a to it.
  predicate Concerns(s: Net, e: Event, a: Addr, d: Addr) {
    Handled(s, e) && Actor(e) == a &&
    match e
    case AddRoute(_, dst, _) => dst == d
    case DeliverNreq(q) => q.dst == d
    case _ => false
  }

  // Who asks: a itself, or the sender of the request.
  function Requester(e: Event): Option<Addr> {
    match e
    case DeliverNreq(q) => Some(q.src)
    case _ => None
  }

  lemma PendingHandled(s: Net, e: Event, d: Addr)
    requires Handled(s, e)
    ensures var a, t := Actor(e), Handle(s, e).node;
            var n := s.nodes[a];
            && (d in t.pnrs <==>
                  if d in n.pnrs then e != RemoveRoute(a, d) && !Teaches(s, e, a, d)
                  else Concerns(s, e, a, d) && d !in n.cache)
            && (d in t.pnrs ==> t.pnrs[d] == ListAfter(s, e, a, d))
  {
    hide Register, Timeout;
    match e {
      case AddRoute(a, dst, _) => RegisterPending(s.nodes[a], dst, None, d);
      case DeliverNreq(q) => RegisterPending(s.nodes[q.to], q.dst, Some(q.src), d);
      case Fire(a, slot, route) => TimeoutKeepsPending(a, s.nodes[a], slot, route);
      case _ =>
    }
  }

  lemma RegisterPending(n: Node, dst: Addr, requester: Option<Addr>, d: Addr)
    ensures var t := Register(n, dst, requester);
            && (d in t.pnrs <==> d in n.pnrs || d == dst)
            && (d in n.pnrs && (d != dst || (requester.Some? && requester in n.pnrs[d])) ==> t.pnrs[d] == n.pnrs[d])
            && (d == dst && d in n.pnrs && !(requester.Some? && requester in n.pnrs[d]) ==>
                  t.pnrs[d] == n.pnrs[d] + [requester])
            && (d == dst && d !in n.pnrs ==> t.pnrs[d] == [requester])
  {
    hide StartTimer;
    TimerTouchesOnlyTimers();
  }

  lemma TimeoutKeepsPending(a: Addr, n: Node, slot: nat, route: Option<Addr>)
    requires slot < |n.slots|
    ensures Timeout(a, n, slot, route).node.pnrs == n.pnrs
  {
    hide StartTimer;
    TimerTouchesOnlyTimers();
  }

  // The list of d, if d is still pending: it only grows, by a requester that is not in it yet, at the end.
  function ListAfter(s: Net, e: Event, a: Addr, d: Addr): seq<Option<Addr>>
    requires a in s.nodes
  {
    var n := s.nodes[a];
    if d !in n.pnrs then [Requester(e)]
    else if Concerns(s, e, a, d) && e.DeliverNreq? && d !in n.cache && Some(e.q.src) !in n.pnrs[d]
    then n.pnrs[d] + [Some(e.q.src)]
    else n.pnrs[d]
  }

  // A request stays pending until its route is removed or its name learned, and becomes pending only for an unknown
  // name that is asked for. The old list is a prefix of the new one.
  lemma PendingStep(s: Net, e: Event, a: Addr, d: Addr)
    requires a in s.nodes
    ensures a in Apply(s, e).nodes
    ensures var n, t := s.nodes[a], Apply(s, e).nodes[a];
            && (d in t.pnrs <==>
                  if d in n.pnrs then !(Handled(s, e) && e == RemoveRoute(a, d)) && !Teaches(s, e, a, d)
                  else Concerns(s, e, a, d) && d !in n.cache)
            && (d in t.pnrs ==> t.pnrs[d] == ListAfter(s, e, a, d))
            && (d in t.pnrs && d in n.pnrs ==> n.pnrs[d] <= t.pnrs[d])
  {
    hide Apply, Handle;
    NodesStep(s, e);
    if Handled(s, e) && a == Actor(e) { PendingHandled(s, e, d); }
  }

  // Timers change only by a timeout, or by a request that becomes pending.
  lemma TimersStep(s: Net, e: Event, a: Addr)
    requires a in s.nodes && !(Handled(s, e) && Actor(e) == a && e.Fire?) && !Opens(s, e, a)
    ensures a in Apply(s, e).nodes
    ensures var n, t := s.nodes[a], Apply(s, e).nodes[a];
            t.slots == n.slots && t.timers == n.timers && t.armed == n.armed && t.crashed == n.crashed
  {
    hide Replies, StartTimer, Answers, Exists;
    NodesStep(s, e);
    hide Apply;
  }

  // ----- The environment -----

  // Which events reach a handler: those of a running node, for a message that is in flight or a timer that runs.
  lemma HandledExactly(s: Net, e: Event)
    requires Live(s, Actor(e)) ==> TimerPool(s.nodes[Actor(e)])
    ensures e.AddRoute? || e.RemoveRoute? ==> (Handled(s, e) <==> Live(s, e.self))
    ensures e.Fire? ==> (Handled(s, e) <==> Live(s, e.self) && e.slot in s.nodes[e.self].armed)
    ensures e.DeliverNreq? ==> (Handled(s, e) <==> Live(s, e.q.to) && s.nreqs[e.q] > 0)
    ensures e.DeliverNrep? ==> (Handled(s, e) <==> Live(s, e.p.to) && s.nreps[e.p] > 0)
    ensures e.LoseNreq? || e.LoseNrep? || e.CopyNreq? || e.CopyNrep? ==> !Handled(s, e)
  {
    if e.Fire? && Live(s, e.self) && e.slot in s.nodes[e.self].armed {
      RunningTimer(s.nodes[e.self], e.slot);
    }
    hide TimerPool;
  }

  // Losing or copying a message does nothing else.
  lemma EnvironmentStep(s: Net, e: Event)
    requires e.LoseNreq? || e.LoseNrep? || e.CopyNreq? || e.CopyNrep?
    ensures var t := Apply(s, e);
            && t.nodes == s.nodes && t.asked == s.asked && t.received == s.received && t.answered == s.answered
            && (e.LoseNreq? || e.CopyNreq? ==> t.nreps == s.nreps)
            && (e.LoseNrep? || e.CopyNrep? ==> t.nreqs == s.nreqs)
  {
    hide Handle, Record, Perform, Loses, NreqsLeft, NrepsLeft;
    OneKindLeft(s, e);
    assert !Handled(s, e);
  }

  // An event about requests alone leaves the replies in flight alone, and the other way round.
  lemma OneKindLeft(s: Net, e: Event)
    ensures e.LoseNreq? || e.CopyNreq? ==> NrepsLeft(s, e) == s.nreps
    ensures e.LoseNrep? || e.CopyNrep? ==> NreqsLeft(s, e) == s.nreqs
  {
  }

  // Removing a route drops the pending request for it and leaves everything else alone: the requests for other
  // destinations with their lists, the names, the timers, the other nodes and the messages.
  lemma RouteRemovedKeeps(s: Net, a: Addr, dst: Addr)
    requires Live(s, a)
    ensures a in Apply(s, RemoveRoute(a, dst)).nodes
    ensures var n, t := s.nodes[a], Apply(s, RemoveRoute(a, dst));
            && (forall d :: d in t.nodes[a].pnrs <==> d in n.pnrs && d != dst)
            && (forall d :: d in n.pnrs && d != dst ==> t.nodes[a].pnrs[d] == n.pnrs[d])
            && t.nodes[a].cache == n.cache && t.nodes[a].slots == n.slots && t.nodes[a].timers == n.timers
            && t.nodes[a].armed == n.armed && t.nodes[a].crashed == n.crashed
            && t.nodes == s.nodes[a := t.nodes[a]] && t.nreqs == s.nreqs && t.nreps == s.nreps
            && t.asked == s.asked && t.received == s.received && t.answered == s.answered
  {
    hide Loses, Exists, StartTimer, Replies;
  }

  // ----- Losses -----

  // What loses a request: it or its reply is lost on the way or at a crashed node, or its receiver removes the
  // route it waits for.
  ghost predicate LosesRequest(s: Net, e: Event, q: Nreq) {
    || (e == LoseNreq(q) && q in s.nreqs)
    || (e == DeliverNreq(q) && q in s.nreqs && q.to in s.nodes && s.nodes[q.to].crashed)
    || (e == RemoveRoute(q.to, q.dst) && Live(s, q.to) && WaitsAt(s.nodes[q.to], q.dst, q.src))
    || (exists p :: p in s.nreps && IsReply(p, q) &&
          (e == LoseNrep(p) || (e == DeliverNrep(p) && p.to in s.nodes && s.nodes[p.to].crashed)))
  }

  lemma LosesExactly(s: Net, e: Event, q: Nreq)
    ensures q in Apply(s, e).lost <==> q in s.lost || LosesRequest(s, e, q)
  {
    LostStep(s, e);
    hide Apply;
    match e {
      case RemoveRoute(a, d) =>
        if Live(s, a) && q.to == a && q.dst == d && WaitsAt(s.nodes[a], d, q.src) {
          WaiterOf(a, Waiting(s.nodes[a], d), q);
        }
      case LoseNrep(p) => assert p in s.nreps && q == Nreq(p.to, p.src, p.dst) ==> IsReply(p, q);
      case DeliverNrep(p) => assert p in s.nreps && q == Nreq(p.to, p.src, p.dst) ==> IsReply(p, q);
      case _ =>
    }
  }
}
