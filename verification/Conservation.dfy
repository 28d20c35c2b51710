/** Every reply was solicited: no node answers a requester more often than it was asked. */
module Conservation {
  import opened Options
  import opened Protocol
  import opened Network

  predicate WaitsAt(n: Node, d: Addr, r: Addr) {
    Some(r) in Waiting(n, d)
  }

  // Is q's sender on its receiver's PNR list for q's destination?
  predicate Waits(s: Net, q: Nreq) {
    q.to in s.nodes && WaitsAt(s.nodes[q.to], q.dst, q.src)
  }

  // Replies sent, plus one if a reply is still due, never exceed the requests received.
  ghost predicate Conserved(s: Net) {
    forall q :: s.answered[q] + (if Waits(s, q) then 1 else 0) <= s.received[q]
  }

  lemma NoRepeatsFront(list: seq<Option<Addr>>)
    requires list != [] && NoRepeats(list)
    ensures var front, last := list[..|list| - 1], list[|list| - 1];
            NoRepeats(front) && last !in front && forall x :: x in list <==> x in front || x == last
  {
    assert list == list[..|list| - 1] + [list[|list| - 1]];
  }

  lemma {:induction false} RepliesCount(self: Addr, list: seq<Option<Addr>>, dst: Addr, name: Name, q: Nreq)
    requires NoRepeats(list)
    ensures Answers(Replies(self, list, dst, name))[q] ==
            if q.to == self && q.dst == dst && Some(q.src) in list then 1 else 0
  {
    hide NoRepeats;
    if list == [] {
    } else {
      var front, last := list[..|list| - 1], list[|list| - 1];
      NoRepeatsFront(list);
      RepliesCount(self, front, dst, name, q);
      var ps := Replies(self, front, dst, name);
      if last.Some? {
        AnswersSnoc(ps, Nrep(self, last.value, dst, name), q);
      } else {
        assert Replies(self, list, dst, name) == ps;
      }
    }
  }

  lemma AnswersSnoc(ps: seq<Nrep>, p: Nrep, q: Nreq)
    ensures Answers(ps + [p])[q] == Answers(ps)[q] + if q == Nreq(p.to, p.src, p.dst) then 1 else 0
  {
    assert (ps + [p])[..|ps + [p]| - 1] == ps;
  }

  lemma RegisterWaits(n: Node, dst: Addr, requester: Option<Addr>, d: Addr, r: Addr)
    ensures WaitsAt(Register(n, dst, requester), d, r) <==> WaitsAt(n, d, r) || (d == dst && requester == Some(r))
  {
  }

  lemma OneAnswer(p: Nrep, q: Nreq)
    ensures Answers([])[q] == 0
    ensures Answers([p])[q] == if q == Nreq(p.to, p.src, p.dst) then 1 else 0
  {
    assert [p][..|[p]| - 1] == [];
  }

  // What one handler run adds to the books for q.
  lemma HandleConserves(s: Net, e: Event, q: Nreq)
    requires Handled(s, e) && WfNode(Actor(e), s.nodes[Actor(e)]) && q.to == Actor(e)
    ensures var n, f := s.nodes[Actor(e)], Handle(s, e);
            Answers(f.nreps)[q] + (if WaitsAt(f.node, q.dst, q.src) then 1 else 0)
              <= (if WaitsAt(n, q.dst, q.src) then 1 else 0) + (if e == DeliverNreq(q) then 1 else 0)
  {
    hide Answers, Replies, Register, StartTimer;
    var n := s.nodes[Actor(e)];
    OneAnswer(Nrep("", "", "", ""), q);
    match e {
      case AddRoute(_, dst, _) => RegisterWaits(n, dst, None, q.dst, q.src);
      case RemoveRoute(_, _) =>
      case Fire(_, _, _) => TimerTouchesOnlyTimers();
      case DeliverNreq(q') =>
        RegisterWaits(n, q'.dst, Some(q'.src), q.dst, q.src);
        if q'.dst in n.cache { OneAnswer(Nrep(q'.to, q'.src, q'.dst, n.cache[q'.dst]), q); }
      case DeliverNrep(p) =>
        if p.dst in n.pnrs { assert WfList(n.pnrs[p.dst]); }
        RepliesCount(p.to, Waiting(n, p.dst), p.dst, p.name, q);
    }
  }

  // Answers of another node do not count for q.
  lemma {:induction false} AnswersOwn(ps: seq<Nrep>, q: Nreq)
    requires forall p :: p in ps ==> p.src != q.to
    ensures Answers(ps)[q] == 0
  {
    if ps == [] {
    } else {
      AnswersOwn(ps[..|ps| - 1], q);
      assert ps[|ps| - 1] in ps;
    }
  }

  // How one event changes the books for q.
  lemma BooksStep(s: Net, e: Event, q: Nreq)
    ensures var t := Apply(s, e);
            && t.answered[q] == s.answered[q] + (if Handled(s, e) then Answers(Handle(s, e).nreps)[q] else 0)
            && t.received[q] == s.received[q] + (if Handled(s, e) && e == DeliverNreq(q) then 1 else 0)
            && (Waits(t, q) <==>
                  if Handled(s, e) && q.to == Actor(e) then WaitsAt(Handle(s, e).node, q.dst, q.src) else Waits(s, q))
  {
    hide NreqsLeft, NrepsLeft, Loses, Handle, Answers, WaitsAt;
  }

  lemma OwnEffect(hosts: map<Addr, Name>, s: Net, e: Event)
    requires Sound(hosts, s) && Handled(s, e)
    ensures WfNode(Actor(e), s.nodes[Actor(e)])
    ensures forall p :: p in Handle(s, e).nreps ==> p.src == Actor(e)
  {
    hide Handle, WfNode, TrueCache, WaitersAsked;
    HandleGood(hosts, s, e);
    assert GoodNode(hosts, s.asked, Actor(e), s.nodes[Actor(e)]);
  }

  lemma ConservedFor(hosts: map<Addr, Name>, s: Net, e: Event, q: Nreq)
    requires Sound(hosts, s) && Conserved(s)
    ensures var t := Apply(s, e); t.answered[q] + (if Waits(t, q) then 1 else 0) <= t.received[q]
  {
    hide Apply, Handle, Sound, Answers, WaitsAt, WfNode;
    assert s.answered[q] + (if Waits(s, q) then 1 else 0) <= s.received[q];
    BooksStep(s, e, q);
    if Handled(s, e) {
      OwnEffect(hosts, s, e);
      if q.to == Actor(e) {
        HandleConserves(s, e, q);
      } else {
        AnswersOwn(Handle(s, e).nreps, q);
      }
    }
  }

  lemma ConservedStep(hosts: map<Addr, Name>, s: Net, e: Event)
    requires Sound(hosts, s) && Conserved(s)
    ensures Conserved(Apply(s, e))
  {
    forall q
      ensures Apply(s, e).answered[q] + (if Waits(Apply(s, e), q) then 1 else 0) <= Apply(s, e).received[q]
    {
      ConservedFor(hosts, s, e, q);
    }
  }

  lemma {:induction false} RunConserved(hosts: map<Addr, Name>, events: seq<Event>)
    ensures Conserved(Run(Start(hosts), events))
  {
    if events == [] {
    } else {
      var front := events[..|events| - 1];
      RunConserved(hosts, front);
      RunSound(hosts, front);
      ConservedStep(hosts, Run(Start(hosts), front), events[|events| - 1]);
    }
  }

  // For every node n, requester r and destination d of every run, and in total.
  lemma RepliesAreSolicited(hosts: map<Addr, Name>, events: seq<Event>, n: Addr, r: Addr, d: Addr)
    ensures var s := Run(Start(hosts), events);
            && s.answered[Nreq(r, n, d)] + (if Waits(s, Nreq(r, n, d)) then 1 else 0) <= s.received[Nreq(r, n, d)]
            && |s.answered| <= |s.received|
  {
    RunConserved(hosts, events);
    var s := Run(Start(hosts), events);
    assert s.received == s.answered + (s.received - s.answered) by {
      assert forall q :: s.answered[q] <= s.received[q];
    }
  }
}
