/** Any number of NameSPREAD nodes and the messages in flight between them.
    Messages are delivered in any order and may be lost or duplicated. */
module Network {
  import opened Options
  import opened Protocol

  // The fields after `nreps` only record history. An answer is recorded as the
  // request it answers; teacher and rank say who taught a name and when; lost
  // holds the requests that were lost or dropped or whose reply was lost.
  datatype Net = Net(
    nodes: map<Addr, Node>,
    nreqs: multiset<Nreq>,
    nreps: multiset<Nrep>,
    asked: set<Nreq>,
    received: multiset<Nreq>,
    answered: multiset<Nreq>,
    teacher: map<(Addr, Addr), Addr>,
    rank: map<(Addr, Addr), nat>,
    clock: nat,
    lost: set<Nreq>)

  datatype Event =
    | AddRoute(self: Addr, dst: Addr, hop: Addr)
    | RemoveRoute(self: Addr, dst: Addr)
    | Fire(self: Addr, slot: nat, route: Option<Addr>)
    | DeliverNreq(q: Nreq)
    | DeliverNrep(p: Nrep)
    | LoseNreq(q: Nreq)
    | LoseNrep(p: Nrep)
    | CopyNreq(q: Nreq)
    | CopyNrep(p: Nrep)

  function Start(hosts: map<Addr, Name>): Net {
    Net(map a | a in hosts :: Boot(a, hosts[a]), multiset{}, multiset{},
        {}, multiset{}, multiset{}, map[], map[], 0, {})
  }

  predicate Live(s: Net, a: Addr) {
    a in s.nodes && !s.nodes[a].crashed
  }

  // The requests that the replies answer.
  function Answers(ps: seq<Nrep>): multiset<Nreq> {
    if ps == [] then multiset{}
    else Answers(ps[..|ps| - 1]) + multiset{Nreq(ps[|ps| - 1].to, ps[|ps| - 1].src, ps[|ps| - 1].dst)}
  }

  // The event reaches a running node whose handler it starts.
  predicate Handled(s: Net, e: Event) {
    match e
    case AddRoute(a, _, _) => Live(s, a)
    case RemoveRoute(a, _) => Live(s, a)
    case Fire(a, slot, _) => Live(s, a) && slot in s.nodes[a].armed && slot < |s.nodes[a].slots|
    case DeliverNreq(q) => q in s.nreqs && Live(s, q.to)
    case DeliverNrep(p) => p in s.nreps && Live(s, p.to)
    case _ => false
  }

  function Actor(e: Event): Addr {
    match e
    case AddRoute(a, _, _) => a
    case RemoveRoute(a, _) => a
    case Fire(a, _, _) => a
    case DeliverNreq(q) => q.to
    case DeliverNrep(p) => p.to
    case _ => ""
  }

  // What the handler does.
  function Handle(s: Net, e: Event): Effect
    requires Handled(s, e)
  {
    var a := Actor(e);
    var n := s.nodes[a];
    match e
    case AddRoute(_, dst, hop) => RouteAdded(a, n, dst, hop)
    case RemoveRoute(_, dst) => Effect(RouteRemoved(n, dst), [], [])
    case Fire(_, slot, route) => Timeout(a, n, slot, route)
    case DeliverNreq(q) => ReceiveNreq(a, n, q.src, q.dst)
    case DeliverNrep(p) => ReceiveNrep(a, n, p.dst, p.name)
  }

  // Messages left on the wire by an event. A message to a crashed node is lost.
  function NreqsLeft(s: Net, e: Event): multiset<Nreq> {
    match e
    case DeliverNreq(q) => if q.to in s.nodes then s.nreqs - multiset{q} else s.nreqs
    case LoseNreq(q) => s.nreqs - multiset{q}
    case CopyNreq(q) => if q in s.nreqs then s.nreqs + multiset{q} else s.nreqs
    case _ => s.nreqs
  }

  function NrepsLeft(s: Net, e: Event): multiset<Nrep> {
    match e
    case DeliverNrep(p) => if p.to in s.nodes then s.nreps - multiset{p} else s.nreps
    case LoseNrep(p) => s.nreps - multiset{p}
    case CopyNrep(p) => if p in s.nreps then s.nreps + multiset{p} else s.nreps
    case _ => s.nreps
  }

  // The requests of the remote requesters in node h's list for d.
  function RequestsOf(h: Addr, list: seq<Option<Addr>>, d: Addr): set<Nreq> {
    set i | 0 <= i < |list| && list[i].Some? :: Nreq(list[i].value, h, d)
  }

  // Does the reply p answer the request q?
  predicate IsReply(p: Nrep, q: Nreq) {
    p.src == q.to && p.to == q.src && p.dst == q.dst
  }

  // The requests that an event loses: the message in flight or its reply is lost, on the way or at a crashed
  // node, or the receiver drops it together with its route.
  function Loses(s: Net, e: Event): set<Nreq> {
    match e
    case RemoveRoute(a, d) => if Live(s, a) then RequestsOf(a, Waiting(s.nodes[a], d), d) else {}
    case LoseNreq(q) => if q in s.nreqs then {q} else {}
    case LoseNrep(p) => if p in s.nreps then {Nreq(p.to, p.src, p.dst)} else {}
    case DeliverNreq(q) => if q in s.nreqs && q.to in s.nodes && !Live(s, q.to) then {q} else {}
    case DeliverNrep(p) =>
      if p in s.nreps && p.to in s.nodes && !Live(s, p.to) then {Nreq(p.to, p.src, p.dst)} else {}
    case _ => {}
  }

  function Wire(s: Net, e: Event): Net {
    s.(nreqs := NreqsLeft(s, e), nreps := NrepsLeft(s, e), lost := s.lost + Loses(s, e))
  }

  // Node a moves to its new state and its messages enter the network.
  function Perform(s: Net, a: Addr, f: Effect): Net {
    s.(nodes := s.nodes[a := f.node],
       nreqs := s.nreqs + multiset(f.nreqs),
       nreps := s.nreps + multiset(f.nreps),
       asked := s.asked + (set q | q in f.nreqs),
       answered := s.answered + Answers(f.nreps))
  }

  // Does event e teach a name of d to node a?
  predicate Teaches(s: Net, e: Event, a: Addr, d: Addr) {
    e.DeliverNrep? && Handled(s, e) && e.p.to == a && e.p.dst == d && d !in s.nodes[a].cache
  }

  // The rest of the history: requests received, and who taught what.
  function Record(s: Net, e: Event, t: Net): Net {
    match e
    case DeliverNreq(q) => t.(received := t.received + multiset{q})
    case DeliverNrep(p) =>
      if Teaches(s, e, p.to, p.dst) then
        t.(teacher := t.teacher[(p.to, p.dst) := p.src],
           rank := t.rank[(p.to, p.dst) := t.clock + 1], clock := t.clock + 1)
      else t
    case _ => t
  }

  // An event that is not possible has no effect on nodes or messages.
  function Apply(s: Net, e: Event): Net {
    if Handled(s, e) then Record(s, e, Perform(Wire(s, e), Actor(e), Handle(s, e))) else Wire(s, e)
  }

  function Run(s: Net, events: seq<Event>): Net {
    if events == [] then s else Apply(Run(s, events[..|events| - 1]), events[|events| - 1])
  }

  lemma {:induction false} RunOn(s: Net, events: seq<Event>, more: seq<Event>)
    ensures Run(Run(s, events), more) == Run(s, events + more)
  {
    hide Apply;
    if more == [] {
      assert events + more == events;
    } else {
      RunOn(s, events, more[..|more| - 1]);
      assert (events + more)[..|events + more| - 1] == events + more[..|more| - 1];
    }
  }

  lemma RunNone(s: Net)
    ensures Run(s, []) == s
  {
  }

  lemma RunOne(s: Net, events: seq<Event>, e: Event)
    ensures Run(s, events + [e]) == Apply(Run(s, events), e)
  {
    hide Apply;
    assert (events + [e])[..|events + [e]| - 1] == events;
  }

  lemma Run3(s: Net, a: Event, b: Event, c: Event)
    ensures Run(s, [a, b, c]) == Apply(Apply(Apply(s, a), b), c)
  {
    hide Apply;
    assert [a, b, c][..2] == [a, b] && [a, b][..1] == [a] && [a][..0] == [];
    assert Run(s, [a]) == Apply(s, a);
    assert Run(s, [a, b]) == Apply(Run(s, [a]), b);
  }

  // ----- Safety invariants -----

  ghost predicate NoRepeats(list: seq<Option<Addr>>) {
    forall i, j :: 0 <= i < j < |list| ==> list[i] != list[j]
  }

  // A PNR list: non-empty, no repeated requester, a local request only at the head.
  ghost predicate WfList(list: seq<Option<Addr>>) {
    && list != []
    && NoRepeats(list)
    && (forall i :: 0 < i < |list| ==> list[i].Some?)
  }

  // A node always knows its own name; a pending destination is not cached.
  ghost predicate WfNode(a: Addr, n: Node) {
    && a in n.cache
    && forall d :: d in n.pnrs ==> d !in n.cache && WfList(n.pnrs[d])
  }

  // Every binding is the address's own hostname.
  ghost predicate TrueCache(hosts: map<Addr, Name>, n: Node) {
    forall d :: d in n.cache ==> d in hosts && n.cache[d] == hosts[d]
  }

  // Every waiting requester has asked.
  ghost predicate WaitersAsked(asked: set<Nreq>, a: Addr, n: Node) {
    forall d, r :: Some(r) in Waiting(n, d) ==> Nreq(r, a, d) in asked
  }

  ghost predicate GoodNode(hosts: map<Addr, Name>, asked: set<Nreq>, a: Addr, n: Node) {
    WfNode(a, n) && TrueCache(hosts, n) && WaitersAsked(asked, a, n)
  }

  predicate Knows(s: Net, a: Addr, d: Addr) {
    a in s.nodes && d in s.nodes[a].cache
  }

  // A reply carries the true name, its sender knows it, and its receiver asked for it.
  ghost predicate GoodReply(hosts: map<Addr, Name>, s: Net, p: Nrep) {
    Knows(s, p.src, p.dst) && p.dst in hosts && p.name == hosts[p.dst] && Nreq(p.to, p.src, p.dst) in s.asked
  }

  ghost predicate Sound(hosts: map<Addr, Name>, s: Net) {
    && s.nodes.Keys == hosts.Keys
    && (forall a :: a in s.nodes ==> GoodNode(hosts, s.asked, a, s.nodes[a]))
    && (forall q :: q in s.nreqs ==> q in s.asked)
    && (forall q :: q in s.asked ==> q.src in s.nodes)
    && (forall p :: p in s.nreps ==> GoodReply(hosts, s, p))
  }

  // What one handler run on node a may do.
  ghost predicate GoodEffect(hosts: map<Addr, Name>, asked: set<Nreq>, a: Addr, n: Node, e: Effect) {
    && GoodNode(hosts, asked, a, e.node)
    && n.cache.Keys <= e.node.cache.Keys
    && (forall q :: q in e.nreqs ==> q.src == a)
    && (forall p :: p in e.nreps ==>
          p.src == a && p.dst in e.node.cache && p.name == e.node.cache[p.dst] && Nreq(p.to, a, p.dst) in asked)
  }

  lemma RegisterAdds(n: Node, dst: Addr, requester: Option<Addr>)
    requires dst in n.pnrs ==> WfList(n.pnrs[dst]) && requester.Some?
    ensures var n1 := Register(n, dst, requester);
            && n1.cache == n.cache && n1.pnrs.Keys == n.pnrs.Keys + {dst}
            && WfList(n1.pnrs[dst])
            && (forall d :: d in n.pnrs && d != dst ==> n1.pnrs[d] == n.pnrs[d])
            && (forall r :: Some(r) in n1.pnrs[dst] <==> Some(r) in Waiting(n, dst) || requester == Some(r))
  {
  }

  lemma RouteAddedGood(hosts: map<Addr, Name>, asked: set<Nreq>, a: Addr, n: Node, dst: Addr, hop: Addr)
    requires GoodNode(hosts, asked, a, n)
    ensures GoodEffect(hosts, asked, a, n, RouteAdded(a, n, dst, hop))
  {
    if dst !in n.cache && dst !in n.pnrs {
      RegisterAdds(n, dst, None);
      hide Register, WfList;
    }
  }

  lemma ReceiveNreqGood(hosts: map<Addr, Name>, asked: set<Nreq>, a: Addr, n: Node, src: Addr, dst: Addr)
    requires GoodNode(hosts, asked, a, n) && Nreq(src, a, dst) in asked
    ensures GoodEffect(hosts, asked, a, n, ReceiveNreq(a, n, src, dst))
  {
    hide Register, WfList;
    if dst !in n.cache {
      RegisterAdds(n, dst, Some(src));
    }
  }

  lemma {:induction false} RepliesAre(self: Addr, list: seq<Option<Addr>>, dst: Addr, name: Name)
    ensures forall p :: p in Replies(self, list, dst, name) <==>
              p.src == self && p.dst == dst && p.name == name && Some(p.to) in list
  {
    if list == [] {
    } else {
      RepliesAre(self, list[..|list| - 1], dst, name);
      assert list == list[..|list| - 1] + [list[|list| - 1]];
    }
  }

  lemma ReceiveNrepGood(hosts: map<Addr, Name>, asked: set<Nreq>, a: Addr, n: Node, dst: Addr, name: Name)
    requires GoodNode(hosts, asked, a, n) && dst in hosts && name == hosts[dst]
    ensures GoodEffect(hosts, asked, a, n, ReceiveNrep(a, n, dst, name))
  {
    RepliesAre(a, Waiting(n, dst), dst, name);
    hide Replies, WfList;
  }

  lemma TimeoutGood(hosts: map<Addr, Name>, asked: set<Nreq>, a: Addr, n: Node, slot: nat, route: Option<Addr>)
    requires GoodNode(hosts, asked, a, n) && slot < |n.slots|
    ensures GoodEffect(hosts, asked, a, n, Timeout(a, n, slot, route))
  {
    hide WfList, StartTimer;
    TimerTouchesOnlyTimers();
  }

  lemma TimerTouchesOnlyTimers()
    ensures forall n, dst {:trigger StartTimer(n, dst)} ::
              StartTimer(n, dst).cache == n.cache && StartTimer(n, dst).pnrs == n.pnrs
  {
  }

  lemma RouteRemovedGood(hosts: map<Addr, Name>, asked: set<Nreq>, a: Addr, n: Node, dst: Addr)
    requires GoodNode(hosts, asked, a, n)
    ensures GoodEffect(hosts, asked, a, n, Effect(RouteRemoved(n, dst), [], []))
  {
    hide WfList;
  }

  lemma GoodNodeLater(hosts: map<Addr, Name>, asked: set<Nreq>, later: set<Nreq>, a: Addr, n: Node)
    requires GoodNode(hosts, asked, a, n) && asked <= later
    ensures GoodNode(hosts, later, a, n)
  {
    hide WfNode, TrueCache, Waiting;
  }

  // The replies a handler sends, and those already in flight, stay good.
  lemma GoodReplyLater(hosts: map<Addr, Name>, s: Net, a: Addr, f: Effect, p: Nrep)
    requires a in s.nodes && GoodEffect(hosts, s.asked, a, s.nodes[a], f)
    requires GoodReply(hosts, s, p) || p in f.nreps
    ensures GoodReply(hosts, Perform(s, a, f), p)
  {
    hide WfNode, WaitersAsked, Answers;
  }

  lemma PerformSound(hosts: map<Addr, Name>, s: Net, a: Addr, f: Effect)
    requires Sound(hosts, s) && a in s.nodes && GoodEffect(hosts, s.asked, a, s.nodes[a], f)
    ensures Sound(hosts, Perform(s, a, f))
  {
    hide GoodNode, GoodReply, Answers;
    var t := Perform(s, a, f);
    forall b | b in t.nodes
      ensures GoodNode(hosts, t.asked, b, t.nodes[b])
    {
      GoodNodeLater(hosts, s.asked, t.asked, b, t.nodes[b]);
    }
    forall p | p in t.nreps
      ensures GoodReply(hosts, t, p)
    {
      GoodReplyLater(hosts, s, a, f, p);
    }
  }

  lemma WireKeeps(s: Net, e: Event)
    ensures forall q :: q in NreqsLeft(s, e) ==> q in s.nreqs
    ensures forall p :: p in NrepsLeft(s, e) ==> p in s.nreps
  {
  }

  // Only nodes, messages and requests sent matter for soundness.
  lemma SoundWith(hosts: map<Addr, Name>, s: Net, t: Net)
    requires Sound(hosts, s) && t.nodes == s.nodes && t.asked == s.asked
    requires (forall q :: q in t.nreqs ==> q in s.nreqs) && (forall p :: p in t.nreps ==> p in s.nreps)
    ensures Sound(hosts, t)
  {
    hide GoodNode;
  }

  lemma RecordKeeps(s: Net, e: Event, t: Net)
    ensures var r := Record(s, e, t);
            && r.nodes == t.nodes && r.asked == t.asked && r.nreqs == t.nreqs && r.nreps == t.nreps
            && r.answered == t.answered && r.lost == t.lost
  {
  }

  lemma HandleGood(hosts: map<Addr, Name>, s: Net, e: Event)
    requires Sound(hosts, s) && Handled(s, e)
    ensures GoodEffect(hosts, s.asked, Actor(e), s.nodes[Actor(e)], Handle(s, e))
  {
    hide GoodEffect, RouteAdded, RouteRemoved, ReceiveNreq, ReceiveNrep, Timeout;
    var a := Actor(e);
    assert GoodNode(hosts, s.asked, a, s.nodes[a]);
    match e {
      case AddRoute(_, dst, hop) => RouteAddedGood(hosts, s.asked, a, s.nodes[a], dst, hop);
      case RemoveRoute(_, dst) => RouteRemovedGood(hosts, s.asked, a, s.nodes[a], dst);
      case Fire(_, slot, route) => TimeoutGood(hosts, s.asked, a, s.nodes[a], slot, route);
      case DeliverNreq(q) => ReceiveNreqGood(hosts, s.asked, a, s.nodes[a], q.src, q.dst);
      case DeliverNrep(p) =>
        assert GoodReply(hosts, s, p);
        ReceiveNrepGood(hosts, s.asked, a, s.nodes[a], p.dst, p.name);
    }
  }

  lemma SoundStep(hosts: map<Addr, Name>, s: Net, e: Event)
    requires Sound(hosts, s)
    ensures Sound(hosts, Apply(s, e))
  {
    hide Sound, NreqsLeft, NrepsLeft, Record, Handle, GoodEffect, Perform, Handled;
    var s1 := Wire(s, e);
    WireKeeps(s, e);
    SoundWith(hosts, s, s1);
    if Handled(s, e) {
      HandleGood(hosts, s, e);
      ActorIsNode(s, e);
      var s2 := Perform(s1, Actor(e), Handle(s, e));
      PerformSound(hosts, s1, Actor(e), Handle(s, e));
      RecordKeeps(s, e, s2);
      SoundWith(hosts, s2, Record(s, e, s2));
    }
  }

  lemma ActorIsNode(s: Net, e: Event)
    requires Handled(s, e)
    ensures Live(s, Actor(e))
  {
  }

  lemma StartSound(hosts: map<Addr, Name>)
    ensures Sound(hosts, Start(hosts))
  {
  }

  lemma {:induction false} RunSound(hosts: map<Addr, Name>, events: seq<Event>)
    ensures Sound(hosts, Run(Start(hosts), events))
  {
    if events == [] {
      StartSound(hosts);
    } else {
      RunSound(hosts, events[..|events| - 1]);
      SoundStep(hosts, Run(Start(hosts), events[..|events| - 1]), events[|events| - 1]);
    }
  }

  // In every reachable state the PNR table of every node is well-formed and disjoint from its cache.
  lemma PnrTablesWellFormed(hosts: map<Addr, Name>, events: seq<Event>, a: Addr)
    requires a in hosts
    ensures var s := Run(Start(hosts), events); a in s.nodes && WfNode(a, s.nodes[a])
  {
    var s := Run(Start(hosts), events);
    RunSound(hosts, events);
    assert GoodNode(hosts, s.asked, a, s.nodes[a]);
  }

  // A removed route drops the pending request, but the name is absent afterwards only if it was absent before.
  lemma RouteRemovedForgets(n: Node, dst: Addr)
    ensures dst !in RouteRemoved(n, dst).pnrs
    ensures dst !in RouteRemoved(n, dst).cache <==> dst !in n.cache
    ensures RouteRemoved(n, dst).cache == n.cache
  {
  }
}
