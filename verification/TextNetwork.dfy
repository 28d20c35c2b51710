/** The network with its messages as text: every delivery parses what was printed.
    It runs like the network of parsed messages exactly as long as no name or
    address contains "NREQ". */
module TextNetwork {
  import opened Options
  import opened Protocol
  import opened Network
  import opened Messages
  import opened Provenance
  import opened Recovery

  // listen_for_nreqs on a message from src. A missing token is a NULL pointer: without a destination it is followed,
  // without a name it is printed, which C leaves undefined and which counts as a crash here. While all names are
  // words, no token is missing.
  function Receive(self: Addr, n: Node, src: Addr, text: string): Effect {
    match Parse(text)
    case Request(Some(dst)) => ReceiveNreq(self, n, src, dst)
    case Reply(Some(dst), Some(name)) => ReceiveNrep(self, n, dst, name)
    case Unrecognized => Effect(n, [], [])
    case Reply(Some(dst), None) => if dst in n.cache then Effect(n, [], []) else Effect(n.(crashed := true), [], [])
    case _ => Effect(n.(crashed := true), [], [])
  }

  function HandleText(s: Net, e: Event): Effect
    requires Handled(s, e)
  {
    match e
    case DeliverNreq(q) => Receive(q.to, s.nodes[q.to], q.src, PrintNreq(q.dst))
    case DeliverNrep(p) => Receive(p.to, s.nodes[p.to], p.src, PrintNrep(p.dst, p.name))
    case _ => Handle(s, e)
  }

  // The history is kept for messages that are understood.
  function ApplyText(s: Net, e: Event): Net {
    if Handled(s, e) then
      var t := Perform(Wire(s, e), Actor(e), HandleText(s, e));
      if HandleText(s, e) == Handle(s, e) then Record(s, e, t) else t
    else Wire(s, e)
  }

  function RunText(s: Net, events: seq<Event>): Net {
    if events == [] then s else ApplyText(RunText(s, events[..|events| - 1]), events[|events| - 1])
  }

  // A reply about dst is taken for a request.
  predicate Misread(dst: Addr, name: Name) {
    Contains(dst, "NREQ") || Contains(name, "NREQ")
  }

  ghost predicate WordNames(hosts: map<Addr, Name>) {
    forall a {:trigger hosts[a]} :: a in hosts ==> Word(a) && Word(hosts[a])
  }

  ghost predicate WordRoutes(events: seq<Event>) {
    forall e :: e in events && e.AddRoute? ==> Word(e.dst)
  }

  // ----- What holds in both networks -----

  // Requests are for words, and so are the timers and pending requests that send them.
  ghost predicate WordNode(n: Node) {
    (forall d :: d in n.pnrs ==> Word(d)) && (forall k :: k in n.timers ==> Word(n.timers[k]))
  }

  ghost predicate TrueReply(hosts: map<Addr, Name>, p: Nrep) {
    p.dst in hosts && p.name == hosts[p.dst]
  }

  ghost predicate TrueNode(hosts: map<Addr, Name>, a: Addr, n: Node) {
    a in n.cache && TrueCache(hosts, n) && WordNode(n)
  }

  // Caches and replies are true, each node knows itself, and requests are for words.
  ghost predicate TrueNet(hosts: map<Addr, Name>, s: Net) {
    && s.nodes.Keys == hosts.Keys
    && (forall a :: a in s.nodes ==> TrueNode(hosts, a, s.nodes[a]))
    && (forall q :: q in s.nreqs ==> Word(q.dst))
    && (forall p :: p in s.nreps ==> TrueReply(hosts, p))
  }

  ghost predicate TrueEffect(hosts: map<Addr, Name>, a: Addr, f: Effect) {
    && TrueNode(hosts, a, f.node)
    && (forall q :: q in f.nreqs ==> Word(q.dst))
    && (forall p :: p in f.nreps ==> TrueReply(hosts, p))
  }

  // What an event handles is made of words, and its reply is true.
  ghost predicate TrueEvent(hosts: map<Addr, Name>, e: Event) {
    match e
    case AddRoute(_, dst, _) => Word(dst)
    case DeliverNreq(q) => Word(q.dst)
    case DeliverNrep(p) => Word(p.dst) && Word(p.name) && TrueReply(hosts, p)
    case _ => true
  }

  lemma HandledIsTrue(hosts: map<Addr, Name>, s: Net, e: Event)
    requires TrueNet(hosts, s) && WordNames(hosts) && Handled(s, e) && (e.AddRoute? ==> Word(e.dst))
    ensures TrueEvent(hosts, e) && Live(s, Actor(e)) && TrueNode(hosts, Actor(e), s.nodes[Actor(e)])
  {
    hide TrueNode, Word;
    ActorIsNode(s, e);
    assert e.DeliverNrep? ==> TrueReply(hosts, e.p);
  }

  lemma StartWords(n: Node, dst: Addr)
    requires WordNode(n) && Word(dst)
    ensures WordNode(StartTimer(n, dst))
  {
    hide Word;
  }

  lemma RegisterTrue(hosts: map<Addr, Name>, a: Addr, n: Node, dst: Addr, requester: Option<Addr>)
    requires TrueNode(hosts, a, n) && Word(dst)
    ensures TrueNode(hosts, a, Register(n, dst, requester))
  {
    hide StartTimer, Word;
    TimerTouchesOnlyTimers();
    if dst !in n.pnrs { StartWords(n.(pnrs := n.pnrs[dst := [requester]]), dst); }
  }

  lemma ReceiveNreqTrue(hosts: map<Addr, Name>, a: Addr, n: Node, src: Addr, dst: Addr)
    requires TrueNode(hosts, a, n) && Word(dst)
    ensures TrueEffect(hosts, a, ReceiveNreq(a, n, src, dst))
  {
    hide Register, Word, WordNode;
    RegisterTrue(hosts, a, n, dst, Some(src));
  }

  lemma ReceiveNrepTrue(hosts: map<Addr, Name>, a: Addr, n: Node, dst: Addr, name: Name)
    requires TrueNode(hosts, a, n) && dst in hosts && name == hosts[dst]
    ensures TrueEffect(hosts, a, ReceiveNrep(a, n, dst, name))
  {
    hide Word, Replies;
    RepliesAre(a, Waiting(n, dst), dst, name);
  }

  lemma TimeoutTrue(hosts: map<Addr, Name>, a: Addr, n: Node, slot: nat, route: Option<Addr>)
    requires TrueNode(hosts, a, n) && slot < |n.slots|
    ensures TrueEffect(hosts, a, Timeout(a, n, slot, route))
  {
    hide StartTimer, Word;
    TimerTouchesOnlyTimers();
    forall m: Node, d | WordNode(m) && Word(d)
      ensures WordNode(StartTimer(m, d))
    {
      StartWords(m, d);
    }
  }

  lemma HandleTrue(hosts: map<Addr, Name>, s: Net, e: Event)
    requires Handled(s, e) && TrueEvent(hosts, e) && TrueNode(hosts, Actor(e), s.nodes[Actor(e)])
    ensures TrueEffect(hosts, Actor(e), Handle(s, e))
  {
    hide Register, StartTimer, Word, Replies, Timeout, ReceiveNreq, ReceiveNrep;
    var a := Actor(e);
    var n := s.nodes[a];
    match e {
      case AddRoute(_, dst, _) => RegisterTrue(hosts, a, n, dst, None);
      case RemoveRoute(_, _) =>
      case Fire(_, slot, route) => TimeoutTrue(hosts, a, n, slot, route);
      case DeliverNreq(q) => ReceiveNreqTrue(hosts, a, n, q.src, q.dst);
      case DeliverNrep(p) => ReceiveNrepTrue(hosts, a, n, p.dst, p.name);
    }
  }

  // The event delivers a reply that is taken for a request.
  predicate MisreadBy(e: Event) {
    e.DeliverNrep? && Misread(e.p.dst, e.p.name)
  }

  // What the receiver makes of a message.
  lemma TextMeans(hosts: map<Addr, Name>, s: Net, e: Event)
    requires Handled(s, e) && TrueEvent(hosts, e)
    ensures HandleText(s, e) ==
            if MisreadBy(e) then ReceiveNreq(e.p.to, s.nodes[e.p.to], e.p.src, e.p.dst) else Handle(s, e)
  {
    hide Parse, PrintNreq, PrintNrep, ReceiveNreq, ReceiveNrep, Word, Contains, RouteAdded, RouteRemoved, Timeout;
    match e {
      case DeliverNreq(q) => ParseNreq(q.dst);
      case DeliverNrep(p) => ParseNrep(p.dst, p.name);
      case _ =>
    }
  }

  lemma TextEffect(hosts: map<Addr, Name>, s: Net, e: Event)
    requires Handled(s, e) && TrueEvent(hosts, e) && TrueNode(hosts, Actor(e), s.nodes[Actor(e)])
    ensures TrueEffect(hosts, Actor(e), HandleText(s, e))
  {
    hide Handle, HandleText, TrueEffect, TrueNode, ReceiveNreq, Misread, Word;
    TextMeans(hosts, s, e);
    if MisreadBy(e) {
      ReceiveNreqTrue(hosts, e.p.to, s.nodes[e.p.to], e.p.src, e.p.dst);
    } else {
      HandleTrue(hosts, s, e);
    }
  }

  lemma PerformTrue(hosts: map<Addr, Name>, s: Net, a: Addr, f: Effect)
    requires TrueNet(hosts, s) && a in s.nodes && TrueEffect(hosts, a, f)
    ensures TrueNet(hosts, Perform(s, a, f))
  {
    hide Answers, TrueReply, Word, TrueNode;
  }

  // Only nodes and messages matter for truth.
  lemma TrueWith(hosts: map<Addr, Name>, s: Net, t: Net)
    requires TrueNet(hosts, s) && t.nodes == s.nodes
    requires (forall q :: q in t.nreqs ==> q in s.nreqs) && (forall p :: p in t.nreps ==> p in s.nreps)
    ensures TrueNet(hosts, t)
  {
    hide TrueNode, TrueReply, Word;
  }

  lemma TextStep(hosts: map<Addr, Name>, s: Net, e: Event)
    requires TrueNet(hosts, s) && WordNames(hosts) && (e.AddRoute? ==> Word(e.dst))
    ensures TrueNet(hosts, ApplyText(s, e))
  {
    hide TrueNet, Handle, HandleText, Perform, TrueEffect, TrueEvent, TrueNode, Record, NreqsLeft, NrepsLeft;
    hide Word, Handled;
    hide WordNames;
    WireKeeps(s, e);
    TrueWith(hosts, s, Wire(s, e));
    if Handled(s, e) {
      HandledIsTrue(hosts, s, e);
      TextEffect(hosts, s, e);
      var t := Perform(Wire(s, e), Actor(e), HandleText(s, e));
      PerformTrue(hosts, Wire(s, e), Actor(e), HandleText(s, e));
      RecordKeeps(s, e, t);
      TrueWith(hosts, t, Record(s, e, t));
    }
  }

  lemma StartTrue(hosts: map<Addr, Name>)
    ensures TrueNet(hosts, Start(hosts))
  {
  }

  lemma {:induction false} TextRunTrue(hosts: map<Addr, Name>, events: seq<Event>)
    requires WordNames(hosts) && WordRoutes(events)
    ensures TrueNet(hosts, RunText(Start(hosts), events))
  {
    hide TrueNet, Start, ApplyText, Word;
    if events == [] {
      StartTrue(hosts);
    } else {
      var front := events[..|events| - 1];
      assert events == front + [events[|events| - 1]];
      TextRunTrue(hosts, front);
      TextStep(hosts, RunText(Start(hosts), front), events[|events| - 1]);
    }
  }

  // ----- Agreement -----

  // No reply can be taken for a request.
  ghost predicate NoneMisread(hosts: map<Addr, Name>) {
    forall a :: a in hosts ==> !Misread(a, hosts[a])
  }

  lemma StepAgrees(hosts: map<Addr, Name>, s: Net, e: Event)
    requires TrueNet(hosts, s) && WordNames(hosts) && NoneMisread(hosts) && (e.AddRoute? ==> Word(e.dst))
    ensures ApplyText(s, e) == Apply(s, e)
  {
    hide TrueNet, Handle, HandleText, Perform, TrueNode, Record, NreqsLeft, NrepsLeft, Word, Handled;
    hide WordNames, Misread;
    if Handled(s, e) {
      HandledIsTrue(hosts, s, e);
      TextMeans(hosts, s, e);
    }
  }

  // If names are words and none can be misread, both networks run alike, so all that is
  // proved of parsed messages holds of their texts.
  lemma {:induction false} TextAgrees(hosts: map<Addr, Name>, events: seq<Event>)
    requires WordNames(hosts) && WordRoutes(events) && NoneMisread(hosts)
    ensures RunText(Start(hosts), events) == Run(Start(hosts), events)
  {
    hide Apply, ApplyText, Start, Word, Misread, TrueNet;
    if events == [] {
    } else {
      var front := events[..|events| - 1];
      assert events == front + [events[|events| - 1]];
      TextAgrees(hosts, front);
      TextRunTrue(hosts, front);
      StepAgrees(hosts, RunText(Start(hosts), front), events[|events| - 1]);
    }
  }

  // Then every message in flight is read back as it was meant.
  lemma MessagesReadBack(hosts: map<Addr, Name>, events: seq<Event>)
    requires WordNames(hosts) && WordRoutes(events) && NoneMisread(hosts)
    ensures var s := Run(Start(hosts), events);
            && (forall q :: q in s.nreqs ==> Parse(PrintNreq(q.dst)) == Request(Some(q.dst)))
            && (forall p :: p in s.nreps ==> Parse(PrintNrep(p.dst, p.name)) == Reply(Some(p.dst), Some(p.name)))
  {
    TextAgrees(hosts, events);
    TextRunTrue(hosts, events);
    hide Run, RunText, Start, Parse, PrintNreq, PrintNrep, Word, Contains;
    var s := Run(Start(hosts), events);
    forall q | q in s.nreqs
      ensures Parse(PrintNreq(q.dst)) == Request(Some(q.dst))
    {
      ParseNreq(q.dst);
    }
    forall p | p in s.nreps
      ensures Parse(PrintNrep(p.dst, p.name)) == Reply(Some(p.dst), Some(p.name))
    {
      assert TrueReply(hosts, p);
      ParseNrep(p.dst, p.name);
    }
  }

  // ----- A name that is misread -----

  // Nobody but d knows d.
  ghost predicate Secret(s: Net, d: Addr) {
    forall a :: Knows(s, a, d) ==> a == d
  }

  lemma HandleKeepsSecret(s: Net, e: Event, d: Addr)
    requires Handled(s, e) && !(e.DeliverNrep? && e.p.dst == d)
    ensures d in Handle(s, e).node.cache <==> d in s.nodes[Actor(e)].cache
  {
    HandleKnows(s, e);
    hide Handle, Handled;
  }

  lemma RequestTeachesNothing(a: Addr, n: Node, src: Addr, dst: Addr)
    ensures ReceiveNreq(a, n, src, dst).node.cache == n.cache
  {
    hide StartTimer;
    TimerTouchesOnlyTimers();
  }

  lemma TextKeepsSecret(hosts: map<Addr, Name>, s: Net, e: Event, d: Addr)
    requires Handled(s, e) && TrueEvent(hosts, e) && d in hosts && Misread(d, hosts[d])
    ensures d in HandleText(s, e).node.cache <==> d in s.nodes[Actor(e)].cache
  {
    hide HandleText, Handle, Handled, Misread, ReceiveNreq, Word;
    TextMeans(hosts, s, e);
    ActorIsNode(s, e);
    if MisreadBy(e) {
      RequestTeachesNothing(e.p.to, s.nodes[e.p.to], e.p.src, e.p.dst);
    } else {
      HandleKeepsSecret(s, e, d);
    }
  }

  lemma SecretStep(hosts: map<Addr, Name>, s: Net, e: Event, d: Addr)
    requires TrueNet(hosts, s) && WordNames(hosts) && (e.AddRoute? ==> Word(e.dst))
    requires d in hosts && Misread(d, hosts[d]) && Secret(s, d)
    ensures Secret(ApplyText(s, e), d)
  {
    hide TrueNet, NreqsLeft, NrepsLeft, Misread, Answers, HandleText, Handle, Record, TrueNode, TrueEvent;
    hide Handled, WordNames, Word;
    if Handled(s, e) {
      HandledIsTrue(hosts, s, e);
      TextKeepsSecret(hosts, s, e, d);
      RecordKeeps(s, e, Perform(Wire(s, e), Actor(e), HandleText(s, e)));
    }
    forall a | Knows(ApplyText(s, e), a, d)
      ensures a == d
    {
      assert !Handled(s, e) || a != Actor(e) ==> ApplyText(s, e).nodes[a] == s.nodes[a];
      assert Knows(s, a, d);
    }
  }

  // A misread name never gets known, whatever happens.
  lemma {:induction false} OnlyOwnerKnows(hosts: map<Addr, Name>, events: seq<Event>, d: Addr)
    requires WordNames(hosts) && WordRoutes(events) && d in hosts && Misread(d, hosts[d])
    ensures Secret(RunText(Start(hosts), events), d)
  {
    hide ApplyText, Word, Misread, TrueNet;
    if events == [] {
    } else {
      var front := events[..|events| - 1];
      assert events == front + [events[|events| - 1]];
      OnlyOwnerKnows(hosts, front, d);
      TextRunTrue(hosts, front);
      SecretStep(hosts, RunText(Start(hosts), front), events[|events| - 1], d);
    }
  }

  // One exchange that teaches a name in the network of parsed messages teaches nothing if the reply is misread.
  lemma MisreadExchange(hosts: map<Addr, Name>, a: Addr, d: Addr)
    requires WordNames(hosts) && a in hosts && d in hosts && a != d
    ensures Knows(Run(Start(hosts), Exchange(hosts, a, d)), a, d)
    ensures Misread(d, hosts[d]) ==> !Knows(RunText(Start(hosts), Exchange(hosts, a, d)), a, d)
  {
    ExchangeTeaches(hosts, a, d);
    if Misread(d, hosts[d]) {
      hide RunText, Run;
      OnlyOwnerKnows(hosts, Exchange(hosts, a, d), d);
    }
  }

  // Such a name: the reply "NREP 10.0.0.2 staNREQ" is taken for a request.
  lemma MisreadName()
    ensures var hosts := map["10.0.0.1" := "sta1", "10.0.0.2" := "staNREQ"];
            var events := Exchange(hosts, "10.0.0.1", "10.0.0.2");
            && Knows(Run(Start(hosts), events), "10.0.0.1", "10.0.0.2")
            && !Knows(RunText(Start(hosts), events), "10.0.0.1", "10.0.0.2")
  {
    var hosts: map<Addr, Name> := map["10.0.0.1" := "sta1", "10.0.0.2" := "staNREQ"];
    assert OccursAt("staNREQ", "NREQ", 3);
    OccursContains("staNREQ", "NREQ", 3);
    MisreadExchange(hosts, "10.0.0.1", "10.0.0.2");
  }

  // A text that contains neither word is ignored.
  lemma OtherTextsIgnored(self: Addr, n: Node, src: Addr, text: string)
    requires forall i: nat :: !OccursAt(text, "NREQ", i) && !OccursAt(text, "NREP", i)
    ensures Receive(self, n, src, text) == Effect(n, [], [])
  {
    hide Parse, OccursAt;
    ParseKind(text);
    assert Parse(text).Unrecognized?;
  }

  // A request without a destination crashes the node that reads it; a reply without a name crashes it unless it
  // knows the name.
  lemma MissingFields(self: Addr, n: Node, src: Addr, dst: Addr)
    ensures Receive(self, n, src, "NREQ" + [' ']) == Effect(n.(crashed := true), [], [])
    ensures Word(dst) && !Contains(dst, "NREQ") ==>
              Receive(self, n, src, "NREP" + [' '] + dst) ==
              Effect(if dst in n.cache then n else n.(crashed := true), [], [])
  {
    assert "NREQ" + [' '] + Spaces(0) == "NREQ" + [' '];
    ParseRequest("a", 0);
    hide Parse, Contains;
    if Word(dst) && !Contains(dst, "NREQ") { ParseNameless(dst); }
  }
}
