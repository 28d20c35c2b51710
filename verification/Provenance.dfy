/** Truth of names and where they come from, in every run with loss,
    duplication and reordering of messages. */
module Provenance {
  import opened Protocol
  import opened Network

  // Which names a handler adds to its node's cache.
  lemma HandleKnows(s: Net, e: Event)
    requires Handled(s, e)
    ensures var a := Actor(e);
            forall d :: d in Handle(s, e).node.cache <==> d in s.nodes[a].cache || Teaches(s, e, a, d)
  {
    hide Replies, Exists, Waiting;
    match e {
      case AddRoute(_, _, _) =>
      case RemoveRoute(_, _) =>
      case Fire(_, _, _) =>
      case DeliverNreq(_) =>
      case DeliverNrep(_) =>
    }
  }

  // Names are only ever added, each by the delivery of a reply; requests sent are never forgotten.
  lemma KnowledgeGrows(s: Net, e: Event)
    ensures var t := Apply(s, e);
            && t.nodes.Keys == s.nodes.Keys && s.asked <= t.asked
            && forall a, d :: Knows(t, a, d) <==> Knows(s, a, d) || Teaches(s, e, a, d)
  {
    hide Handle, Answers, NreqsLeft, NrepsLeft, Record;
    if Handled(s, e) {
      HandleKnows(s, e);
      RecordKeeps(s, e, Perform(Wire(s, e), Actor(e), Handle(s, e)));
    }
  }

  function RankOf(s: Net, a: Addr, d: Addr): nat {
    if (a, d) in s.rank then s.rank[(a, d)] else 0
  }

  // a learned d's name from a node it asked, which knew it before.
  ghost predicate Learned(s: Net, a: Addr, d: Addr) {
    && (a, d) in s.teacher
    && Knows(s, s.teacher[(a, d)], d)
    && Nreq(a, s.teacher[(a, d)], d) in s.asked
    && RankOf(s, s.teacher[(a, d)], d) < RankOf(s, a, d)
  }

  ghost predicate Taught(s: Net) {
    && (forall a, d :: RankOf(s, a, d) <= s.clock)
    && (forall a, d :: Knows(s, a, d) && a != d ==> Learned(s, a, d))
  }

  lemma HistoryStep(s: Net, e: Event)
    ensures var t := Apply(s, e);
            if e.DeliverNrep? && Teaches(s, e, e.p.to, e.p.dst) then
              && t.teacher == s.teacher[(e.p.to, e.p.dst) := e.p.src]
              && t.rank == s.rank[(e.p.to, e.p.dst) := s.clock + 1] && t.clock == s.clock + 1
            else
              t.teacher == s.teacher && t.rank == s.rank && t.clock == s.clock
  {
    hide Handle, Answers, NreqsLeft, NrepsLeft, Live, Handled, Actor;
    if !Handled(s, e) { TeachesHandled(s, e); }
  }

  lemma TeachesHandled(s: Net, e: Event)
    ensures e.DeliverNrep? && Teaches(s, e, e.p.to, e.p.dst) ==> Handled(s, e)
  {
  }

  lemma TaughtStep(hosts: map<Addr, Name>, s: Net, e: Event)
    requires Sound(hosts, s) && Taught(s)
    ensures Taught(Apply(s, e))
  {
    hide Apply, Taught, Sound;
    KnowledgeGrows(s, e);
    HistoryStep(s, e);
    if e.DeliverNrep? && Teaches(s, e, e.p.to, e.p.dst) {
      TaughtByReply(hosts, s, e.p, Apply(s, e));
    } else {
      TaughtSame(s, Apply(s, e));
    }
  }

  lemma TaughtSame(s: Net, t: Net)
    requires Taught(s) && t.teacher == s.teacher && t.rank == s.rank && t.clock == s.clock && s.asked <= t.asked
    requires forall a, d :: Knows(t, a, d) <==> Knows(s, a, d)
    ensures Taught(t)
  {
    hide Knows;
    forall a, d
      ensures RankOf(t, a, d) == RankOf(s, a, d)
      ensures Knows(t, a, d) && a != d ==> Learned(t, a, d)
    {
      assert Knows(t, a, d) && a != d ==> Learned(s, a, d);
    }
  }

  lemma TaughtByReply(hosts: map<Addr, Name>, s: Net, p: Nrep, t: Net)
    requires Sound(hosts, s) && Taught(s) && p in s.nreps && p.to in s.nodes && !Knows(s, p.to, p.dst)
    requires s.asked <= t.asked && t.clock == s.clock + 1
    requires t.teacher == s.teacher[(p.to, p.dst) := p.src] && t.rank == s.rank[(p.to, p.dst) := s.clock + 1]
    requires forall a, d :: Knows(t, a, d) <==> Knows(s, a, d) || (a == p.to && d == p.dst)
    ensures Taught(t)
  {
    assert GoodReply(hosts, s, p);
    hide Knows, Sound;
    forall a, d
      ensures RankOf(t, a, d) <= t.clock
      ensures Knows(t, a, d) && a != d ==> Learned(t, a, d)
    {
      TaughtByReplyTo(s, p, t, a, d);
    }
  }

  lemma TaughtByReplyTo(s: Net, p: Nrep, t: Net, a: Addr, d: Addr)
    requires Taught(s) && Knows(s, p.src, p.dst) && !Knows(s, p.to, p.dst) && Nreq(p.to, p.src, p.dst) in s.asked
    requires s.asked <= t.asked && t.clock == s.clock + 1
    requires t.teacher == s.teacher[(p.to, p.dst) := p.src] && t.rank == s.rank[(p.to, p.dst) := s.clock + 1]
    requires forall a, d :: Knows(t, a, d) <==> Knows(s, a, d) || (a == p.to && d == p.dst)
    ensures RankOf(t, a, d) <= t.clock
    ensures Knows(t, a, d) && a != d ==> Learned(t, a, d)
  {
    hide Knows;
    assert RankOf(s, a, d) <= s.clock;
    assert RankOf(t, a, d) == if (a, d) == (p.to, p.dst) then t.clock else RankOf(s, a, d);
    if Knows(t, a, d) && a != d {
      var m := if a == p.to && d == p.dst then p.src else s.teacher[(a, d)];
      assert (a == p.to && d == p.dst) || Learned(s, a, d);
      assert Knows(t, m, d) && (m, d) != (p.to, p.dst);
      assert RankOf(t, m, d) == RankOf(s, m, d) <= s.clock;
    }
  }

  lemma {:induction false} RunTaught(hosts: map<Addr, Name>, events: seq<Event>)
    ensures Taught(Run(Start(hosts), events))
  {
    if events == [] {
    } else {
      var front := events[..|events| - 1];
      RunTaught(hosts, front);
      RunSound(hosts, front);
      TaughtStep(hosts, Run(Start(hosts), front), events[|events| - 1]);
    }
  }

  // From a node that knows d's name, along its teachers.
  ghost function Lineage(s: Net, a: Addr, d: Addr): seq<Addr>
    requires Taught(s) && Knows(s, a, d)
    decreases RankOf(s, a, d)
  {
    if a == d then [a] else [a] + Lineage(s, s.teacher[(a, d)], d)
  }

  // A path of nodes that know d, each of which asked the next for d and learned it from there, from a to d
  // itself without a repeated node.
  ghost predicate LearnedPath(s: Net, path: seq<Addr>, a: Addr, d: Addr) {
    && path != [] && path[0] == a && path[|path| - 1] == d
    && (forall i :: 0 <= i < |path| ==> Knows(s, path[i], d))
    && (forall i :: 0 <= i < |path| - 1 ==> Nreq(path[i], path[i + 1], d) in s.asked)
    && (forall i :: 0 <= i < |path| - 1 ==> (path[i], d) in s.teacher && s.teacher[(path[i], d)] == path[i + 1])
    && (forall i, j :: 0 <= i < j < |path| ==> path[i] != path[j])
  }

  lemma {:induction false} LineageIsPath(s: Net, a: Addr, d: Addr)
    requires Taught(s) && Knows(s, a, d)
    ensures LearnedPath(s, Lineage(s, a, d), a, d)
    ensures forall i :: 0 <= i < |Lineage(s, a, d)| ==> RankOf(s, Lineage(s, a, d)[i], d) <= RankOf(s, a, d)
    decreases RankOf(s, a, d)
  {
    if a == d {
    } else {
      LineageIsPath(s, s.teacher[(a, d)], d);
    }
  }

  // Whatever is lost, copied or reordered, every cached name is the right one and came from its
  // owner, against requests that were sent; every reply in flight is right as well.
  lemma TruthAndProvenance(hosts: map<Addr, Name>, events: seq<Event>, a: Addr, d: Addr)
    ensures var s := Run(Start(hosts), events);
            && (forall p :: p in s.nreps ==> p.dst in hosts && p.name == hosts[p.dst])
            && (Knows(s, a, d) ==>
                  && d in hosts && s.nodes[a].cache[d] == hosts[d]
                  && exists path :: LearnedPath(s, path, a, d))
  {
    var s := Run(Start(hosts), events);
    RunSound(hosts, events);
    assert forall p :: p in s.nreps ==> GoodReply(hosts, s, p);
    if Knows(s, a, d) {
      assert GoodNode(hosts, s.asked, a, s.nodes[a]);
      RunTaught(hosts, events);
      LineageIsPath(s, a, d);
    }
  }
}
