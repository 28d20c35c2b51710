/** The state of a NameSPREAD process and its event handlers, updating the state in place. */
module NameNodes {
  import opened Options
  import opened Decimals
  import opened LinkedLists
  import opened Protocol
  import Buckets
  import HashRuns
  import HashTables
  import HostsFiles

  // The lists at the heads, linked through the spines, hold the values; they share no node and lie in R.
  ghost predicate ListTable(heads: map<Addr, ListNode<Addr>>, spines: map<Addr, seq<ListNode<Addr>>>,
                            values: map<Addr, seq<Option<Addr>>>, R: set<object>)
    reads R
  {
    && heads.Keys == spines.Keys == values.Keys
    && (forall d, x :: d in spines && x in spines[d] ==> x in R)
    && (forall d, d' :: d in spines && d' in spines && d != d' ==> Apart(spines[d], spines[d']))
    && (forall d :: d in spines ==> ListOf(heads[d], spines[d], values[d]))
  }

  ghost predicate Apart<T>(s: seq<T>, t: seq<T>) {
    forall x :: x in s ==> x !in t
  }

  // What the table says about the list of d: it is a list, and the last node of dst's list is not in it.
  lemma ListApart(heads: map<Addr, ListNode<Addr>>, spines: map<Addr, seq<ListNode<Addr>>>,
                  values: map<Addr, seq<Option<Addr>>>, R: set<object>, dst: Addr, d: Addr)
    requires ListTable(heads, spines, values, R) && dst in spines && d in spines && d != dst && spines[dst] != []
    ensures ListOf(heads[d], spines[d], values[d])
    ensures forall i :: 0 <= i < |spines[d]| ==> spines[d][i] in R && spines[d][i] != spines[dst][|spines[dst]| - 1]
  {
    hide ListOf;
    assert Apart(spines[d], spines[dst]);
    forall i | 0 <= i < |spines[d]|
      ensures spines[d][i] in R && spines[d][i] != spines[dst][|spines[dst]| - 1]
    {
      assert spines[d][i] in spines[d];
    }
  }

  // Nodes only of the old lists, apart from the new last one.
  lemma StillApart(spines: map<Addr, seq<ListNode<Addr>>>, R: set<object>, dst: Addr, last: ListNode<Addr>)
    requires dst in spines && last !in R && forall d, x :: d in spines && x in spines[d] ==> x in R
    requires forall d, d' :: d in spines && d' in spines && d != d' ==> Apart(spines[d], spines[d'])
    ensures var spines' := spines[dst := spines[dst] + [last]];
            && (forall d, x :: d in spines' && x in spines'[d] ==> x in R + {last})
            && forall d, d' :: d in spines' && d' in spines' && d != d' ==> Apart(spines'[d], spines'[d'])
  {
  }

  // Append to the list of dst.
  method PushTo(heads: map<Addr, ListNode<Addr>>, ghost spines: map<Addr, seq<ListNode<Addr>>>,
                ghost values: map<Addr, seq<Option<Addr>>>, ghost R: set<object>, dst: Addr, val: Option<Addr>)
    returns (ghost spines': map<Addr, seq<ListNode<Addr>>>, ghost R': set<object>)
    requires ListTable(heads, spines, values, R) && dst in heads
    modifies R
    ensures fresh(R' - R) && R <= R'
    ensures ListTable(heads, spines', values[dst := values[dst] + [val]], R')
  {
    hide ListOf, Apart;
    NotEmpty(heads[dst], spines[dst], values[dst]);
    forall d | d in spines && d != dst
      ensures ListOf(heads[d], spines[d], values[d])
      ensures forall i :: 0 <= i < |spines[d]| ==> spines[d][i] in R && spines[d][i] != spines[dst][|spines[dst]| - 1]
    {
      ListApart(heads, spines, values, R, dst, d);
    }
    ghost var last := Push(heads[dst], val, spines[dst], values[dst]);
    spines', R' := spines[dst := spines[dst] + [last]], R + {last};
    StillApart(spines, R, dst, last);
    forall d | d in spines && d != dst
      ensures ListOf(heads[d], spines[d], values[d])
    {
      assert old(ListOf(heads[d], spines[d], values[d]));
    }
  }

  lemma EmptyListTable()
    ensures ListTable(map[], map[], map[], {})
  {
  }

  lemma ListTablePlus(heads: map<Addr, ListNode<Addr>>, spines: map<Addr, seq<ListNode<Addr>>>,
                      values: map<Addr, seq<Option<Addr>>>, R: set<object>,
                      dst: Addr, head: ListNode<Addr>, val: Option<Addr>)
    requires ListTable(heads, spines, values, R) && dst !in heads && head !in R && ListOf(head, [head], [val])
    ensures ListTable(heads[dst := head], spines[dst := [head]], values[dst := [val]], R + {head})
  {
    hide ListOf;
  }

  lemma ListTableMinus(heads: map<Addr, ListNode<Addr>>, spines: map<Addr, seq<ListNode<Addr>>>,
                       values: map<Addr, seq<Option<Addr>>>, R: set<object>, dst: Addr)
    requires ListTable(heads, spines, values, R)
    ensures ListTable(heads - {dst}, spines - {dst}, values - {dst}, R)
  {
    hide ListOf;
  }

  // The binding's line in the hosts file fits all read buffers, and its fields contain no tab or newline.
  predicate Fits(addr: Addr, name: Name) {
    var b := HostsFiles.Binding(addr, name);
    HostsFiles.Proper(b) && |HostsFiles.Line(b)| < HostsFiles.COPY_BUFFER
  }

  class NameNode {
    const self: Addr
    const timerIds: array<nat>
    const hosts: HostsFiles.HostsFile
    const timers: HashTables.HashTable<string, Addr>
    var pnrs: map<Addr, ListNode<Addr>>        // pending requests and their requesters
    var crashed: bool                          // a NULL pointer was followed
    var totalNreqs: nat                        // requests sent
    var totalReceived: nat                     // requests received
    var totalNreps: nat                        // replies sent
    var totalCached: nat                       // names cached

    ghost var armed: multiset<nat>             // slots with a running POSIX timer
    ghost var lists: map<Addr, seq<Option<Addr>>>
    ghost var spines: map<Addr, seq<ListNode<Addr>>>
    ghost var Nodes: set<object>

    // The lists of requesters.
    ghost predicate Lists()
      reads `pnrs, `lists, `spines, `Nodes, Nodes
    {
      this !in Nodes && ListTable(pnrs, spines, lists, Nodes)
    }

    // The hosts file, whose lines fit all read buffers, and the timers table.
    ghost predicate Tables()
      reads hosts, timers, timers.Repr()
    {
      hosts.Valid() && HostsFiles.AllShort(hosts.bindings) && timers.Valid()
    }

    // The parts of the state share no object.
    ghost predicate Separate()
      reads `Nodes, timers
    {
      && this !in Nodes && timerIds !in Nodes && hosts !in Nodes
      && timers.Repr() !! {this, timerIds, hosts} + Nodes
    }

    ghost predicate Valid()
      reads `pnrs, `lists, `spines, `Nodes, Nodes, hosts, timers, timers.Repr()
    {
      Lists() && Tables() && Separate()
    }

    // The abstract value.
    ghost function State(): Node
      requires Valid()
      reads `pnrs, `lists, `spines, `Nodes, Nodes, `armed, `crashed, timerIds, hosts, timers, timers.Repr()
    {
      Node(HostsFiles.MapOf(hosts.bindings), lists, timerIds[..], timers.Map(), armed, crashed)
    }

    ghost function Repr(): set<object>
      reads `Nodes, timers
    {
      {this, timerIds, hosts} + timers.Repr() + Nodes
    }

    constructor (self: Addr, hostname: Name, hash: string -> nat)
      requires Fits(self, hostname)
      ensures Valid() && fresh(Repr()) && this.self == self && State() == Boot(self, hostname)
      ensures totalNreqs == totalReceived == totalNreps == totalCached == 0
    {
      hide HashTables.HashTable.Valid, HashTables.HashTable.Map, HostsFiles.HostsFile.Valid, HostsFiles.MapOf;
      hide HostsFiles.Proper, HostsFiles.Line, Buckets.New, ListTable;
      this.self, crashed := self, false;
      timerIds := new nat[N_TIMERS](_ => 0);
      hosts := new HostsFiles.HostsFile(HostsFiles.Binding(self, hostname));
      timers := new HashTables.HashTable(hash, 20, false);
      pnrs := map[];
      totalNreqs, totalReceived, totalNreps, totalCached := 0, 0, 0, 0;
      armed, lists, spines, Nodes := multiset{}, map[], map[], {};
      new;
      EmptyListTable();
      assert timerIds[..] == seq(N_TIMERS, _ => 0);
    }

    // next_free_timer_id: mark the first free slot as taken; the number of slots stands for NULL.
    method NextFreeTimerId() returns (i: nat)
      modifies timerIds
      ensures i == FreeSlot(old(timerIds[..]))
      ensures timerIds[..] == if i < timerIds.Length then old(timerIds[..])[i := i + 1] else old(timerIds[..])
    {
      i := 0;
      while i < timerIds.Length
        invariant i <= timerIds.Length && forall j :: 0 <= j < i ==> timerIds[j] != 0
        invariant timerIds[..] == old(timerIds[..])
      {
        if timerIds[i] == 0 {
          FirstIs(timerIds[..], i);
          timerIds[i] := i + 1;
          return;
        }
        i := i + 1;
      }
      FirstIs(timerIds[..], i);
    }

    // Take a free slot, if any, for a running timer.
    method TakeSlot() returns (i: nat)
      requires Valid()
      modifies this`armed, timerIds
      ensures Valid() && timers.Repr() == old(timers.Repr()) && i == FreeSlot(old(timerIds[..]))
      ensures var n := old(State());
              State() == if i == timerIds.Length then n
                         else n.(slots := n.slots[i := i + 1], armed := n.armed + multiset{i})
    {
      hide HashTables.HashTable.Valid, HashTables.HashTable.Map, HostsFiles.HostsFile.Valid, HostsFiles.MapOf;
      hide NameNode.Lists;
      i := NextFreeTimerId();
      if i < timerIds.Length {
        armed := armed + multiset{i};
      }
    }

    // cfuhash_put on the timers table.
    method EnterTimer(key: string, dst: Addr)
      requires Valid()
      modifies timers.Repr()
      ensures Valid() && fresh(timers.Repr() - old(timers.Repr()))
      ensures State() == old(State()).(timers := old(State()).timers[key := dst])
    {
      hide HashTables.HashTable.Valid, HashTables.HashTable.Map, HostsFiles.HostsFile.Valid, HostsFiles.MapOf;
      hide NameNode.Lists, HashRuns.TableStep;
      var _ := timers.Put(key, dst);
    }

    // Start a timer for dst and enter it in the timers table.
    method StartRetry(dst: Addr)
      requires Valid() && !crashed
      modifies this`crashed, this`armed, timerIds, timers.Repr()
      ensures Valid() && fresh(timers.Repr() - old(timers.Repr())) && State() == StartTimer(old(State()), dst)
    {
      hide NameNode.Valid, NameNode.State, Digits;
      Abstracts();
      var i := TakeSlot();
      if i == timerIds.Length {
        Crash();
      } else {
        EnterTimer(Digits(i + 1), dst);
      }
    }

    // Append a requester to the list of dst.
    method AppendRequester(dst: Addr, requester: Option<Addr>)
      requires Valid() && dst in pnrs
      modifies this`lists, this`spines, this`Nodes, Nodes
      ensures Valid() && fresh(Nodes - old(Nodes)) && dst in old(lists)
      ensures State() == old(State()).(pnrs := old(lists)[dst := old(lists)[dst] + [requester]])
    {
      hide HashTables.HashTable.Valid, HashTables.HashTable.Map, HostsFiles.HostsFile.Valid, HostsFiles.MapOf;
      hide ListTable;
      assert dst in lists by { Listed(); }
      ghost var spines', Nodes' := PushTo(pnrs, spines, lists, Nodes, dst, requester);
      lists, spines, Nodes := lists[dst := lists[dst] + [requester]], spines', Nodes';
    }

    // A new pending request for dst with its first requester.
    method AddList(dst: Addr, requester: Option<Addr>)
      requires Valid() && dst !in pnrs
      modifies this`pnrs, this`lists, this`spines, this`Nodes
      ensures Valid() && fresh(Nodes - old(Nodes)) && State() == old(State()).(pnrs := old(lists)[dst := [requester]])
    {
      hide NameNode.Valid, NameNode.State, ListOf;
      ghost var R := Repr();
      var head := NewLinkedList(requester);
      assert head !in R && R == Repr();
      EnterList(dst, head, requester);
    }

    // cfuhash_put of a new list into the PNR table.
    method EnterList(dst: Addr, head: ListNode<Addr>, ghost requester: Option<Addr>)
      requires Valid() && dst !in pnrs && head !in Repr() && ListOf(head, [head], [requester])
      modifies this`pnrs, this`lists, this`spines, this`Nodes
      ensures Valid() && Nodes == old(Nodes) + {head}
      ensures State() == old(State()).(pnrs := old(lists)[dst := [requester]])
    {
      hide NameNode.Tables, ListOf, ListTable;
      ListTablePlus(pnrs, spines, lists, Nodes, dst, head, requester);
      pnrs, lists, spines, Nodes := pnrs[dst := head], lists[dst := [requester]], spines[dst := [head]], Nodes + {head};
    }

    // cfuhash_delete on the PNR table.
    method DropList(dst: Addr)
      requires Valid()
      modifies this`pnrs, this`lists, this`spines
      ensures Valid() && Repr() == old(Repr()) && State() == old(State()).(pnrs := old(lists) - {dst})
    {
      hide HashTables.HashTable.Valid, HashTables.HashTable.Map, HostsFiles.HostsFile.Valid, HostsFiles.MapOf;
      hide ListTable;
      ListTableMinus(pnrs, spines, lists, Nodes, dst);
      pnrs, lists, spines := pnrs - {dst}, lists - {dst}, spines - {dst};
    }

    // remove_name
    method RemoveName(dst: Addr)
      requires Valid()
      modifies hosts
      ensures Valid() && Repr() == old(Repr()) && State() == old(State()).(cache := old(State()).cache - {dst})
    {
      hide NameNode.Lists, HashTables.HashTable.Valid, HashTables.HashTable.Map, HostsFiles.MapOf;
      ShortLines(hosts.bindings, dst);
      hosts.RemoveName(dst);
    }

    // get_name_by_addr
    method LookUp(dst: Addr) returns (name: Option<Name>)
      requires Valid()
      ensures name == if dst in State().cache then Some(State().cache[dst]) else None
    {
      hide HashTables.HashTable.Valid, HashTables.HashTable.Map, HostsFiles.HostsFile.Valid, HostsFiles.MapOf;
      hide NameNode.Lists;
      name := hosts.GetNameByAddr(dst);
    }

    // cfuhash_get on the timers table.
    method TimerOf(key: string) returns (dst: Option<Addr>)
      requires Valid()
      ensures dst == if key in State().timers then Some(State().timers[key]) else None
    {
      hide HashTables.HashTable.Valid, HashTables.HashTable.Map, HostsFiles.HostsFile.Valid, HostsFiles.MapOf;
      hide NameNode.Lists;
      dst := timers.GetData(key);
    }

    // The concrete fields that handlers look at.
    lemma Abstracts()
      requires Valid()
      ensures Separate() && lists.Keys == pnrs.Keys && State().pnrs == lists && State().slots == timerIds[..]
      ensures State().crashed == crashed && State().armed == armed
    {
      Listed();
    }

    lemma Listed()
      requires Lists()
      ensures lists.Keys == pnrs.Keys == spines.Keys
    {
    }

    lemma ListIn(dst: Addr)
      requires Lists() && dst in pnrs
      ensures dst in spines && dst in lists && ListOf(pnrs[dst], spines[dst], lists[dst])
    {
    }

    lemma ListAt(dst: Addr)
      requires Valid() && dst in pnrs
      ensures dst in spines && dst in lists && ListOf(pnrs[dst], spines[dst], lists[dst])
    {
      ListIn(dst);
    }

    // exists_in_list on the list of dst
    method IsRegistered(dst: Addr, requester: Option<Addr>) returns (known: bool)
      requires Valid() && dst in pnrs
      ensures dst in lists && known == Exists(lists[dst], requester)
    {
      ListIn(dst);
      known := ExistsInList(pnrs[dst], requester, spines[dst], lists[dst]);
    }

    // register_nreq
    method RegisterNreq(dst: Addr, requester: Option<Addr>)
      requires Valid() && !crashed
      modifies this`pnrs, this`crashed, this`armed, this`lists, this`spines, this`Nodes, timerIds, timers.Repr(), Nodes
      ensures Valid() && fresh(Repr() - old(Repr())) && State() == Register(old(State()), dst, requester)
    {
      hide NameNode.Valid, NameNode.State, StartTimer;
      Abstracts();
      if dst in pnrs {
        var known := IsRegistered(dst, requester);
        if !known {
          AppendRequester(dst, requester);
        }
      } else {
        AddList(dst, requester);
        StartRetry(dst);
      }
    }

    // request_name
    method RequestName(dst: Addr, hop: Addr) returns (q: Nreq)
      requires Valid()
      modifies this`totalNreqs
      ensures Valid() && Repr() == old(Repr()) && State() == old(State())
      ensures q == Nreq(self, hop, dst) && totalNreqs == old(totalNreqs) + 1
    {
      hide NameNode.Valid, NameNode.State;
      Abstracts();
      q := Nreq(self, hop, dst);
      totalNreqs := totalNreqs + 1;
    }

    // A route to dst through hop was added.
    method OnRouteAdded(dst: Addr, hop: Addr) returns (nreqs: seq<Nreq>)
      requires Valid() && !crashed
      modifies Repr()
      ensures Valid() && fresh(Repr() - old(Repr()))
      ensures Effect(State(), nreqs, []) == RouteAdded(self, old(State()), dst, hop)
      ensures dst in old(State()).cache ==> nreqs == [] && State() == old(State())
      ensures dst !in old(State()).cache && !crashed ==> nreqs == [Nreq(self, hop, dst)]
      ensures totalNreqs == old(totalNreqs) + |nreqs| && totalNreps == old(totalNreps)
      ensures totalReceived == old(totalReceived) && totalCached == old(totalCached)
    {
      hide NameNode.Valid, NameNode.State, Register;
      Abstracts();
      nreqs := [];
      var name := LookUp(dst);
      if name.None? {
        if dst !in pnrs {
          RegisterNreq(dst, None);
          Abstracts();
        }
        if !crashed {
          var q := RequestName(dst, hop);
          nreqs := [q];
        }
      }
    }

    // The route to dst was removed.
    method OnRouteRemoved(dst: Addr)
      requires Valid() && !crashed
      modifies this`pnrs, this`lists, this`spines, hosts
      ensures Valid() && Repr() == old(Repr()) && State() == RouteRemoved(old(State()), dst)
      ensures State() == old(State()).(pnrs := old(State()).pnrs - {dst})
    {
      hide NameNode.Valid, NameNode.State;
      Abstracts();
      if dst in pnrs {
        DropList(dst);
      } else {
        assert lists - {dst} == lists;
      }
      var name := LookUp(dst);
      if name.None? {
        RemoveName(dst);
      }
    }

    // A request arrived.
    method OnNreq(src: Addr, dst: Addr) returns (nreps: seq<Nrep>)
      requires Valid() && !crashed
      modifies Repr()
      ensures Valid() && fresh(Repr() - old(Repr()))
      ensures Effect(State(), [], nreps) == ReceiveNreq(self, old(State()), src, dst)
      ensures totalReceived == old(totalReceived) + 1 && totalNreps == old(totalNreps) + |nreps|
      ensures totalNreqs == old(totalNreqs) && totalCached == old(totalCached)
    {
      hide NameNode.Valid, NameNode.State, Register;
      Abstracts();
      totalReceived := totalReceived + 1;
      nreps := [];
      var name := LookUp(dst);
      if name.Some? {
        nreps := [Nrep(self, src, dst, name.value)];
        totalNreps := totalNreps + 1;
      } else {
        RegisterNreq(dst, Some(src));
      }
    }

    // cache_name
    method CacheName(dst: Addr, name: Name)
      requires Valid() && Fits(dst, name)
      modifies this`totalCached, hosts
      ensures Valid() && Repr() == old(Repr())
      ensures var cache := old(State()).cache;
              && State() == old(State()).(cache := if dst in cache then cache else cache[dst := name])
              && totalCached == old(totalCached) + if dst in cache then 0 else 1
    {
      hide NameNode.Lists, HashTables.HashTable.Valid, HashTables.HashTable.Map, HostsFiles.Line, HostsFiles.Proper;
      hide HostsFiles.HostsFile.Valid, HostsFiles.MapOf;
      var cached := hosts.GetNameByAddr(dst);
      if cached.None? {
        totalCached := totalCached + 1;
      }
      hosts.CacheName(dst, name);
    }

    // respond_to_pnrs: walk the list of dst, replying to every requester that is not local.
    method RespondToPnrs(dst: Addr, name: Name) returns (nreps: seq<Nrep>)
      requires Valid()
      modifies this`totalNreps
      ensures Valid() && Repr() == old(Repr()) && State() == old(State())
      ensures nreps == Replies(self, Waiting(State(), dst), dst, name)
      ensures totalNreps == old(totalNreps) + |nreps|
    {
      nreps := [];
      hide NameNode.Valid, NameNode.State, NameNode.Lists;
      Abstracts();
      if dst !in pnrs {
        return;
      }
      assert dst in spines && ListOf(pnrs[dst], spines[dst], lists[dst]) by { ListAt(dst); }
      var current: ListNode?<Addr> := pnrs[dst];
      ghost var j, ns, vs := 0, spines[dst], lists[dst];
      while current != null
        invariant j <= |ns| && current == NodeAt(ns, j)
        invariant nreps == Replies(self, vs[..j], dst, name)
        invariant totalNreps == old(totalNreps) + |nreps| && Valid() && State() == old(State())
        decreases |ns| - j
      {
        assert vs[..j + 1][..j] == vs[..j];
        assert ns[j].next == NodeAt(ns, j + 1);
        var requester := current.val;
        current, j := current.next, j + 1;
        if requester.None? {
          continue;
        }
        nreps := nreps + [Nrep(self, requester.value, dst, name)];
        totalNreps := totalNreps + 1;
      }
      assert vs[..j] == vs;
    }

    // A reply arrived. Its name must fit the hosts file.
    method OnNrep(dst: Addr, name: Name) returns (nreps: seq<Nrep>)
      requires Valid() && !crashed && Fits(dst, name)
      modifies this`pnrs, this`lists, this`spines, this`totalCached, this`totalNreps, hosts
      ensures Valid() && Repr() == old(Repr())
      ensures Effect(State(), [], nreps) == ReceiveNrep(self, old(State()), dst, name)
      ensures totalNreps == old(totalNreps) + |nreps|
      ensures totalCached == old(totalCached) + if dst in old(State()).cache then 0 else 1
    {
      hide NameNode.Valid, NameNode.State, Replies, Fits;
      Abstracts();
      nreps := [];
      var cached := LookUp(dst);
      if cached.None? {
        CacheName(dst, name);
        nreps := RespondToPnrs(dst, name);
        Abstracts();
        DropList(dst);
      }
    }

    // cfuhash_delete on the timers table.
    method DeleteTimer(key: string)
      requires Valid()
      modifies timers.Repr()
      ensures Valid() && fresh(timers.Repr() - old(timers.Repr()))
      ensures State() == old(State()).(timers := old(State()).timers - {key})
    {
      hide HashTables.HashTable.Valid, HashTables.HashTable.Map, HostsFiles.HostsFile.Valid, HostsFiles.MapOf;
      hide NameNode.Lists, HashRuns.TableStep;
      var _ := timers.Delete(key);
    }

    // The slot of an expired timer is free again.
    method FreeSlotOf(slot: nat, id: nat)
      requires Valid() && 0 < id <= timerIds.Length
      modifies this`armed, timerIds
      ensures Valid() && timers.Repr() == old(timers.Repr())
      ensures var n := old(State()); State() == n.(slots := n.slots[id - 1 := 0], armed := n.armed - multiset{slot})
    {
      hide HashTables.HashTable.Valid, HashTables.HashTable.Map, HostsFiles.HostsFile.Valid, HostsFiles.MapOf;
      hide NameNode.Lists;
      timerIds[id - 1] := 0;
      armed := armed - multiset{slot};
    }

    // The expired timer leaves the timers table and its slot is free again.
    method StopTimer(slot: nat, id: nat, key: string)
      requires Valid() && 0 < id <= timerIds.Length
      modifies this`armed, timerIds, timers.Repr()
      ensures Valid() && fresh(timers.Repr() - old(timers.Repr()))
      ensures var n := old(State());
              State() == n.(timers := n.timers - {key}, slots := n.slots[id - 1 := 0],
                            armed := n.armed - multiset{slot})
    {
      hide NameNode.Valid, NameNode.State;
      DeleteTimer(key);
      FreeSlotOf(slot, id);
    }

    // Start another timer for dst and ask again.
    method Retry(dst: Addr, hop: Addr) returns (nreqs: seq<Nreq>)
      requires Valid() && !crashed
      modifies this`crashed, this`armed, this`totalNreqs, timerIds, timers.Repr()
      ensures Valid() && fresh(timers.Repr() - old(timers.Repr())) && State() == StartTimer(old(State()), dst)
      ensures nreqs == if State().crashed then [] else [Nreq(self, hop, dst)]
      ensures totalNreqs == old(totalNreqs) + |nreqs|
    {
      hide NameNode.Valid, NameNode.State, StartTimer;
      Abstracts();
      nreqs := [];
      StartRetry(dst);
      Abstracts();
      if !crashed {
        var q := RequestName(dst, hop);
        nreqs := [q];
      }
    }

    // The timer of a slot expired; `route` is the next hop found in the routing table.
    method OnTimeout(slot: nat, route: Option<Addr>) returns (nreqs: seq<Nreq>)
      requires Valid() && !crashed && slot < timerIds.Length && slot in armed
      modifies this`crashed, this`armed, this`totalNreqs, timerIds, timers.Repr()
      ensures Valid() && fresh(timers.Repr() - old(timers.Repr()))
      ensures Effect(State(), nreqs, []) == Timeout(self, old(State()), slot, route)
      ensures totalNreqs == old(totalNreqs) + |nreqs|
    {
      hide NameNode.Valid, NameNode.State, Digits, StartTimer, Timeout;
      Abstracts();
      TimeoutCases(self, State(), slot, route);
      var id := timerIds[slot];
      var entry := TimerOf(Digits(id));
      if entry.None? || id == 0 || id > timerIds.Length {
        Crash();
        nreqs := [];
      } else {
        nreqs := Expire(slot, id, entry.value, route);
      }
    }

    // The timer with this id, started for dst, is stopped, and another one started if the request is still pending.
    method Expire(slot: nat, id: nat, dst: Addr, route: Option<Addr>) returns (nreqs: seq<Nreq>)
      requires Valid() && !crashed && slot < timerIds.Length && id == timerIds[slot] && 0 < id <= timerIds.Length
      requires Digits(id) in State().timers && dst == State().timers[Digits(id)]
      modifies this`crashed, this`armed, this`totalNreqs, timerIds, timers.Repr()
      ensures Valid() && fresh(timers.Repr() - old(timers.Repr()))
      ensures Effect(State(), nreqs, []) == Timeout(self, old(State()), slot, route)
      ensures totalNreqs == old(totalNreqs) + |nreqs|
    {
      hide NameNode.Valid, NameNode.State, Digits, StartTimer, Timeout;
      Abstracts();
      TimeoutCases(self, State(), slot, route);
      nreqs := [];
      StopTimer(slot, id, Digits(id));
      if dst in pnrs && route.Some? {
        nreqs := Retry(dst, route.value);
      }
    }

    // A NULL pointer is followed.
    method Crash()
      requires Valid()
      modifies this`crashed
      ensures Valid() && Repr() == old(Repr()) && State() == old(State()).(crashed := true)
    {
      crashed := true;
    }
  }

  // timeout_handler's cases: no entry, a request that is not restarted, one that is.
  lemma TimeoutCases(self: Addr, n: Node, slot: nat, route: Option<Addr>)
    requires slot < |n.slots|
    ensures var id := n.slots[slot];
            var key, f := Digits(id), Timeout(self, n, slot, route);
            if key !in n.timers || id == 0 || id > |n.slots| then f == Effect(n.(crashed := true), [], [])
            else
              var n1 := n.(timers := n.timers - {key}, slots := n.slots[id - 1 := 0],
                           armed := n.armed - multiset{slot});
              var n2 := StartTimer(n1, n.timers[key]);
              f == if n.timers[key] !in n.pnrs || route.None? then Effect(n1, [], [])
                   else Effect(n2, if n2.crashed then [] else [Nreq(self, route.value, n.timers[key])], [])
  {
    hide Digits, StartTimer;
  }

  lemma ShortLines(bs: seq<HostsFiles.Binding>, addr: string)
    requires HostsFiles.AllProper(bs) && HostsFiles.AllShort(bs)
    ensures HostsFiles.AllRemovable(bs, addr) && HostsFiles.AllShort(HostsFiles.Without(bs, addr))
  {
    forall i | 0 <= i < |bs|
      ensures HostsFiles.Removable(bs[i], addr)
    {
      HostsFiles.ShortIsRemovable(bs[i], addr);
    }
    ShortWithout(bs, addr);
  }

  lemma {:induction false} ShortWithout(bs: seq<HostsFiles.Binding>, addr: string)
    requires HostsFiles.AllShort(bs)
    ensures HostsFiles.AllShort(HostsFiles.Without(bs, addr))
  {
    if bs == [] {
    } else {
      ShortWithout(bs[1..], addr);
    }
  }

  lemma {:induction false} FirstIs(slots: seq<nat>, i: nat)
    requires i <= |slots| && (forall j :: 0 <= j < i ==> slots[j] != 0) && (i < |slots| ==> slots[i] == 0)
    ensures FreeSlot(slots) == i
  {
  }
}
