/** NameSPREAD's event handlers as functions on the state of one node. Each
    handler runs as one atomic step. */
module Protocol {
  import opened Options
  import opened Decimals

  type Addr = string
  type Name = string

  const N_TIMERS: nat := 100

  // "NREQ dst" and "NREP dst name", with the addresses of the UDP packet.
  datatype Nreq = Nreq(src: Addr, to: Addr, dst: Addr)
  datatype Nrep = Nrep(src: Addr, to: Addr, dst: Addr, name: Name)

  // The hosts file, the table of pending name requests (PNRs), the timer ids in
  // use, the timers table (decimal id to destination) and the slots whose timer
  // is running. A requester of None is a local request (NULL in the source).
  // `crashed` is set when a handler dereferences NULL.
  datatype Node = Node(
    cache: map<Addr, Name>,
    pnrs: map<Addr, seq<Option<Addr>>>,
    slots: seq<nat>,
    timers: map<string, Addr>,
    armed: multiset<nat>,
    crashed: bool)

  datatype Effect = Effect(node: Node, nreqs: seq<Nreq>, nreps: seq<Nrep>)

  // At start the hosts file holds only the node's own name.
  function Boot(self: Addr, hostname: Name): Node {
    Node(map[self := hostname], map[], seq(N_TIMERS, _ => 0), map[], multiset{}, false)
  }

  // next_free_timer_id: the first free slot, or the number of slots.
  function FreeSlot(slots: seq<nat>): (i: nat)
    ensures i <= |slots| && (i < |slots| ==> slots[i] == 0)
    ensures forall j :: 0 <= j < i ==> slots[j] != 0
  {
    if slots == [] || slots[0] == 0 then 0 else 1 + FreeSlot(slots[1..])
  }

  // Start a timer for dst. With no free slot the source dereferences NULL.
  function StartTimer(n: Node, dst: Addr): Node {
    var i := FreeSlot(n.slots);
    if i == |n.slots| then n.(crashed := true)
    else n.(slots := n.slots[i := i + 1], timers := n.timers[Digits(i + 1) := dst], armed := n.armed + multiset{i})
  }

  // exists_in_list: a NULL element is never found.
  predicate Exists(list: seq<Option<Addr>>, elem: Option<Addr>) {
    elem.Some? && elem in list
  }

  // register_nreq
  function Register(n: Node, dst: Addr, requester: Option<Addr>): Node {
    if dst in n.pnrs then
      if Exists(n.pnrs[dst], requester) then n
      else n.(pnrs := n.pnrs[dst := n.pnrs[dst] + [requester]])
    else StartTimer(n.(pnrs := n.pnrs[dst := [requester]]), dst)
  }

  function RouteAdded(self: Addr, n: Node, dst: Addr, hop: Addr): Effect {
    if dst in n.cache then Effect(n, [], [])
    else
      var n1 := if dst in n.pnrs then n else Register(n, dst, None);
      Effect(n1, if n1.crashed then [] else [Nreq(self, hop, dst)], [])
  }

  // As coded, remove_name is reached only for a name that is not cached.
  function RouteRemoved(n: Node, dst: Addr): Node {
    var n1 := n.(pnrs := n.pnrs - {dst});
    if dst !in n.cache then n1.(cache := n.cache - {dst}) else n1
  }

  function ReceiveNreq(self: Addr, n: Node, src: Addr, dst: Addr): Effect {
    if dst in n.cache then Effect(n, [], [Nrep(self, src, dst, n.cache[dst])])
    else Effect(Register(n, dst, Some(src)), [], [])
  }

  // respond_to_pnrs: one reply per requester that is not local.
  function Replies(self: Addr, list: seq<Option<Addr>>, dst: Addr, name: Name): seq<Nrep> {
    if list == [] then []
    else Replies(self, list[..|list| - 1], dst, name) +
         if list[|list| - 1].Some? then [Nrep(self, list[|list| - 1].value, dst, name)] else []
  }

  function Waiting(n: Node, dst: Addr): seq<Option<Addr>> {
    if dst in n.pnrs then n.pnrs[dst] else []
  }

  function ReceiveNrep(self: Addr, n: Node, dst: Addr, name: Name): Effect {
    if dst in n.cache then Effect(n, [], [])
    else
      var n1 := n.(cache := n.cache[dst := name], pnrs := n.pnrs - {dst});
      Effect(n1, [], Replies(self, Waiting(n, dst), dst, name))
  }

  // timeout_handler for the timer of a slot; `route` is the next hop towards the
  // timer's destination, if the routing table has one.
  function Timeout(self: Addr, n: Node, slot: nat, route: Option<Addr>): Effect
    requires slot < |n.slots|
  {
    var id := n.slots[slot];
    var key := Digits(id);
    if key !in n.timers || id == 0 || id > |n.slots| then Effect(n.(crashed := true), [], [])
    else
      var dst := n.timers[key];
      var n1 := n.(timers := n.timers - {key}, slots := n.slots[id - 1 := 0], armed := n.armed - multiset{slot});
      if dst !in n.pnrs || route.None? then Effect(n1, [], [])
      else
        var n2 := StartTimer(n1, dst);
        Effect(n2, if n2.crashed then [] else [Nreq(self, route.value, dst)], [])
  }
}
