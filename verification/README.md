# nameSPREAD in Dafny

NameSPREAD spreads host names through an ad hoc network. Each node asks the next
hop towards a destination for the destination's name (an NREQ), remembers who
asked it in turn (pending name requests, PNRs), and passes replies (NREPs) on to
them. It stores its tables in `libcfu`, a chained hash table and a growable
string.

The project has three parts.

**The protocol.** `Protocol.dfy` defines the event handlers as functions on the
state of one node; `NameNode.dfy` is the process that updates its hosts file
(`HostsFile.dfy`), timers table (`HashTable.dfy`), heap lists (`LinkedList.dfy`)
and timer slots in place and is proved to compute those functions. `Network.dfy`
puts any number of nodes together with the messages in flight, which are
delivered in any order and may be lost or copied, and proves the safety
invariant of all runs. On top of it: `Effects.dfy` (what each event sends and
changes, said without the handlers, and the books of all messages),
`Provenance.dfy` (names are true and come from their owner),
`Conservation.dfy` (replies are solicited),
`Convergence.dfy` (no request is forgotten, names reach every node with a
loop-free route), `Delivery.dfy` (exchanges end), `Timers.dfy` (the timer pool),
`Capacity.dfy` (when it suffices without route removals), `Crashes.dfy` (exactly
when it runs out, with them), `Recovery.dfy` (timeouts repair loss).
`Messages.dfy` and `HostsFile.dfy` are the texts of messages and of the hosts
file; `TextNetwork.dfy` is the network whose messages are these texts and
`TextConvergence.dfy` its convergence.

**The hash table.** `Buckets.dfy` is the table as a value, `BucketsCorrect.dfy`
proves that it is a finite map, `HashRuns.dfy` proves agreement with the map,
the load band and amortised cost over whole runs, `HashLayout.dfy` the number of
buckets and the place of the entries after each call, and `Concurrent.dfy`
linearizability of threads sharing a table. `HashTable.dfy` is the heap table:
an array of linked chains updated in place, with iteration, copy and merge.
`Bencode.dfy` prints a table and reads it back.

**The string buffer.** `StringBuffer.dfy` is the growable buffer and its
amortised copying, `Split.dfy` the splitter. `Decimal.dfy` is decimal notation,
`Options.dfy` the pointer that may be NULL.

Assumptions and choices:

- Each handler is one atomic step. In the source the listener, the route watcher
  and the signal handler share their tables without a lock.
- Routes, timer expiry and the choice of the next message are events of the
  environment; the routing table lookup of the timeout handler is a parameter.
- A handler that would dereference NULL because all 100 timer slots are taken
  sets `crashed`; a crashed node handles nothing any more. `Crashes.CrashedWhen`
  and `Crashes.TimerBooks` say exactly when this happens. A route that comes and
  goes does it: a removed pending request keeps its timer, and the next route to
  the destination starts another (`Crashes.FlappingCrashes`).
- `src/route_watcher.c:82` removes a name only if it is not cached, against its
  own comment. The model follows the code; `Network.RouteRemovedForgets` states
  what it does, and the safety results use that names are never removed.
- `Net.lost` holds the requests that were lost, or whose reply was lost, on the
  way or at a crashed node, or that their receiver dropped when its route was
  removed.
- The network of `Network.dfy` delivers parsed messages. The listener looks for
  "NREQ" anywhere in a text, so a reply with a name that contains it is taken for
  a request. `TextNetwork.TextAgrees` proves that parsing makes no difference as
  long as addresses and names are words (no spaces) without "NREQ", so all
  results about names carry over to texts under this condition;
  `TextConvergence.TextConverges` gives the exact condition for the name of each
  destination by itself.
- Each node starts knowing its own name only (`manet.py:146-149`).
- The hash function is arbitrary. The thresholds are exactly 1/4 and 3/4. The
  table's `frozen` and `untilGrows` are the flags CFUHASH_FROZEN and
  CFUHASH_FROZEN_UNTIL_GROWS; every public constructor sets the latter.

Many proofs hide definitions they do not need with `hide` statements, to keep
verification fast. `dafny verify dfyconfig.toml` checks the project.

## Model

| member | source | states |
|---|---|---|
| `Buckets.HashSize` | src/libcfu/cfuhash.c:110-116 | the bucket count is a power of two, at least the size asked for and less than twice it |
| `HashTables.PowerOfTwo` | src/libcfu/cfuhash.c:110-116 | the doubling loop computes that size |
| `Buckets.MaskIsRemainder` | src/libcfu/cfuhash.c:134-154 | masking a hash with a power of two minus one is taking the remainder, so every bucket is reachable and no index is out of range |
| `Buckets.GetFinds` | src/libcfu/cfuhash.c:350-381 | in a well-formed table a lookup returns a value exactly if the entry is in the table |
| `BucketsCorrect.PutChainCorrect` | src/libcfu/cfuhash.c:437-452 | overwriting or prepending changes the answer for its key only and never repeats a key |
| `BucketsCorrect.CutChainCorrect` | src/libcfu/cfuhash.c:518-535 | unlinking removes its key and leaves every other answer alone |
| `BucketsCorrect.PutLockedCorrect` | src/libcfu/cfuhash.c:434-454 | the locked part of a put is the map update, returns the displaced data and keeps the table well-formed |
| `BucketsCorrect.DeleteLockedCorrect` | src/libcfu/cfuhash.c:515-537 | the locked part of a delete is the map removal, returns the removed data and keeps the table well-formed |
| `BucketsCorrect.RehashCorrect` | src/libcfu/cfuhash.c:803-834 | a rehash keeps the map, the number of entries and well-formedness; it counts as a resize exactly if the bucket count changes |
| `BucketsCorrect.CountIsSize` | src/libcfu/cfuhash.c:836-840 | `entries`, the number of chain nodes, is the size of the map |
| `HashRuns.StepRefines` | src/libcfu/cfuhash.c:350-546 | each call returns what the map returns and leaves table and map in agreement |
| `HashRuns.NewTableIsMap` | src/libcfu/cfuhash.c:156-192 | for every hash function, every run of calls on a new table gives the results of the same run on an empty map |
| `HashRuns.RehashBand` | src/libcfu/cfuhash.c:803-834 | after any rehash the load is between a quarter and three quarters (or the table is empty with one bucket), and a second rehash does nothing |
| `HashRuns.PutBand` | src/libcfu/cfuhash.c:456-458 | a put keeps the load band, and when it rehashes the bucket count exactly doubles |
| `HashRuns.DeleteBand` | src/libcfu/cfuhash.c:539-542 | a delete keeps the load band, and when it rehashes 16 or more buckets they exactly halve (8 become 2, fewer become 1) |
| `HashRuns.ClearBand` | src/libcfu/cfuhash.c:477-505 | a clear empties the table; once it has been resized it goes back to one bucket |
| `HashRuns.NewTableInBand` | src/libcfu/cfuhash.c:171-173 | between any two calls on an unfrozen table the load is in the band |
| `HashRuns.StepAmortised` | src/libcfu/cfuhash.c:456-458 | entries relinked by one call are paid for by three units per update and the potential |
| `HashRuns.RehashingIsAmortised` | src/libcfu/cfuhash.c:803-834 | over any run from a new table the rehashes inside put, delete and clear relink at most three entries per update |
| `HashLayout.RehashTight` | src/libcfu/cfuhash.c:803-834 | after any rehash the bucket count is a power of two, more than a quarter and at most half full (one bucket if empty), and a rehash leaves a table alone exactly if it is so already |
| `HashLayout.PutBuckets` | src/libcfu/cfuhash.c:456-458 | a put changes the bucket count exactly if the table is not frozen, the key is new, and the table is then more than three quarters full |
| `HashLayout.DeleteBuckets` | src/libcfu/cfuhash.c:539-542 | a delete rehashes exactly if the table is neither frozen nor frozen until it grows, the key was there, and the table is then less than a quarter full |
| `HashLayout.ClearBuckets` | src/libcfu/cfuhash.c:477-505 | a clear leaves empty chains: one if the table may shrink, otherwise as many as before |
| `HashLayout.StepCostIs` | src/libcfu/cfuhash.c:803-834 | a call relinks all entries it leaves if it changes the bucket count, and none otherwise |
| `HashLayout.FrozenRun` | src/libcfu/cfuhash.c:456-458 | no run of calls other than rehash changes the bucket count of a frozen table or relinks an entry |
| `HashLayout.FrozenKeepsBuckets` | src/libcfu/cfuhash.c:156-192 | a new frozen table keeps, over every such run, the power of two of buckets that its size asked for |
| `HashLayout.NewBuckets` | src/libcfu/cfuhash.c:156-192 | a new table has empty chains, as many as the power of two for its size, and the flags it was given |
| `HashLayout.SlotIsRemainder` | src/libcfu/cfuhash.c:150-154 | every entry lies in the bucket that is the remainder of its hash by the number of buckets |
| `HashLayout.PutPlaces` | src/libcfu/cfuhash.c:437-452 | a put changes one bucket: the entry of the key in place, or a new one in front of the chain |
| `HashLayout.DeletePlaces` | src/libcfu/cfuhash.c:518-535 | a delete changes one bucket: one entry goes and the others keep their order |
| `HashLayout.RehashPlaces` | src/libcfu/cfuhash.c:816-825 | after a resize each chain lists the entries of its bucket in the reverse of the old order |
| `HashTables.NoRepeat` | src/libcfu/cfuhash.c:67-73 | a chain linked to NULL repeats no node |
| `HashTables.HashTable.Search` | src/libcfu/cfuhash.c:437-439 | the chain walk finds the first node for a key and the node before it |
| `HashTables.HashTable.GetData` | src/libcfu/cfuhash.c:350-381 | a lookup in the heap table returns the map's value |
| `HashTables.HashTable.AddEntry` | src/libcfu/cfuhash.c:325-344 | a new node goes in front of its chain and `entries` goes up by one; nothing else changes |
| `HashTables.CutChainAt` | src/libcfu/cfuhash.c:523-535 | linking past a node, from its predecessor or from the bucket, removes exactly that node from the chain |
| `HashTables.HashTable.PutSection` | src/libcfu/cfuhash.c:434-454 | the locked part of a put computes PutLocked in place |
| `HashTables.HashTable.DeleteSection` | src/libcfu/cfuhash.c:515-537 | the locked part of a delete computes DeleteLocked in place |
| `HashTables.HashTable.PutData` | src/libcfu/cfuhash.c:417-461 | a whole put with its load test and rehash computes PutData and relinks as many entries as StepCost says |
| `HashTables.HashTable.DeleteData` | src/libcfu/cfuhash.c:507-546 | a whole delete with its load test and rehash computes DeleteData and relinks as many entries as StepCost says |
| `HashTables.HashTable.Put` | src/libcfu/cfuhash.c:463-475 | put updates the map and returns the old data |
| `HashTables.HashTable.Delete` | src/libcfu/cfuhash.c:548-551 | delete removes the key from the map and returns its data |
| `HashTables.HashTable.Clear` | src/libcfu/cfuhash.c:477-505 | clear leaves the empty map |
| `HashTables.MoveChain` | src/libcfu/cfuhash.c:816-825 | the inner rehash loop moves every node of a chain, in order, in front of its new bucket |
| `HashTables.HashTable.Rehash` | src/libcfu/cfuhash.c:803-834 | the in-place rehash computes Rehash and reports whether it resized |
| `HashTables.HashTable.KeysData` | src/libcfu/cfuhash.c:553-597 | the keys of all entries, bucket by bucket and each chain from its head; the guard in the loop never fires |
| `HashTables.HashTable.EachData` | src/libcfu/cfuhash.c:604-612 | each restarts the iteration and returns the first entry |
| `HashTables.HashTable.NextData` | src/libcfu/cfuhash.c:614-640 | next returns the entry after the one last returned, or nothing at the end |
| `HashTables.Traverse` | src/libcfu/cfuhash.c:604-640 | each followed by next until 0 visits every entry once, in the order of keys_data, and these are the pairs of the map |
| `HashTables.Copy` | src/libcfu/cfuhash.c:200-222 | copy overrides dst's map by src's and leaves src's map alone, also when both are one table |
| `HashTables.Merge` | src/libcfu/cfuhash.c:224-234 | merge returns a new table, with the given flags, of ht1's map overridden by ht2's, either of which may be NULL |
| `Concurrent.SectionRefines` | src/libcfu/cfuhash.c:434-537 | each locked section alone is the map operation, without the rehash that may follow |
| `Concurrent.Linearizable` | src/libcfu/cfuhash.c:434-458 | in every interleaving of threads, load tests read outside the lock and separately locked rehashes, calls are linearizable: a sequential map run in lock order gives all results, each call owns one position, and calls that do not overlap keep their order |
| `Concurrent.CallAlone` | src/libcfu/cfuhash.c:417-461 | the steps of a call that nothing interrupts, with the load test it makes, have the effect and outcome of the whole call and log it once |
| `Concurrent.OthersStay` | src/libcfu/cfuhash.c:434-458 | a step of one thread leaves the calls of the others where they are |
| `Bencoding.BencodeStrings` | src/libcfu/cfuhash.c:864-897 | the text printed decodes, as a BEP 3 dictionary of strings, to exactly the table's map, NULL read as the empty string |
| `Bencoding.RoundTrip` | src/libcfu/cfuhash.c:864-897 | decoding undoes encoding for every table of NUL-free strings |
| `Bencoding.EncodeOne` | src/libcfu/cfuhash.c:874-892 | a pair is printed as the length of the key, a colon and the key, then the same for its data |
| `Bencoding.EncodeInOrder` | src/libcfu/cfuhash.c:874-892 | the pairs are printed one after the other |
| `Decimals.ValueOfDigits` | src/libcfu/cfuhash.c:879-885 | reading the decimal length back gives the length |
| `Decimals.DigitsOfValue` | src/libcfu/cfuhash.c:879-885 | every numeral without leading zeros is what is printed for its value |
| `Decimals.DigitsShape` | src/libcfu/cfuhash.c:879-885 | digits come from the highest to the lowest, and only zero starts with 0 |
| `StringBuffers.StringBuffer.constructor` | src/libcfu/cfustring.c:72-82 | a fresh buffer is empty, with memory only if a size was asked for |
| `StringBuffers.StringBuffer.Clear` | src/libcfu/cfustring.c:106-113 | clear empties the text and keeps the memory |
| `StringBuffers.StringBuffer.AppendN` | src/libcfu/cfustring.c:115-163 | append adds the string, or its first n characters, and a terminator; the memory stays if that fits and otherwise grows to twice its size or to what is needed, whichever is more, copying the old text once |
| `StringBuffers.StringBuffer.Append` | src/libcfu/cfustring.c:165-168 | append adds the whole string; NULL adds nothing |
| `StringBuffers.StringBuffer.Dup` | src/libcfu/cfustring.c:91-104 | dup replaces the text; NULL frees the memory |
| `StringBuffers.StringBuffer.GetBufferCopy` | src/libcfu/cfustring.c:175-183 | a copy of the text, NULL if there is no memory |
| `StringBuffers.BufferRun` | src/libcfu/cfustring.c:106-168 | over any run of append, append_n and clear the text is what was appended since the last clear, and all reallocations together copied no more bytes than are allocated now, nor more than twice the bytes appended plus 2 |
| `StringBuffers.StringBuffer.Reserve` | src/libcfu/cfustring.c:134-154 | room for the string by doubling or exactly; the characters the reallocation copied are counted, and `Valid` ties the count to the one `BufferRun` bounds |
| `Splitting.CheckSep` | src/libcfu/cfustring.c:216-259 | the scan with any separators returns the text up to the first one that is matched completely (NULL if empty) and goes on after it |
| `Splitting.FirstMatchOf` | src/libcfu/cfustring.c:235-250 | of several separators the match that ends first counts, and of those that end together the first in the list; there is no match exactly if no separator alone has one |
| `Splitting.EmptySeparator` | src/libcfu/cfustring.c:235-250 | an empty separator is found nowhere |
| `Splitting.MatcherExact` | src/libcfu/cfustring.c:235-250 | the matcher does not back up: it finds the first occurrence of a separator in every text if and only if the separator's characters are all the same |
| `Splitting.MatcherOverlooks` | src/libcfu/cfustring.c:246-248 | for every other separator, a text with an occurrence that is overlooked |
| `Splitting.SplitToRaw` | src/libcfu/cfustring.c:261-326 | the split loop with its doubling array returns the pieces, for every limit |
| `Splitting.SplitIsFieldsBeforeEmpty` | src/libcfu/cfustring.c:261-326 | without a limit the pieces are the fields before the first empty field |
| `Splitting.SplitUndoesJoin` | src/libcfu/cfustring.c:261-326 | splitting a join, by a separator whose first character is in none of the strings, returns them exactly if none is empty |
| `Splitting.SplitUndoesMixedJoin` | src/libcfu/cfustring.c:261-326 | strings joined with any of several one-character separators, none of which they contain, come back exactly if none is empty |
| `Splitting.SplitWithLimit` | src/libcfu/cfustring.c:313-315 | with limit k of two or more: the first k-1 strings, then the join of the rest if any, exactly if none of these pieces is empty |
| `LinkedLists.NewLinkedList` | src/linked_list.c:129-141 | a list of one value |
| `LinkedLists.ExistsInList` | src/linked_list.c:20-38 | finds a value exactly if it is in the list; NULL is never found |
| `LinkedLists.Push` | src/linked_list.c:40-51 | appends in place at the end |
| `LinkedLists.PushFirst` | src/linked_list.c:53-61 | prepends |
| `LinkedLists.Pop` | src/linked_list.c:63-78 | removes and returns the first value, or "-1" on the empty list |
| `LinkedLists.RemoveByIndex` | src/linked_list.c:103-127 | removes and returns the n-th value, or returns "-1" and changes nothing past the end |
| `NameNodes.NameNode.NextFreeTimerId` | src/namespread.c:110-120 | takes the first free slot, if any |
| `NameNodes.NameNode.RegisterNreq` | src/route_watcher.c:167-213 | adds the requester to the pending request in place unless it is there, or creates the request and its timer |
| `NameNodes.NameNode.OnRouteAdded` | src/route_watcher.c:43-73 | the handler of an added route computes RouteAdded and counts its request; for a cached name it does nothing |
| `NameNodes.NameNode.OnRouteRemoved` | src/route_watcher.c:74-84 | the handler of a removed route computes RouteRemoved: it drops the pending request for dst and changes nothing else |
| `NameNodes.NameNode.OnNreq` | src/nreq_responder.c:44-78 | the handler of a request computes ReceiveNreq and counts request and reply |
| `NameNodes.NameNode.RespondToPnrs` | src/nreq_responder.c:131-162 | the list walk sends one reply per requester that is not local, in list order |
| `NameNodes.NameNode.OnNrep` | src/nreq_responder.c:79-100 | the handler of a reply computes ReceiveNrep and counts names and replies |
| `NameNodes.NameNode.OnTimeout` | src/timer.c:13-69 | the timeout handler computes Timeout and counts its request |
| `Network.RegisterAdds` | src/route_watcher.c:167-176 | registering adds exactly the requester to the list, keeps the list well-formed and touches no other list |
| `Network.RepliesAre` | src/nreq_responder.c:143-161 | the replies sent are exactly those to the remote requesters of the list, with this destination and name |
| `Network.SoundStep` | src/nreq_responder.c:37-118 | every event keeps the safety invariant: tables well-formed, names true, waiting requesters have asked, replies are true and asked for |
| `Network.PnrTablesWellFormed` | src/route_watcher.c:50-81 | in every reachable state no destination is both cached and pending; requester lists are non-empty, repeat nobody, and have a local request only at the head |
| `Network.RouteRemovedForgets` | src/route_watcher.c:80-83 | the pending request goes, but the name is absent afterwards exactly if it was absent before: a cached name is never removed |
| `Effects.RequestsSent` | src/route_watcher.c:43-73 | the requests an event sends: one for a route to a name that is not cached, unless its timer finds no slot; one for a timeout whose destination is pending and routed; none otherwise |
| `Effects.OnlyUnknownIsAsked` | src/route_watcher.c:50-68 | in every run a request is sent only by a running node that does not know the name |
| `Effects.RequestBooks` | src/namespread.c:123-162 | in every run, copies of a request in flight plus those taken off the wire are those sent plus those copied by the network; it counts as asked exactly if it was sent |
| `Effects.RepliesInOrder` | src/nreq_responder.c:131-162 | the replies go to the remote requesters of the list in its order |
| `Effects.RepliesSent` | src/nreq_responder.c:52-99 | the replies an event sends: one for a request whose name is cached, one to each waiting requester when a name arrives for the first time, none otherwise |
| `Effects.ReplyBooks` | src/nreq_responder.c:52-99 | in every run, copies of a reply in flight plus those taken are those sent plus those copied by the network |
| `Effects.AnswerBooks` | src/nreq_responder.c:131-162 | in every run a request has been answered as often as there were events that answer it |
| `Effects.PendingStep` | src/route_watcher.c:74-84 | a request stays pending until its own route is removed or its name arrives, becomes pending only for an unknown name that is asked for, and its list only grows at the end |
| `Effects.TimersStep` | src/route_watcher.c:189-198 | only timeouts and newly opened requests change the timers of a node |
| `Effects.RouteRemovedKeeps` | src/route_watcher.c:74-84 | removing a route drops the pending request for it and leaves other requests, names, timers, nodes and messages alone |
| `Effects.HandledExactly` | src/nreq_responder.c:37-118 | an event reaches a handler exactly if its node runs and its message is in flight or its timer is running |
| `Effects.LosesExactly` | src/route_watcher.c:80-81 | a step loses a request exactly if it, or its reply, is lost on the way or at a crashed node, or its receiver removes the route it waits for |
| `Effects.EnvironmentStep` | src/nreq_responder.c:37-118 | losing or copying a message touches no node and no message of the other kind |
| `Provenance.KnowledgeGrows` | src/nreq_responder.c:87-99 | a node knows a name after an event exactly if it knew it or the event delivers a reply about it |
| `Provenance.TruthAndProvenance` | src/nreq_responder.c:54-99 | in every run with loss, copies and reordering, every cached or travelling name is its owner's, and came from the owner along a path of distinct nodes, each of which asked the next and learned the name from it |
| `Conservation.RepliesCount` | src/nreq_responder.c:143-161 | answering a list answers each waiting requester exactly once |
| `Conservation.RepliesAreSolicited` | src/nreq_responder.c:52-99 | for every node, requester and destination, replies sent plus one if a reply is due never exceed requests received; likewise in total |
| `Convergence.LostIs` | src/nreq_responder.c:37-118 | a request counts as lost exactly if an event of the run lost it or its reply, on the way or at a crashed node, or its receiver dropped it with the route |
| `Convergence.LossFreeKeeps` | src/route_watcher.c:80-81 | a request is not lost if no event of the run can lose it and its sender and receiver run |
| `Convergence.NoRequestForgotten` | src/nreq_responder.c:52-99 | in every run, every request ever sent that was not itself lost is in flight, noted by its receiver, answered in flight, or its sender knows the name |
| `Convergence.RoutedAsked` | src/route_watcher.c:43-73 | a running node that saw a route knows the name or has asked the next hop |
| `Convergence.ConvergesAt` | src/nreq_responder.c:44-100 | running nodes that were given loop-free routes to dst know dst's true name, if none of the requests along these routes was lost and none of their messages is left in flight, whatever else was lost or removed and whoever else crashed |
| `Delivery.RequestDelivery` | src/nreq_responder.c:44-78 | delivering a request uses up work |
| `Delivery.ReplyDelivery` | src/nreq_responder.c:79-100 | delivering a reply uses up work, although it may send several replies |
| `Delivery.DeliveriesEnd` | src/nreq_responder.c:37-118 | a sequence of deliveries is no longer than the work it uses up |
| `Delivery.RequestsSettle` | src/nreq_responder.c:37-118 | k requests and nothing else pending are settled within 3k deliveries |
| `Delivery.DeliveringSpreadsNames` | src/nreq_responder.c:37-118 | after any run that gave nodes loop-free routes to dst and lost none of the requests along them, any schedule of deliveries ends within the work bound, and when it cannot go on, the nodes, if none of them has crashed, know dst's true name |
| `Delivery.DeliveringWithinCapacity` | src/nreq_responder.c:37-118 | the corollary without the crash assumption: at most 100 destinations, no route removal, and no loss along the routes to dst |
| `Timers.StartTimerPool` | src/namespread.c:110-120 | starting a timer keeps slots, running timers and timers table in agreement |
| `Timers.TimerFires` | src/timer.c:13-69 | a firing timer finds its own entry and frees its slot, so restarting it never runs out of slots |
| `Timers.TimerPoolAlways` | src/namespread.c:110-120 | in every run each slot holds 0 or its index plus one, and exactly the busy slots have one running timer and one entry under their decimal id |
| `Timers.TimeoutTimes` | src/timer.c:44-68 | after a timeout a pending destination has a live timer exactly if its request was restarted or another timer runs for it |
| `Timers.PendingAreTimed` | src/route_watcher.c:189-198 | while the timeouts of a node's pending requests for a destination find a route, the node, as long as it runs, has a live timer for it whenever it is pending |
| `Capacity.SlotLeft` | src/namespread.c:110-120 | with at most 100 destinations a destination without a timer finds a free slot |
| `Capacity.NoCrash` | src/route_watcher.c:189-194 | special case of `Crashes.CrashedWhen`: with at most 100 destinations and no route removal no node ever runs out of timers |
| `Capacity.CrashesBeyond` | src/route_watcher.c:189-194 | an instance of `Crashes.TimerBooks`: routes to distinct unknown destinations crash a node exactly if there are more than 100 |
| `Capacity.NamesConverge` | src/nreq_responder.c:44-100 | convergence without assuming that nobody crashes, for at most 100 destinations, no route removal, and no loss along the routes to dst |
| `Crashes.CrashesExactly` | src/route_watcher.c:189-194 | in every run, with loss and removals, a handler crashes its node exactly if it opens a request (destination neither cached nor pending) while no slot is free |
| `Crashes.CrashedWhen` | src/route_watcher.c:189-194 | a node has crashed exactly if some event of the run opened a request at it while all its slots were busy |
| `Crashes.TimerBooks` | src/namespread.c:110-120 | in every run, requests opened at a node minus timers that fired without restart are its busy slots, and it has crashed exactly if the balance exceeds 100 |
| `Crashes.FewRequestsNoCrash` | src/route_watcher.c:189-194 | a node told of at most 100 routes and requests does not crash, whatever else happens |
| `Crashes.FlappingCrashes` | src/route_watcher.c:74-81 | one route that comes and goes k times leaves k busy slots, and crashes the node exactly if k exceeds 100 |
| `Recovery.RetryTeaches` | src/timer.c:44-68 | one timeout and two deliveries teach a retrying node what its next hop knows and change no other node |
| `Recovery.RunsRecover` | src/timer.c:44-68 | after any run in which the nodes' timeouts for dst find routes, whatever was lost, at most three more events per node make dst known to all of them, if they run and know it or have it pending |
| `Recovery.CachedNameSurvives` | src/route_watcher.c:82-83 | in the run of one exchange and a route removal, for any two nodes, the name stays cached although its route is removed |
| `Messages.ParseNreq` | src/nreq_responder.c:55-57 | a printed request is read back |
| `Messages.ParseNrep` | src/nreq_responder.c:55-85 | a printed reply is read back exactly if neither field contains "NREQ"; otherwise it is taken for a request |
| `Messages.ParseCutName` | src/nreq_responder.c:83-85 | a name with a space is read back only up to it |
| `Messages.ParseKind` | src/nreq_responder.c:44-79 | a text is a request if "NREQ" occurs in it anywhere, and otherwise a reply if "NREP" does |
| `Messages.ParseRequest` | src/nreq_responder.c:55-57 | further spaces before the destination are skipped, and a request may lack one |
| `Messages.PrintedReply` | src/nreq_responder.c:63-65 | a reply is "NREP", the destination and the name, with single spaces |
| `Messages.MessagesFit` | src/common.h:9-12 | messages fit the send and receive buffers with the terminator |
| `TextNetwork.TextMeans` | src/nreq_responder.c:44-85 | what the listener makes of a printed message: itself, or a request if it is a reply that contains "NREQ" |
| `TextNetwork.OtherTextsIgnored` | src/nreq_responder.c:44-79 | a text with neither word does nothing |
| `TextNetwork.MissingFields` | src/nreq_responder.c:55-87 | a request without a destination crashes the node, and a reply without a name does unless the name is known |
| `TextNetwork.TextAgrees` | src/nreq_responder.c:44-85 | if addresses and names are words without "NREQ", the network of texts runs exactly like the network of parsed messages |
| `TextNetwork.MessagesReadBack` | src/nreq_responder.c:54-85 | then every message in flight in any reachable state parses to what was meant |
| `TextNetwork.OnlyOwnerKnows` | src/nreq_responder.c:44-85 | a name that is misread is never known to any node but its owner, in any run of the network of texts |
| `TextConvergence.TextNoRequestForgotten` | src/nreq_responder.c:44-100 | in every run of the network of texts, a request that was not lost is not forgotten unless the reply to it is misread; other names may be misread |
| `TextConvergence.TextConverges` | src/nreq_responder.c:44-100 | in the network of texts with any words as names, running nodes with loop-free routes to dst, none of whose requests along them was lost and none of whose messages is in flight, know dst's true name if and only if its reply contains no "NREQ" (or dst is the only node) |
| `TextNetwork.MisreadName` | src/nreq_responder.c:44-85 | a host name and the exchange that teaches it when parsed but not as text |
| `HostsFiles.HostsFile.GetNameByAddr` | src/namespread.c:75-108 | the line scan is a lookup in the map of the file's lines |
| `HostsFiles.FirstLineWins` | src/namespread.c:75-108 | of several lines for an address the first gives its name |
| `HostsFiles.OnlyLinesCount` | src/namespread.c:75-108 | an address has a name exactly if a line is for it |
| `HostsFiles.HostsFile.CacheName` | src/nreq_responder.c:120-129 | appending a line of address, tab and name inserts the binding if the address is absent, for lines that fit the lookup buffer |
| `HostsFiles.HostsFile.RemoveName` | src/route_watcher.c:90-136 | the file is rewritten without the chunks that start with the address, which leaves exactly the other bindings if all lines are removable |
| `HostsFiles.RemovesLine` | src/route_watcher.c:111-118 | of a line remove_name leaves what it should if and only if its own line fits the 100-byte buffer, or no chunk of another line starts with the address |
| `HostsFiles.OthersInOrder` | src/route_watcher.c:111-118 | the lines of other addresses keep their order |
| `HostsFiles.CopyContent` | src/route_watcher.c:139-159 | the chunked copy reproduces the file |

## Left out

- Handler interleaving: the check-then-act sequences of the three concurrent parts of a process run atomically here.
- Sockets, `popen`, `ip monitor` and `route` text, signals and POSIX timer calls: environment events and parameters.
- `TextConvergence.TextConverges`: addresses and names are words, as tokens and host names are; `Messages.ParseCutName` shows what happens to a name with a space.
- `Messages.MessagesFit`: does not cover the listener's copy of a reply (`src/nreq_responder.c:80-81`), which has no room for the terminator.
- `NameNodes.NameNode.OnNrep`: requires an address and a name without tab and newline whose line in the hosts file is below 100 characters, because the hosts file is read in pieces otherwise.
- The PNR table of `NameNodes.NameNode` is a map to heap lists, not a `HashTable`, whose values must not be references; `HashRuns.NewTableIsMap` is the proof that the table behaves as a map.
- `HostsFiles.HostsFile.CacheName`: requires fields without tab and newline and a line below 512 characters, because longer lines are split by the read buffer.
- `Buckets.HashSize`: numbers are unbounded; the 32-bit loop of the source never ends for sizes above 2^31, its float load test is exact only up to 2^23 entries, and `resized_count` wraps.
- `HashTables.HashTable.Clear`: freeing nodes, keys and data is not modelled, nor are free functions, so returned data is never withheld.
- Changing flags, thresholds or the hash function of a table, case-insensitive keys, uncopied keys, NULL keys and the key size -1.
- `HashRuns.RehashingIsAmortised`: explicit calls of `cfuhash_rehash` are excluded, because a caller can make them arbitrarily often.
- `cfuhash_foreach_remove`: it does not decrement `entries`, so the count is wrong after it; `cfuhash_foreach`, pretty printing and destruction add nothing harder.
- `StringBuffers.StringBuffer.AppendN`: the appended string must not be the buffer itself, and n must not exceed a non-empty string, where the source reads past its end.
- `Capacity.NoCrash`: excludes route removals, with which it is false (`Crashes.FlappingCrashes`); the exact condition is in `Crashes.dfy`.
- `Splitting.SplitUndoesJoin`: a longer separator whose first character occurs in a string is not covered, because the matcher may then overlook it (`Splitting.MatcherOverlooks`).
- `Splitting.SplitUndoesMixedJoin`: the separators have one character; what a list of longer ones does is `Splitting.FirstMatchOf`.
- `cfustring_vsprintf` and its helpers: variable arguments and floating-point formatting.
- `LinkedLists.RemoveByIndex`: n equal to the length is excluded, where the source follows NULL; `remove_last` leaves a dangling head on a list of one and is not modelled.
- Logging, allocation failure, and the Mininet and shell scripts.
