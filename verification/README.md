# Verified model of an OSPFv2 router

A Dafny model of the router in `ospfd/src`: its containers, its route computation, its protocol machines and the
arithmetic of its link-state database, with proofs of what the rest of the program relies on. Objects that the
program updates in place are classes whose methods rewrite the same pointers, fields and counters; what several
routers or a whole run do to each other is a state machine over its steps. `dafny verify dfyconfig.toml` checks
everything.

**Containers.** `avl_shape`, `avl_balance`, `avl_links`, `avl_unlink`, `avl_paths` and `avl` model the threaded AVL
tree: a ghost tree and the sorted list that `sll` threads describe the same items, and adding and removing
keep both, with exact balance factors and ancestors on a stack of 32 slots. `avl_search` is the
iterator that survives changes of the tree. `patricia` is the Patricia tree whose nodes are its own entries, `nhdb` the
database of next hops on it, `priq` the heap of linked nodes, `timer` and `lsalist` the timer queue and the lists of
LSAs.

**Routes.** `mpath`, `rtentry`, `dijkstra_model` and `dijkstra` follow a full calculation from the candidate heap to the
routing table; `prefix` and `routes` are the table's prefix pointers and longest-prefix match, on that AVL tree and its
iterator.

**Protocol.** `flood` is flooding among any number of routers over links that lose, repeat and reorder packets;
`instance`, `exchange` and `exchange_progress` are Database Exchange between two routers; `rxmt` the retransmission
lists and the way of an LSA from `AddLSA` to its removal; `nbrfsm_model`, `nbrfsm` and `nbrfsm_run` the neighbour
machine with its counters and its list of pending adjacencies; `election` the election of a Designated Router.

**Database.** `common` has what several modules share, `aging` the age bins, `refresh` the spread of refreshes,
`fletcher` the checksum, `codec` how LSAs are taken apart and put together again.

## Model

| member | source | states |
|---|---|---|
| `Avl.AVLtree.Add` | ospfd/src/avl.C:131-296 | adding a new item, or replacing the item with its key, keeps search order, exact balance factors, count and thread (`Valid`), and changes the in-order sequence at that key only; an item that is replaced leaves the database |
| `Avl.AVLtree.Remove` | ospfd/src/avl.C:309-524 | removing an item keeps the same invariant and takes exactly that item out of the in-order sequence; an absent key changes nothing; up to 14930350 items the stack never overflows for an item of the tree, and for others it must not, which `FitsExactly` characterises |
| `Avl.AVLtree.Find` | ospfd/src/avl.C:40-62 | returns the item with the key, or null exactly if no item has it |
| `Avl.AVLtree.Previous` | ospfd/src/avl.C:66-100 | returns the last item of the in-order sequence with a smaller key |
| `AvlBalance.RotatedCorrect` | ospfd/src/avl.C:526-628 | each single or double shift of a node out of balance keeps the order, restores every factor below, and shrinks the tree by one exactly when the heavier child was not even |
| `AvlBalance.DepthBound` | ospfd/src/stack.h:7-27 | in a balanced tree of fewer than 14930351 items no item is at a depth at which the 32 slots are exceeded |
| `AvlPaths.FitsExactly` | ospfd/src/avl.C:309-340 | the search of a removal overflows the stack if and only if another item has the key, or more than 32 items are compared on the way; neither can be for an item of a tree with fewer than 14930351 items, nor for an absent key with fewer than 9227464 |
| `AvlPaths.AbsentBound` | ospfd/src/avl.C:309-340 | 9227464 is exactly the number of items below which no search for an absent key overflows: a Fibonacci tree of height 33 with that many items overflows |
| `AvlPaths.PresentBound` | ospfd/src/stack.h:7-27 | 14930351 is exactly the number of items below which no search for a key of the tree overflows |
| `AvlPaths.EqualLoops` | ospfd/src/avl.C:316-330 | the search for an item whose key another item has never ends |
| `AvlSearching.AVLsearch.Seek` | ospfd/src/avl.C:635-653 | goes to the last item up to a key, and to no item for the largest key |
| `AvlSearching.AVLsearch.Next` | ospfd/src/avl.C:660-682 | returns the first item after the one returned last in the tree as it now is, however it has changed meanwhile; only if it has changed and the key returned last is the largest, the first item of the list |
| `AvlSearching.ReturnedIs` | ospfd/src/avl.C:660-682 | that is the least item with a larger key than the one returned last; after the largest key, nothing, but the head of the list if the tree has changed |
| `AvlSearching.WalkIncreases` | ospfd/src/avl.C:660-682 | over any history of calls with any changes between them, up to the first null, the keys returned increase strictly if and only if no call after a change follows the largest key |
| `AvlSearching.WalkIsComplete` | ospfd/src/avl.C:660-682 | in such a history every key that is in the tree throughout is returned, and exactly once if and only if no call after a change follows the largest key |
| `Patricia.PatTree.Find` | ospfd/src/pat.C:40-55 | terminates on the cyclic graph and returns the entry with the key, of whatever length, or null exactly if there is none; only the empty key may find the sentinel |
| `Patricia.PatTree.Add` | ospfd/src/pat.C:71-141 | a new entry joins the tree, which keeps its shape: every entry is the node of one differing bit, and is reached by its own key |
| `Patricia.PatTree.Remove` | ospfd/src/pat.C:149-220 | exactly the entry leaves; its node is rehung on the entry that pointed up to it; an absent entry changes nothing |
| `Patricia.LookupFinds` | ospfd/src/pat.C:40-55 | the search ends at the entry with the key, for every trie ordered by differing bits |
| `Patricia.WayDistinct` | ospfd/src/pat.C:160-215 | the nodes that removal tells apart (grandparents, parent, entry) are different objects exactly where the code relies on it |
| `Patricia.AnyLengths` | ospfd/src/pat.C:93-140 | with keys of different lengths, every entry can still be found after an addition if and only if the bit chosen tells the new key from the one its search ended at |
| `NextHopTable.MPathTable.Create` | ospfd/src/rte.C:206-236 | pads the array with zeros and returns an entry for its next hops; one made before, unchanged, if and only if one was made for a list that differs by zero next hops at the end at most |
| `NextHopTable.OneEntry` | ospfd/src/rte.C:206-236 | two entries are the same object if and only if their next hops differ by zeros at the end at most |
| `PriorityQueue.PriQ.Add` | ospfd/src/priq.C:69-118 | the element joins the queue, which keeps the complete shape, agreeing parent and child pointers and heap order (`Valid`) |
| `PriorityQueue.PriQ.Delete` | ospfd/src/priq.C:128-212 | any element can be taken off, exactly it leaves, and the invariant is kept |
| `PriorityQueue.PriQ.RmHead` | ospfd/src/priq.C:219-229 | takes off an element that no other is less than |
| `PriorityQueue.PriQ.Drain` | ospfd/src/priq.C:219-229 | taking off the head until nothing is left gives every element once, in nondecreasing order |
| `PriorityQueue.LessIsStrictOrder` | ospfd/src/priq.h:42-60 | the four-field comparison is a strict weak order: irreflexive, transitive, and incomparable elements agree in all four |
| `Timers.TimerQ.Start` | ospfd/src/timer.C:49-73 | a timer that is off is queued with the time it is due; a running one is left alone; active timers are exactly the queued ones (`Valid`) |
| `Timers.TimerQ.Stop` | ospfd/src/timer.C:24-31 | the timer is off the queue and inactive, the others keep their times |
| `Timers.TimerQ.TickOne` | ospfd/src/ospf.C:474-492 | fires the earliest timer if any is due; interval timers are queued again one period after the time they were due; if nothing is fired no active timer is due |
| `Timers.TimeAddExact` | ospfd/src/timer.C:195-202 | the time computed is exact as long as the seconds fit 32 bits |
| `Timers.DueExactly` | ospfd/src/ospf.C:474-492 | a timer is due exactly when its time is not later than now |
| `Timers.EarlierFirst` | ospfd/src/timer.C:49-73 | of two timers the queue has the one with the earlier time first |
| `MultiPath.Merge` | ospfd/src/rte.C:70-116 | merges two entries into the sorted union of their next hops, cut to the maximum; a full entry absorbs the other |
| `MultiPath.UnionSorted` | ospfd/src/rte.C:85-112 | the union of sorted entries is sorted and repeats nothing |
| `MultiPath.UnionSet` | ospfd/src/rte.C:85-112 | the union has exactly the next hops of both |
| `MultiPath.NothingLost` | ospfd/src/rte.C:70-116 | a merge has the next hops of both entries if and only if there are at most MAXPATH of them |
| `MultiPath.NoneLost` | ospfd/src/rte.C:70-116 | entries merged one after the other keep all their next hops if and only if there are at most MAXPATH of them |
| `MultiPath.OrderFree` | ospfd/src/rte.C:70-116 | whatever set of next hops: all ways to spread it over entries and to order the merges have the same outcome if and only if there are at most MAXPATH of them |
| `RouteEntries.RunDecides` | ospfd/src/spfcalc.C:226-276 | after any history of runs and other changes, an entry is intra-area after a run exactly if that run offered it next hops at the least cost; it then has that cost, and the set of all next hops offered at it if and only if there are at most MAXPATH of them |
| `RouteEntries.OneArea` | ospfd/src/spfcalc.C:226-276 | a run whose offers come through one area leaves that area, and marks the entry as changed exactly if it was not intra-area before or in another area; without next hops the entry goes |
| `RouteEntries.NothingOffered` | ospfd/src/spfcalc.C:518-532 | an intra-area entry that a run offers nothing becomes unreachable and is marked as changed |
| `RouteEntries.MarkerIsLatest` | ospfd/src/spfcalc.C:518-532 | the one-bit run marker is enough: after any history every intra-area entry carries the bit of the latest run |
| `ShortestPaths.ShortestFound` | ospfd/src/spfcalc.C:109-204 | the nodes taken off are exactly the reachable ones, each once, in nondecreasing cost, which is the length of a shortest path |
| `ShortestPaths.ParentsMerged` | ospfd/src/spfcalc.C:176-201 | the next hops merged into a node are those over exactly the last steps of its shortest paths that come from nodes taken off before it |
| `ShortestPaths.AllParentsMerged` | ospfd/src/spfcalc.C:176-201 | if routers' links cost at least one, these are all last steps of its shortest paths, thanks to networks going first |
| `ShortestPaths.FinalWhenTaken` | ospfd/src/spfcalc.C:428-458 | at the moment a node is taken off its distance and next hops are final; it has every next hop over those last steps if and only if some set of at most MAXPATH next hops has them all |
| `ShortestPaths.ParentTooLate` | ospfd/src/rtrlsa.C:473-490 | a finished search over three nodes in which a router's link of cost zero, the last step of a shortest path, is never merged |
| `Dijkstra.Spf.ScanTransit` | ospfd/src/spfcalc.C:166-201 | one link scanned with the heap and the nodes' fields does to the search state what relaxing that link does |
| `Dijkstra.Spf.SettleNext` | ospfd/src/spfcalc.C:138-146 | the heap's head is the node that comes first among all candidates; when there is none the search is done |
| `Dijkstra.Spf.FullCalculation` | ospfd/src/spfcalc.C:61-204 | the program's loop ends with a finished search, held by the fields of the nodes, without overflow of the 32-bit cost, and every table entry is what the offers of this run and the scan afterwards make of it |
| `Dijkstra.Spf.LeastRoute` | ospfd/src/spfcalc.C:226-276 | an entry made intra-area has the least cost over all nodes and stub links on shortest paths; without any such route it is not intra-area |
| `Dijkstra.Spf.LeastRouteEver` | ospfd/src/spfcalc.C:226-276 | the same after any history of earlier runs and other changes of the entry |
| `Dijkstra.Spf.RouteHopsEver` | ospfd/src/spfcalc.C:226-276 | its next hops are offered by nodes and stub links over shortest paths at its cost, and are all of those if and only if some set of at most MAXPATH next hops has them all |
| `Prefixes.AndBits` | ospfd/src/rte.h:217-219 | rounding down is what masking does, bit by bit |
| `Prefixes.Nested` | ospfd/src/rte.h:233-236 | two prefixes that enclose a third are nested |
| `Routes.INtbl.Add` | ospfd/src/rte.C:287-318 | adding a prefix to the table, an AVL tree walked with its iterator, leaves every entry pointing to its nearest strictly less specific entry, if and only if the first entry ever is not 255.255.255.255/32, which then points to itself |
| `Routes.INtbl.SetChildren` | ospfd/src/rte.C:305-317 | the loop over the iterator repoints exactly the entries that the new one is now nearest to; for 255.255.255.255/32 alone in the table it meets the new entry itself |
| `Routes.AnyOrder` | ospfd/src/rte.C:287-318 | the pointers do not depend on the order in which the prefixes were added |
| `Routes.INtbl.BestMatch` | ospfd/src/rte.C:324-357 | the descent of the tree's own nodes and the walk over prefix pointers return a valid entry containing the address with the longest mask, and null exactly if no valid entry contains it |
| `Instances.CmpInstanceSwaps` | ospfd/src/spflood.C:571-602 | comparing two instances the other way round gives the opposite answer |
| `Instances.WhichWins` | ospfd/src/spflood.C:571-602 | the received instance wins exactly if its sequence number and checksum do, or these are equal and its age wins: MaxAge over any younger, else the one more than MaxAgeDiff younger; the database copy wins likewise |
| `Instances.OrderDecides` | ospfd/src/spflood.C:571-602 | sequence number and checksum decide the comparison exactly when the ages are both MaxAge, or neither is and they are at most MaxAgeDiff apart |
| `Flooding.EveryRun` | ospfd/src/spflood.C:104-156 | whatever is lost, repeated or reordered, and whenever either side begins or ends an exchange, databases only become more recent, and while two routers are in the same exchange each one's copy is with the other, or listed for retransmission, description or request |
| `Flooding.FullNeighbours` | ospfd/src/spflood.C:219-231 | for Full neighbours, one has a copy at least as recent as the other's, or the other lists it for retransmission |
| `Flooding.QuietMeansEqual` | ospfd/src/spfack.C:39-73 | when all retransmission lists are empty, routers connected over Full adjacencies have equal databases |
| `Flooding.RoundTripClears` | ospfd/src/spfack.C:39-73 | a retransmission and its answer, both received, clear the list entry, and the neighbour then has an instance at least as recent, unless both list the same instance for each other |
| `Flooding.CrossingClears` | ospfd/src/spflood.C:137-141 | when both list the same instance for each other, each one's copy clears the other's entry, and no acknowledgment is sent |
| `Flooding.DuplicateSettles` | ospfd/src/spflood.C:137-141 | a copy of what the receiver has takes the entry off its list if there is one, and is acknowledged otherwise; nothing else changes |
| `Flooding.TakenAndListed` | ospfd/src/spflood.C:110-132 | a more recent instance is installed, listed for exactly the other neighbours in an exchange that are not known to have it, and satisfies exactly the requests it is recent enough for |
| `Flooding.Outbid` | ospfd/src/spflood.C:123-126 | for an instance of its own a router may do instead what it does when it originates one that is more recent still |
| `Flooding.BothEnter` | ospfd/src/spfdd.C:60-87 | once the slave has answered the master's offer both are in the same exchange, with their whole databases to describe |
| `Flooding.DescribedOnce` | ospfd/src/spfdd.C:158-188 | a key described is requested exactly if the other side has nothing as recent |
| `Flooding.RequestMet` | ospfd/src/spflood.C:110-132 | the answer to a request satisfies it |
| `DatabaseExchange.ExchangeIsComplete` | ospfd/src/spfdd.C:66-149 | in every run without a restart: a side that has fired ExchangeDone has processed exactly the headers the other described, in order, and only entries replaced or moved to retransmission were not described; a Full side has each of them or a more recent one |
| `DatabaseExchange.RequestsAreMissing` | ospfd/src/spfdd.C:158-188 | in every run without a restart: a side requests exactly what the other has described and it lacks, each key once; after ExchangeDone it is Full exactly if it has everything the other described, or something more recent |
| `ExchangeProgress.FinishesExactly` | ospfd/src/spfdd.C:20-149 | some course of events makes both sides Full if and only if the slave's last answer is on its way, or can still be given: it is hopeless only when that is lost and the master is in ExStart or the slave has freed it |
| `ExchangeProgress.EveryStateFinishes` | ospfd/src/spfdd.C:20-149 | so it is in every state of every run from any two databases and sequence numbers |
| `DatabaseExchange.EveryRun` | ospfd/src/spfdd.C:20-149 | master and slave stay in step in every run of deliveries, losses, repetitions, timeouts, new LSAs and aging |
| `DatabaseExchange.StartOk` | ospfd/src/spfdd.C:223-232 | two routers that have just begun the adjacency, with whatever databases and sequence numbers, are in such a state |
| `DatabaseExchange.RestartsExactly` | ospfd/src/spfdd.C:66-110 | a step restarts the adjacency if and only if it delivers a copy of the other side's first packet to a side beyond ExStart, or the master's last packet to a Full slave that has freed its answer |
| `DatabaseExchange.RunRestarts` | ospfd/src/spfdd.C:66-110 | a run restarts the adjacency if and only if some step of it delivers such a packet |
| `DatabaseExchange.FirstReplyLost` | ospfd/src/spfdd.C:60-87 | once the slave's first answer is lost, every continuation leaves the master in ExStart or restarts |
| `DatabaseExchange.SpfNbr.RecvDD` | ospfd/src/spfdd.C:20-149 | what receiving a packet, processing its headers and sending the next one do to the fields of the neighbour; after a packet a header is requested exactly if it was before, or is in the packet and the database has nothing as recent |
| `DatabaseExchange.SpfNbr.FillPacket` | ospfd/src/spfdd.C:223-262 | the loop that drains the summary list into a packet of limited room |
| `DatabaseExchange.FillExactly` | ospfd/src/spfdd.C:236-262 | of the entries taken off the list, the packet holds exactly those in the database and younger than MaxAge, the retransmission lists exactly those of age MaxAge; what is left did not fit |
| `Retransmission.EveryRun` | ospfd/src/spfack.C:80-289 | in every reachable state the count is the size of the three lists, no LSA is on the lists of a neighbour twice, those for description included, the timer runs while anything is listed, and the counter of every LSA in the database is the number of neighbours that list it |
| `Retransmission.EnteredExactly` | ospfd/src/lsdb.C:135-207 | a new instance has an object of its own if the database copy is on any list, takes its place in the database, and is listed for exactly the neighbours flooded to |
| `Retransmission.FreedExactly` | ospfd/src/dbage.C:334-360 | an LSA is removed from the database exactly at age MaxAge, when no list holds it and no neighbour is in Exchange or Loading, or in overflow state if it is AS-external |
| `Retransmission.CounterIsRight` | ospfd/src/spflood.C:657-668 | the counter that decides this is the one the neighbour machine keeps: in each of its states it is the number of such neighbours |
| `Retransmission.AckedOk` | ospfd/src/spfack.C:128-147 | an acknowledged LSA is on none of the lists and every other valid LSA stays |
| `Retransmission.FiredOk` | ospfd/src/spfack.C:178-200 | when the timer runs out no valid LSA is lost from the lists, and the timer runs again |
| `Retransmission.FiredSends` | ospfd/src/spfack.C:178-200 | when the timer runs out and a valid LSA was sent in vain or need not wait any longer, one packet goes out |
| `Retransmission.UpdatesSends` | ospfd/src/spfack.C:248-289 | valid LSAs go out in at most as many packets as the window has; if in fewer, nothing is left of those that failed, and the first of the others has to wait; if anything may be sent, something is |
| `Retransmission.AckedSends` | ospfd/src/spfack.C:155-168 | the last acknowledgment awaited doubles the window, up to the maximum, and the next LSAs go out |
| `Retransmission.PickExactly` | ospfd/src/spfack.C:209-240 | the next LSA is the first valid one not yet retransmitted if that need not wait, else the first valid one whose retransmission failed |
| `Retransmission.Neighbour.GetNextRxmt` | ospfd/src/spfack.C:209-240 | terminates; the next LSA is the head of the list named, after the invalid ones before it have gone |
| `Retransmission.Neighbour.RxmtUpdates` | ospfd/src/spfack.C:248-289 | one packet of retransmissions moves what it sends to the list of those just sent |
| `Retransmission.Neighbour.RemoveFromRxlist` | ospfd/src/spfack.C:128-147 | finds the LSA on whichever list it is, opens the window, and lowers its counter by one exactly if it was listed |
| `LsaLists.LsaList.Append` | ospfd/src/lsalist.C:80-98 | the entries of the other list follow, which is then empty |
| `LsaLists.LsaList.GarbageCollect` | ospfd/src/lsalist.C:103-133 | exactly the entries of invalid LSAs leave, in place, and are counted |
| `LsaLists.LsaList.Remove` | ospfd/src/lsalist.C:139-165 | the first entry of an LSA leaves, and is reported |
| `LsaLists.LsaListIterator.RemoveCurrent` | ospfd/src/lsalist.h:161-175 | takes out the entry last returned and keeps its place in the walk |
| `NeighbourMachine.TableResponse` | ospfd/src/nbrfsm.C:16-40 | what the first matching row of the table says for every state and event, in closed form |
| `NeighbourProgram.RunFsm` | ospfd/src/spfutil.C:23-43 | the linear search finds the first row that matches |
| `Adjacencies.EveryRun` | ospfd/src/nbrfsm.C:119-246 | in every state of every run `n_dbx_nbrs` counts the neighbours in Exchange or Loading, `n_lcl_inits` and `n_rmt_inits` partition those in ExStart to Loading and stay within `max_dds`, `if_nfull` counts the Full neighbours of its interface, and the pending list holds each neighbour at most once, in 2-Way |
| `Adjacencies.FireKeeps` | ospfd/src/nbrfsm.C:119-246 | one event at one neighbour keeps all of these accounts |
| `Adjacencies.EventTakes` | ospfd/src/nbrfsm.C:273-384 | where each event takes a neighbour: who becomes Full, Loading, Exchange, ExStart and 2-Way, if and only if, and who is pending afterwards, in which order; no other neighbour changes |
| `Adjacencies.StartFirstKeeps` | ospfd/src/nbrfsm.C:273-292 | evaluating the first pending neighbour takes it off the list for good, and starts it if the adjacency is still wanted |
| `Adjacencies.NoneExchanging` | ospfd/src/spflood.C:657-668 | the counter is zero exactly if no neighbour is in Exchange or Loading |
| `NeighbourProgram.Ospf.NbrFsm` | ospfd/src/nbrfsm.C:119-246 | the program, with its counters and the list linked through the neighbours, does to the fields what an event does to the values |
| `NeighbourProgram.Ospf.AddPendAdj` | ospfd/src/nbrfsm.C:543-557 | appends the neighbour to the linked list unless it is on it |
| `NeighbourProgram.Ospf.DelPendAdj` | ospfd/src/nbrfsm.C:563-585 | unlinks the neighbour wherever it is |
| `NeighbourProgram.Ospf.StartPending` | ospfd/src/dbage.C:95-101 | the loop of the aging timer ends, with no adjacency pending or the limit reached; those begun were first on the list |
| `NeighbourProgram.Ospf.NlRawOrig` | ospfd/src/netlsa.C:51-88 | the body of the network-LSA, whose size comes from `if_nfull`, is filled exactly with this router and its Full neighbours |
| `Election.SpfIfc.Elect` | ospfd/src/ifcfsm.C:223-346 | the loops over the neighbour list, in whatever order, elect the greatest candidates by declaration, priority and Router ID, in one pass or two |
| `Election.BackupOutranks` | ospfd/src/ifcfsm.C:234-285 | the Backup precedes every other router that may serve and does not claim to be Designated Router, by its claim, priority and Router ID |
| `Election.OwnBackup` | ospfd/src/ifcfsm.C:234-285 | this router becomes Backup exactly if it competes and precedes all of them |
| `Election.ClaimantOutranks` | ospfd/src/ifcfsm.C:292-322 | the Designated Router precedes every other claimant, by priority and Router ID |
| `Election.Promoted` | ospfd/src/ifcfsm.C:292-328 | without a claimant the Backup is promoted |
| `Election.NeverBoth` | ospfd/src/ifcfsm.C:234-346 | a router never ends as both Designated Router and Backup |
| `Election.FixedPoint` | ospfd/src/ifcfsm.C:300-346 | the outcome is a fixed point: a third pass would change nothing |
| `Election.Idempotent` | ospfd/src/ifcfsm.C:223-346 | electing again with the same neighbours changes nothing |
| `Election.Incumbents` | ospfd/src/ifcfsm.C:234-346 | routers that claim the roles keep them whatever the priorities of others, so all routers on the segment agree |
| `Election.SomeoneServes` | ospfd/src/ifcfsm.C:234-346 | nobody is elected exactly if nobody is eligible |
| `Aging.Ager.Dbage` | ospfd/src/dbage.C:140-154 | rotating the bins and flushing one of them makes every aging LSA a second older, and flushes exactly those that reach MaxAge |
| `Aging.FlushedExactly` | ospfd/src/dbage.C:140-154 | whatever other LSAs are filed or taken out meanwhile, an LSA is flushed exactly MaxAge minus its age at the start ticks later, and ages by one each tick until then |
| `Aging.Ager.StartAging` | ospfd/src/dbage.C:30-55 | files an LSA in the bin of its received age; one at MaxAge goes to the list of those to be flushed; the ages of all others stay |
| `Aging.Ager.StopAging` | ospfd/src/dbage.C:60-76 | unlinks the LSA from wherever in its bin it is; the ages of all others stay |
| `Aging.Ager.MaxageLsas` | ospfd/src/dbage.C:276-297 | flushes what has reached MaxAge, and no other LSA, while each flush unlinks its LSA from the list being walked |
| `Refreshing.RefreshedInTime` | ospfd/src/dbage.C:434-485 | whatever is queued is refreshed within MaxAgeDiff seconds, in order, and so before MaxAge |
| `Refreshing.FirstInFirstOut` | ospfd/src/dbage.C:434-485 | nothing queued is lost, repeated or overtaken |
| `Refreshing.RunKeeps` | ospfd/src/dbage.C:434-485 | in every run the counters of the slots add up to the length of the queue, for any random slots |
| `Refreshing.Refresher.DoRefreshes` | ospfd/src/dbage.C:459-485 | the LSAs whose slot it is are taken off the head of the queue |
| `Fletcher.GenerateCksum` | ospfd/src/cksum.C:87-98 | the checksum generated verifies, and only its two bytes are written |
| `Fletcher.VerifyCksum` | ospfd/src/cksum.C:73-82 | answers whether both sums over the LSA without its age vanish modulo 255, and leaves the LSA as it was |
| `Fletcher.Accumulate` | ospfd/src/cksum.C:27-42 | the sums in blocks equal the unblocked sums modulo 255, and no value leaves the 32-bit integers |
| `Fletcher.LargestBlock` | ospfd/src/machdep.h:22-23 | 4102 is exactly the largest size of a block for which the second sum fits a signed 32-bit integer |
| `Fletcher.OneByte` | ospfd/src/cksum.C:14-68 | a changed byte goes undetected if and only if the new value is congruent to the old one modulo 255 |
| `Fletcher.Exchange` | ospfd/src/cksum.C:14-68 | two exchanged bytes go undetected if and only if their distance times their difference is a multiple of 255 |
| `Fletcher.AgeIsFree` | ospfd/src/spflood.C:483-493 | a change of the age does not affect the checksum |
| `LsaCodec.Lsa.Update` | ospfd/src/lsdb.C:135-207 | an LSA taken up, replacing or refreshing an older instance in place, or in a new object if that is referenced, keeps what is needed to reproduce it; a referenced one still holds what it held |
| `LsaCodec.Lsa.ParseLsa` | ospfd/src/lsdb.C:331-364 | an LSA is taken apart exactly if it is not of age MaxAge, and kept as received exactly if it is, or its body is not regular; either way it can be reproduced, and a regular body leaves links, IDs, mask and metric as they are in memory |
| `LsaCodec.RouterOddExactly` | ospfd/src/rtrlsa.C:439-528 | a router-LSA is regular exactly if a zero follows its type, no link has TOS metrics and nothing is missing or left over |
| `LsaCodec.LinksAt` | ospfd/src/rtrlsa.C:460-515 | its links are then as many as it says, each at its place |
| `LsaCodec.Lsa.CmpContents` | ospfd/src/spflood.C:614-645 | it reports no change if and only if options, length and body are the same and both or neither are of age MaxAge |
| `LsaCodec.Lsa.BuildLsa` | ospfd/src/lsa.C:181-205 | reproduces header and body byte for byte as received, but for the age |
| `LsaCodec.RouterRebuilt` | ospfd/src/rtrlsa.C:439-528 | the links of a router-LSA that parses without exception (nothing set to zero on rebuilding, nothing left over) rebuild its body |
| `LsaCodec.NetRebuilt` | ospfd/src/netlsa.C:123-185 | the mask and routers of a network-LSA rebuild its body |
| `LsaCodec.SummRebuilt` | ospfd/src/summlsa.C:239-262 | mask and metric of a summary-LSA rebuild its body |
| `LsaCodec.CheckAges` | ospfd/src/dbage.C:229-243 | an LSA that had a good checksum when it was accepted passes the check of the database at any age |

## Findings

Properties the code does not have, each with the exact condition under which it does.

- `AVLtree::remove` with an absent key stacks one ancestor more than with a key of the tree: a tree of 9227464 items
  can overflow the 32 slots (`AvlPaths.AbsentOverflow`), no smaller one can (`AvlPaths.AbsentBound`). With an item
  outside the tree whose key is present the search does not end (`AvlPaths.EqualLoops`); `AvlPaths.FitsExactly` gives
  the condition for both.
- `AVLsearch::next` after the largest key and a change begins anew at the head. The keys it returns increase, and each
  is returned once, if and only if this does not happen (`AvlSearching.WalkIncreases`, `AvlSearching.WalkIsComplete`).
  It happens to 255.255.255.255/32 as the very first entry of a routing table, which becomes its own prefix
  (`Routes.INtbl.Add`); the router avoids it by entering the default route first (`ospfd/src/ospf.C:110`).
- `PatTree::add` compares the bits of the new key only. A key that is the beginning of a stored one can hide it
  (`Patricia.PrefixHides`); `Patricia.AnyLengths` has the condition. The router's only tree has keys of one length.
- `MPath::create` finds entries by their padded arrays, so lists that differ by zero next hops at the end share an entry
  (`NextHopTable.OneEntry`).
- Database Exchange does not survive a repeated first packet, nor the loss of the slave's first answer, nor that of its
  last one after it has been freed: `DatabaseExchange.RestartsExactly`, `DatabaseExchange.RunRestarts`,
  `DatabaseExchange.FirstReplyLost`. `ExchangeProgress.FinishesExactly` says exactly when it can still be finished.
- Doubling a retransmission window of 32768, which the configuration allows, closes it (`Retransmission.WindowCloses`);
  nothing is then sent until the timer runs out.
- `cmp_instance` is not transitive where ages decide (`Instances.SameInstanceIsNotTransitive`);
  `Instances.OrderDecides` says when they do not.
- `MPath::merge` drops next hops when there are more than MAXPATH, and which ones depends on the order of merging. Any
  set of more than MAXPATH has two orders with different outcomes (`MultiPath.TwoOrders`), and no smaller set has
  (`MultiPath.OrderFree`); a merge loses something exactly if the next hops do not fit (`MultiPath.NothingLost`,
  `MultiPath.NoneLost`, `ShortestPaths.FinalWhenTaken`).
- Dijkstra does not merge an equal-cost parent that is taken off after its child, which a link of cost zero can bring
  about (`ShortestPaths.ParentTooLate`). It merges a parent on a shortest path exactly if that was taken off before
  (`ShortestPaths.ParentsMerged`), and all of them if routers' links cost at least one
  (`ShortestPaths.AllParentsMerged`); shortest distances do not depend on it (`ShortestPaths.ShortestFound`).

## Left out

- Virtual links, opaque, AS-external and NSSA LSAs, hitless restart, helper mode, host mode, MD5, IGMP, monitoring, logging, sockets and kernel routes.
- Packet buffers, MTU and byte order: a packet is a value, and how many headers or LSAs fit one is a parameter.
- Freeing of memory; reference counts are the membership of lists (`Retransmission`), or a parameter (`LsaCodec.Lsa.Update`).
- `run_inter_area` and `update_brs`: of `rt_scan` only the part for intra-area entries is modelled.
- `MPath::addgw` and the choice of a gateway: the next hops over a link of the root are a parameter.
- `TNode::tlp_link` and `unlink`: the links Dijkstra scans are given with their `tl_nbr`.
- `adjust_hello_interval` and the timers the neighbour machine starts and stops; an `adjacency_wanted` that changes is the step Rescan of `Adjacencies`.
- Origination from within an action of a state machine: every event is one atomic step.
- Flooding.EveryRun: the headers of one exchange reach the other side in order and once, which `DatabaseExchange` proves, and a slave does not answer a first packet that its master has already moved on from; flushing by MaxAge is not part of the flooding model.
- DatabaseExchange.ExchangeIsComplete: begins with both sides in ExStart; options are the same in all packets, and packet sequence numbers wrap as in the program.
- Retransmission.EveryRun: a neighbour's lists are sequences there; `LsaLists` shows how they are linked.
- Patricia.PatTree.Add: keys of one length, as the database of next hops has them; `Patricia.AnyLengths` says what becomes of others.
- Patricia.PatTree.Remove: keys of one length, for the same reason.
- NextHopTable.MPathTable.Create: the next hops of an entry are kept in a map beside it, and pruning by interface is not modelled.
- Prefixes.AndBits: a mask is contiguous, and is given by the number of its zero bits.
- AvlSearching.AVLsearch.Next: assumes fewer than 2^32 changes between two calls, after which the count of changes repeats.
- Randomised timer periods: the period a timer is started with is what the drawing of random numbers has made of it.
- Timers.TimerQ.TickOne: the element of the queue and its timer are linked by a map instead of a cast, and the two kinds of timer by a flag.
- LsaCodec.Lsa.Update: LSAs whose length field is below 20, the size of their header, are not modelled; what lies in memory after an LSA may be anything.
- Aging.Ager.StartAging: reoriginating an LSA with age MaxAge is done in place.
