# A verified model of the SS P2P node controller

This project models, in Dafny, the parts of the node controller whose correctness is hardest to see from one
function at a time, and proves what they keep over every input, run and interleaving:

- **Routing table** (`NodeIds`, `Nodes`, `Buckets`, `Tables`, `Recency`, `SearchOrder`, `Collecting`, `Nearness`,
  `SearchRecency`, `SearchExamples`, `RoutingTables`, `Controllers`): 160 buckets of at most 4 nodes, filed by common
  prefix with the table's own id, and the search that widens from the root's bucket to both sides.
- **Connection maintenance** (`Refresh`, `RefreshRound`, `RefreshOrder`): a round of pings over the whole table, with
  pongs, timer completions, posted callbacks and new arrivals in any order.
- **Signaling** (`Signaling`, `Flood`, `FloodSpread`, `FloodEnds`): the relay every node runs, and the flood of one
  request through nodes whose tables may differ from step to step, with loss and reordering.
- **Binding** (`Binding`, `StunServers`): the vote on the node's global endpoint and the object that holds the result.
- **Message pool** (`MessageBuffers`, `MessagePools`): queues by peer and their expiry.

The source's objects are classes whose methods update their fields; each method is proved against a function of the old
state, and the theorems are lemmas about those functions over whole runs. A run is a sequence of events; `Possible`
says each was enabled when it happened and `After` is the state it leads to. Timers, posted callbacks and the network
are events that may come in any order the source allows. Endpoint-to-id hashing is an arbitrary fixed function (`IdOf`).

## What the code does that one might not expect

Each of these is proved, with its exact condition where it is one.

- Bits are counted least significant first inside a byte, so the metric is a prefix metric in that order; the
  documentation describes the xor metric.
- The bucket getters push before they test the limit, so `collect_node` can return one node more than asked: exactly
  when some round's upper half fills the result and its lower half has a node to push, or when none was asked for and
  the root's bucket has one. Two arrivals are enough to make it happen.
- Branch 0 shares slot 0 with branch 1: a search for the table's own id returns some id twice exactly when slot 0
  offers something but less than was asked for.
- A search is not always nearest-first: it is exactly when it does not both begin a round with something above the
  root's branch and leave out something below it, and what the root's own bucket keeps back is no nearer than what it
  gives. Again two arrivals are enough for a farther node to be returned instead of a nearer one.
- Within a bucket a search prefers the node touched last; across buckets it visits the lower of two equally distant
  branches first, so what is returned, unless some id is returned twice, stands in that order.
- The TTL is read and never lowered, and relay observers carry ids no message bears, so neither stops a flood; it ends
  because every flooding adds an endpoint to the relay list and the collected targets are never on it. While the
  source's request observer is stored it always ends. Once the observer has expired, what reaches the source goes to the
  source's own server: then the flood ends if and only if nothing is in flight or the source neither is the destination
  nor holds it in its table; otherwise the request may go round for ever.
- A comment asks for a third of the answers, the code for two fifths of the list, repeats included, while a node
  listed twice answers once: the endpoint can be found if and only if the distinct nodes are two fifths of the list.
- The cancelled timer's callback runs the vote again and can turn a `done` result back to not found: exactly when, at
  that moment, fewer non-loopback answers stand than the vote needs. Without loopback reports it cannot happen.
- `update_state(pending)` stores not found, so no reader ever sees `pending`.
- A handler registered after the last conclusive step is never called, and a later reply may change the result after
  the handler was given an earlier one: it cannot exactly when it leaves too few public answers for a vote or none but
  the present endpoint can win it.
- An expired queue is emptied by dropping a prefix, which is right if and only if nothing that expired stands behind
  something that did not; a clock that never goes back gives that.
- `pop_since` never dequeues, and the hub's handler is given a message that stays stored.

## Model

| member | source | states |
|---|---|---|
| NodeIds.CalcNodeXorDistance | src/ss_p2p/kademlia/node_id.cpp:72-84 | the two loops compute the length of the longest common prefix in the source's bit order |
| NodeIds.PrefixLengthIsLongest | src/ss_p2p/kademlia/node_id.cpp:78-83 | a number is the count of leading equal bits if and only if it is the longest common prefix |
| NodeIds.FlippedBit | src/ss_p2p/kademlia/node_id.cpp:79-82 | ids that differ in bit j of byte q alone are at distance 160 - 8q - j: bytes in order, least significant bit first |
| NodeIds.PrefixFullIffEqual | src/ss_p2p/kademlia/node_id.cpp:72-84 | the prefix is 160, and the distance 0, exactly for equal ids |
| NodeIds.PrefixSymmetric | src/ss_p2p/kademlia/node_id.cpp:72-84 | prefix and distance are symmetric |
| NodeIds.Ultrametric | src/ss_p2p/kademlia/node_id.cpp:72-84 | the strong triangle inequality, an equality whenever the two sides differ |
| NodeIds.SameBranchCloser | src/ss_p2p/kademlia/k_routing_table.cpp:17-23 | two ids in one branch of a third are strictly closer to each other than to it |
| NodeIds.BallSize | src/ss_p2p/kademlia/node_id.cpp:72-84 | ids pairwise sharing all but n leading bits number at most 2^n |
| NodeIds.BranchSize | src/ss_p2p/kademlia/k_routing_table.cpp:17-23 | a branch b >= 1 holds at most 2^(b-1) ids |
| Nodes.ContainsIff | src/ss_p2p/kademlia/k_node.cpp:49-52 | the scan finds a node exactly when some entry has its id |
| Buckets.MoveToBackPermutes | src/ss_p2p/kademlia/k_bucket.cpp:86-97 | moving to the back keeps the same entries, once each, and puts the node last |
| Buckets.WithoutRemoves | src/ss_p2p/kademlia/k_bucket.cpp:99-105 | deleting removes that id and nothing else |
| Buckets.KeptMembers | src/ss_p2p/kademlia/k_bucket.cpp:44-46 | an entry passes the ignore list exactly if it is stored and no ignored node has its id |
| Buckets.KBucket.AddBack | src/ss_p2p/kademlia/k_bucket.cpp:77-84 | appends unless full or present |
| Buckets.KBucket.MoveBack | src/ss_p2p/kademlia/k_bucket.cpp:86-97 | the stored entry, not the argument, goes to the back; nothing happens for a stranger |
| Buckets.KBucket.DeleteNode | src/ss_p2p/kademlia/k_bucket.cpp:99-105 | the first entry with the id goes, if there is one |
| Buckets.KBucket.AutoUpdate | src/ss_p2p/kademlia/k_bucket.cpp:17-37 | moved back, refused for lack of room, or appended, with the matching state |
| Buckets.KBucket.GetNodeFront | src/ss_p2p/kademlia/k_bucket.cpp:39-52 | the oldest kept entries up to the limit, but one at least if any is kept |
| Buckets.KBucket.GetNodeBack | src/ss_p2p/kademlia/k_bucket.cpp:54-67 | the most recent kept entries, latest first, up to the limit, but one at least if any is kept |
| Tables.BucketMembership | src/ss_p2p/kademlia/k_bucket.cpp:17-37 | exactly which ids a bucket holds after any operation: a node leaves only by its own timeout, and a full bucket gains nothing |
| Tables.RunKeepsGood | src/ss_p2p/kademlia/k_routing_table.cpp:31-54 | every run keeps capacity 4, distinct ids and each node in the slot of its branch |
| Tables.RecencyOrder | src/ss_p2p/kademlia/k_bucket.cpp:17-37 | over every run a bucket's order is the order of last touch |
| Tables.StoredWasTouched | src/ss_p2p/kademlia/k_bucket.cpp:77-97 | from an empty table every stored node was touched, so that order is strict |
| Recency.BackIsMostRecent | src/ss_p2p/kademlia/k_bucket.cpp:54-67 | over every run what the back getter returns comes latest touch first, and a node that would have qualified but was left out was touched no later than any returned |
| Recency.FrontIsOldest | src/ss_p2p/kademlia/k_bucket.cpp:39-52 | over every run what the front getter returns comes earliest touch first, and a node left out was touched no earlier than any returned |
| Tables.SurvivorsOfRun | src/ss_p2p/kademlia/connection_maintainer.cpp:81-96 | under pongs and timeouts alone a bucket keeps exactly the nodes that did not time out |
| Tables.OneBucketLookup | src/ss_p2p/kademlia/k_routing_table.cpp:69-73 | looking in the one bucket agrees with membership in the whole table |
| Tables.NodeCountIsIdCount | src/ss_p2p/kademlia/k_routing_table.cpp:127-134 | the sum of bucket sizes is the number of distinct ids |
| Tables.AllNodesDistinct | src/ss_p2p/kademlia/k_routing_table.cpp:121-134 | no id is stored in two buckets |
| Tables.BucketRoom | src/ss_p2p/kademlia/k_routing_table.cpp:121-125 | slot s can hold at most 2^s ids besides the table's own |
| Tables.NoOverflowNearSelf | src/ss_p2p/kademlia/k_routing_table.cpp:31-54 | the three slots nearest the own id never turn a node away |
| Tables.FirstFourStay | src/ss_p2p/kademlia/k_bucket.cpp:17-37 | of the distinct nodes that arrive in one slot of an empty table the first four stay, in order; the fifth and every later one overflows and changes nothing |
| SearchOrder.CollectShape | src/ss_p2p/kademlia/k_routing_table.cpp:75-119 | the result is a prefix of the search order r, r-1, r+1, ... of the asked length or all of it, plus at most one entry; whole rounds before the last are taken, nothing after it |
| SearchOrder.CollectReaches | src/ss_p2p/kademlia/k_routing_table.cpp:92-116 | while too little is found the search goes on round by round |
| SearchOrder.BothSidesDone | src/ss_p2p/kademlia/k_routing_table.cpp:92-116 | stopping on the two flags loses nothing the remaining rounds would add |
| SearchOrder.LeftOutBeyond | src/ss_p2p/kademlia/k_routing_table.cpp:92-116 | what was left out lies in the last round or beyond |
| SearchOrder.SurplusExactly | src/ss_p2p/kademlia/k_routing_table.cpp:92-116 | over whatever the branches offer: at most one entry more than asked for, and exactly when a round's upper half fills the result and its lower half has something, or nothing was asked for and the root's branch has something |
| Collecting.CollectSound | src/ss_p2p/kademlia/k_routing_table.cpp:75-119 | for every table and root: the nodes returned are stored and not ignored, at most max + 1 of them, and that many exactly in those cases |
| Collecting.CollectComplete | src/ss_p2p/kademlia/k_routing_table.cpp:75-119 | for every table and root: a result shorter than asked contains every stored node that is not ignored |
| Collecting.CollectCount | src/ss_p2p/kademlia/k_routing_table.cpp:75-119 | for a root other than the own id: distinct ids, exactly min(max, eligible) of them or one more in case of a surplus |
| Collecting.CollectAtLeast | src/ss_p2p/kademlia/k_routing_table.cpp:75-119 | for every table and root, well placed or not: no fewer nodes than asked for while there are eligible ids |
| SearchExamples.OneTooMany | src/ss_p2p/kademlia/k_routing_table.cpp:94-112 | for every own id, a table reached by two arrivals from which a search for one node returns both |
| Collecting.CollectRepeatsExactlyWhen | src/ss_p2p/kademlia/k_routing_table.cpp:81-112 | exactly when some id is returned twice: the root is the own id and slot 0 offers something but less than asked |
| SearchExamples.SameNodeTwice | src/ss_p2p/kademlia/k_routing_table.cpp:142-145 | for every own id, a table reached by one arrival from which a search for two nodes returns the same node twice |
| Collecting.RingDistinct | src/ss_p2p/kademlia/k_routing_table.cpp:92-116 | no bucket is visited twice |
| Nearness.DistanceByBranch | src/ss_p2p/kademlia/k_routing_table.cpp:17-23 | below the root's branch r nodes are at exactly r, above at exactly their branch, in it strictly nearer than r |
| Nearness.DistanceBySlot | src/ss_p2p/kademlia/k_routing_table.cpp:121-125 | the same by slot, the own id in slot 0 included |
| Nearness.TakenVisitedFirst | src/ss_p2p/kademlia/k_routing_table.cpp:92-116 | for every good table and root: a returned node's bucket is visited no later than that of an eligible node left out |
| Nearness.NearerPairExactly | src/ss_p2p/kademlia/k_routing_table.cpp:79-118 | exactly when a returned node is at least as near the root as one left out, pairs within the root's bucket aside; that bucket beats everything outside it |
| Nearness.NearestFirstExactly | src/ss_p2p/kademlia/k_routing_table.cpp:75-119 | for every good table, root, limit and ignore list, all pairs included: exactly when everything returned is at least as near as everything left out, in terms of what the buckets offer |
| SearchExamples.FartherReturned | src/ss_p2p/kademlia/k_routing_table.cpp:92-116 | for every own id, a table reached by two arrivals from which a search for one node returns the one at distance 160 and leaves the one at 152 |
| SearchRecency.LatestGiven | src/ss_p2p/kademlia/k_routing_table.cpp:83-110 | after every run, for every root, limit and ignore list: of two eligible nodes of one slot of which one is returned, that is the one touched later, or neither was touched |
| SearchRecency.BackIsGiven | src/ss_p2p/kademlia/k_bucket.cpp:54-67 | in every good table: with an entry of a bucket a search returns everything behind it that is not ignored |
| SearchRecency.ReturnedInOrder | src/ss_p2p/kademlia/k_routing_table.cpp:83-112 | after every run, unless some id is returned twice: of two nodes returned the earlier one's slot is nearer the root's slot, or as near and lower, or it is the same slot and the earlier was touched later or neither was touched |
| SearchRecency.LeftOutBehind | src/ss_p2p/kademlia/k_routing_table.cpp:83-112 | and every eligible node left out comes, in that order, behind each of the first max returned |
| RoutingTables.KRoutingTable.constructor | src/ss_p2p/kademlia/k_routing_table.cpp:10-15 | an empty table with its own copy of the id |
| RoutingTables.KRoutingTable.CalcBranch | src/ss_p2p/kademlia/k_routing_table.cpp:17-23 | the branch is the prefix distance to the own id |
| RoutingTables.KRoutingTable.CalcBranchIndex | src/ss_p2p/kademlia/k_routing_table.cpp:121-125 | branch 0 and branch 1 share index 0 |
| RoutingTables.KRoutingTable.AutoUpdate | src/ss_p2p/kademlia/k_routing_table.cpp:31-54 | one bucket changes, the invariant stays, and the first three slots never overflow |
| RoutingTables.KRoutingTable.IsExist | src/ss_p2p/kademlia/k_routing_table.cpp:69-73 | true exactly for the ids stored anywhere in the table |
| RoutingTables.KRoutingTable.GetNodeCount | src/ss_p2p/kademlia/k_routing_table.cpp:127-134 | the number of distinct ids stored |
| RoutingTables.KRoutingTable.AddUpper | src/ss_p2p/kademlia/k_routing_table.cpp:94-103 | the upper half of a round, its remaining count never negative |
| RoutingTables.KRoutingTable.AddLower | src/ss_p2p/kademlia/k_routing_table.cpp:105-114 | the lower half, entered even when nothing more is wanted, where it may add one node |
| RoutingTables.KRoutingTable.Widen | src/ss_p2p/kademlia/k_routing_table.cpp:87-118 | the loop ends and returns what the search order says |
| RoutingTables.KRoutingTable.CollectNode | src/ss_p2p/kademlia/k_routing_table.cpp:75-119 | the loop on the bucket objects computes the function the Collecting, Nearness and SearchRecency lemmas are about: at most max + 1 eligible nodes, all of them if fewer than max, and of each bucket those furthest back |
| Controllers.CollectEndpointsSound | src/ss_p2p/kademlia/direct_routing_table_controller.cpp:26-40 | at most max + 1 endpoints, each stored and none on the ignore list |
| Controllers.CollectEndpointsRepeatExactlyWhen | src/ss_p2p/kademlia/direct_routing_table_controller.cpp:26-40 | exactly when some endpoint is returned twice: the root has the table's own id and slot 0 offers something but less than asked |
| Controllers.CollectEndpointsComplete | src/ss_p2p/kademlia/direct_routing_table_controller.cpp:26-40 | a short result misses no stored node but the ignored |
| Controllers.CollectEndpointsCount | src/ss_p2p/kademlia/direct_routing_table_controller.cpp:26-40 | at least min(max, stored ids none of the ignored has), for every table; in a good one, unless the root has the own id, at most one more |
| Controllers.CollectEndpointsNearRoot | src/ss_p2p/kademlia/direct_routing_table_controller.cpp:26-40 | no stored node left out is in a slot nearer the root's than that of an endpoint returned |
| Controllers.DirectRoutingTableController.CollectEndpoint | src/ss_p2p/kademlia/direct_routing_table_controller.cpp:26-40 | the loops around the table's search compute the function those lemmas are about |
| Controllers.DirectRoutingTableController.IsExist | src/ss_p2p/kademlia/direct_routing_table_controller.cpp:42-46 | true exactly if a node with the endpoint's id is stored anywhere |
| Controllers.DirectRoutingTableController.AutoUpdateBatch | src/ss_p2p/kademlia/direct_routing_table_controller.cpp:53-61 | the run of one update for each endpoint, in order |
| Controllers.DirectRoutingTableController.FindNodeResponse | src/ss_p2p/kademlia/rpc_manager.cpp:81-99 | the ordered search result around the requester: min(5, eligible) stored endpoints or one more, never the requester nor what it asked to skip, none twice unless the requester has the own id |
| Controllers.RunKeepsWellMade | src/ss_p2p/kademlia/direct_routing_table_controller.cpp:53-67 | every entry keeps the id of its endpoint over every run |
| Refresh.Ping.OnTimer | src/ss_p2p/kademlia/k_observer.cpp:37-52 | the timeout handler is posted unless a pong was processed, whatever the error code |
| Refresh.Ping.IncomeMessage | src/ss_p2p/kademlia/k_observer.cpp:54-69 | every pong posts the pong handler |
| Refresh.KBucketIterator.Increment | src/ss_p2p/kademlia/k_routing_table.cpp:189-219 | branch and position advance together; past 160 the position stays |
| Refresh.KBucketIterator.GetNodes | src/ss_p2p/kademlia/k_routing_table.cpp:297-301 | the current bucket's nodes, or none when invalid |
| Refresh.ConnectionMaintainer.SendRefreshPing | src/ss_p2p/kademlia/connection_maintainer.cpp:77-99 | the position is the branch less one throughout; exactly one ping for each stored node, in walk order |
| Refresh.ConnectionMaintainer.RunPosted | src/ss_p2p/kademlia/connection_maintainer.cpp:86-90 | a callback moves back or deletes in the bucket it was bound to, and the invariant stays |
| Refresh.WalkPingsMatch | src/ss_p2p/kademlia/connection_maintainer.cpp:81-96 | the pings are for the stored nodes, each with its own bucket |
| Refresh.WalkInStoredOrder | src/ss_p2p/kademlia/connection_maintainer.cpp:81-96 | the pings go from the nearest bucket to the farthest and through each in stored order |
| Refresh.EachNodeAskedOnce | src/ss_p2p/kademlia/connection_maintainer.cpp:81-96 | every stored node is asked by one ping and no other |
| RefreshRound.EveryRoundSettled | src/ss_p2p/kademlia/k_observer.cpp:28-69 | in every interleaving, arrivals included: each timeout handler is posted at most once, and a pong handler exactly if a pong was processed |
| RefreshRound.ExpiredIffTimerFirst | src/ss_p2p/kademlia/k_observer.cpp:37-69 | the timeout handler is posted exactly if the timer completes before any pong, never after one |
| RefreshRound.RoundOutcome | src/ss_p2p/kademlia/connection_maintainer.cpp:77-99 | when a round without arrivals is resolved, a bucket holds exactly the nodes whose pong came in time |
| RefreshRound.StoredOutcome | src/ss_p2p/kademlia/connection_maintainer.cpp:84-90 | a stored node has one ping, and survives exactly if that ping's pong came first |
| RefreshRound.RoundOrder | src/ss_p2p/kademlia/connection_maintainer.cpp:86-90 | with callbacks run in any order, the survivors stand in the order in which their last pong callbacks ran |
| RefreshOrder.LogStaysInOrder | src/ss_p2p/node_controller.cpp:136-153 | with callbacks run first in, first out, as on the single io thread, the callbacks posted so far touch the nodes in the order of their last pongs |
| RefreshOrder.SurvivorsInPongOrder | src/ss_p2p/kademlia/connection_maintainer.cpp:77-99 | then the survivors of a resolved round stand in the order in which their last pongs arrived |
| RefreshRound.GoneStaysGone | src/ss_p2p/kademlia/k_bucket.cpp:86-97 | no pong, timer or callback brings a node back; only an arrival with room does |
| Signaling.SignalingServer.IncomeMessage | src/ss_p2p/ice_agent/signaling_server.cpp:24-101 | the destination answers, a node that knows it relays once, others flood; which copies are sent with which relay list, and which observer is stored |
| Signaling.SignalingServer.PassOn | src/ss_p2p/ice_agent/signaling_server.cpp:58-100 | a known destination gets one copy; otherwise, while the TTL lasts, the collected nodes do; an exhausted TTL stores no observer |
| Signaling.SignalingServer.Forward | src/ss_p2p/ice_agent/signaling_server.cpp:81-97 | all targets are recorded before the first copy leaves, so every copy lists them all |
| Signaling.SignalingRequest.Init | src/ss_p2p/ice_agent/ice_observer.cpp:30-62 | a dummy goes to the destination, the payload is cached, and the first copies, with an empty relay list, go to the nodes collected for the destination |
| Signaling.SignalingRequest.IncomeMessage | src/ss_p2p/ice_agent/ice_observer.cpp:106-133 | a response, or any copy of a request to oneself, sends the cached payload; once done, nothing is sent or changed |
| Signaling.SignalingSend | src/ss_p2p/ice_agent/signaling_server.cpp:124-138 | a known destination is sent the payload itself and nothing else happens; otherwise a request is launched and its observer stored |
| Flood.DispatchBySource | src/ss_p2p/ice_agent/ice_agent.cpp:38-60 | relay observers never match: while stored, the source's request observer takes what reaches the source; the server takes everything else |
| Flood.ForwardFacts | src/ss_p2p/ice_agent/signaling_server.cpp:75-83 | at most four targets, none on the relay list, none the relaying node |
| Flood.ServerSendsGood | src/ss_p2p/ice_agent/signaling_server.cpp:32-97 | copies keep source, destination, id and TTL; only the destination responds, and to the source |
| Flood.RunKeepsInv | src/ss_p2p/ice_agent/signaling_server.cpp:24-101 | over every run, with loss, changing tables and an expiring observer: relayed copies not for the destination are addressed to endpoints on their own relay list, the TTL is untouched, a completed request has sent its payload |
| Flood.ResponseNeedsDestination | src/ss_p2p/ice_agent/signaling_server.cpp:32-49 | a response, or a payload sent, exists only after a copy was delivered to the destination |
| Flood.DoneStopsPaying | src/ss_p2p/ice_agent/ice_observer.cpp:106-133 | over every run: once a payload send has completed nothing that happens later sends the payload again |
| Flood.SourcePaysExactly | src/ss_p2p/ice_agent/ice_observer.cpp:106-133 | exactly which step of a run sends a payload, and it sends one: a response, or a copy of a request to oneself, reaching the source while its observer is stored and no send has completed |
| Flood.PayloadsAccounted | src/ss_p2p/ice_agent/ice_observer.cpp:106-133 | over every run: payloads sent equal those completed plus those pending, and the request is done exactly if one has completed |
| Flood.FloodingShrinksRoom | src/ss_p2p/ice_agent/signaling_server.cpp:56-83 | every flooding leaves strictly fewer endpoints off the relay list |
| Flood.StepDecreases | src/ss_p2p/ice_agent/signaling_server.cpp:55-100 | while the source's observer is stored every delivery, loss and completion strictly lowers the weighted sum of what is in flight |
| Flood.FloodTerminates | src/ss_p2p/ice_agent/signaling_server.cpp:55-100 | while the source's observer is stored no run among n endpoints has more than 16 * 5^n steps, whatever the tables do and although the TTL is never lowered |
| Flood.ChainsAreSimple | src/ss_p2p/ice_agent/signaling_server.cpp:56-97 | along a forwarding chain no node is flooded to twice, and each is on the relay list of the copy it gets |
| Flood.ChainsAreShort | src/ss_p2p/ice_agent/signaling_server.cpp:75-97 | a forwarding chain is no longer than the number of endpoints |
| Flood.DeliveryStartsIt | src/ss_p2p/ice_agent/signaling_server.cpp:32-73 | delivering to the destination, or to a node that knows it, puts a response or a direct copy on its way |
| Flood.LosslessDelivery | src/ss_p2p/ice_agent/signaling_server.cpp:32-73 | in a run that loses nothing, once a node other than the source receives a copy while knowing the destination, at quiescence the destination has been reached, and the source, if its observer is still stored, has sent its payload; requests to oneself included |
| FloodSpread.LaunchSpreads | src/ss_p2p/ice_agent/ice_observer.cpp:38-58 | the first copies, with TTL 5 and an empty relay list, go to min(3, stored) nodes or one more |
| FloodSpread.LaunchNearDestination | src/ss_p2p/ice_agent/ice_observer.cpp:45 | no node left out of the first copies lies in a slot nearer the destination's than one that is sent a copy; so none in the destination's slot is left out for one outside it |
| FloodSpread.FloodSpreads | src/ss_p2p/ice_agent/signaling_server.cpp:56-97 | in every run from a launch: a node that neither is source or destination nor stores the destination replaces the copy it gets by copies to min(3, eligible) distinct stored nodes or one more, none on the relay list, none farther from the destination's slot than one left out, each copy listing the old list, the node and all recipients |
| FloodSpread.StoredIsRelayed | src/ss_p2p/ice_agent/signaling_server.cpp:32-73 | in every run from a launch: a node that stores the destination replaces it by one copy straight there, the destination by one response to the source |
| FloodSpread.KnowsWhatIsStored | src/ss_p2p/kademlia/direct_routing_table_controller.cpp:42-46 | a node knows the destination only if it stores its id, and in a good table exactly then |
| FloodSpread.TtlDecides | src/ss_p2p/ice_agent/signaling_server.cpp:75-100 | for any message and node: an exhausted TTL sends and stores nothing; otherwise a node that does not store the destination spreads the message and stores a relay observer |
| FloodSpread.ServersStoreOne | src/ss_p2p/ice_agent/signaling_server.cpp:32-100 | in every run from a launch: each server that gets a copy stores one observer under a new id, for a response at the destination and for a relay elsewhere |
| FloodEnds.LaunchedIsOngoing | src/ss_p2p/ice_agent/ice_observer.cpp:30-62 | a launched request is one of the states the next four are about |
| FloodEnds.CalmRunsEnd | src/ss_p2p/ice_agent/ice_agent.cpp:38-60 | whether and whenever the observer leaves: a run in which the source's server gets messages only while it neither is the destination nor knows it is bounded by what was in flight |
| FloodEnds.CalmFloodTerminates | src/ss_p2p/ice_agent/signaling_server.cpp:55-100 | from a launch among n endpoints such a run has at most 48 * 5^n + 9 steps |
| FloodEnds.EndlessWithoutObserver | src/ss_p2p/ice_agent/ice_agent.cpp:38-60 | otherwise, from any state with something in flight, a launch included, there are runs of every length that lose nothing, in which the observer expires and the request goes round |
| FloodEnds.FloodEndsExactly | src/ss_p2p/ice_agent/signaling_server.cpp:24-101 | from every state of a request, for every table at the source: its runs are bounded if and only if nothing is in flight or the source neither is the destination nor holds it |
| Binding.MajorityWins | src/ss_p2p/ice_agent/ice_observer.cpp:270-316 | with A the answered requests, P those answered with a non-loopback endpoint and V(x) those answered with x: a result exactly when 5 abs(A) >= 2n, P is not empty and 3 abs(P) + 2 >= abs(A); an x with 2 abs(V(x)) > abs(P) is the result however ties are sorted |
| Binding.ConsensusByIndex | src/ss_p2p/ice_agent/ice_observer.cpp:270-316 | what the vote may return, forced or not, if and only if: undecided, an error, or an endpoint whose V is not empty and no smaller than any other |
| Binding.BindingRequest.constructor | src/ss_p2p/ice_agent/ice_observer.cpp:215-223 | the timer is armed and the object, set to pending, holds not found |
| Binding.BindingRequest.AddResponse | src/ss_p2p/ice_agent/ice_observer.cpp:239-246 | the first request to the sender takes the answer, replacing an earlier one; strangers change nothing |
| Binding.BindingRequest.GlobalEpConsensus | src/ss_p2p/ice_agent/ice_observer.cpp:270-316 | the three loops and the sort return what ConsensusByIndex allows: undecided below two fifths answered or, unless forced, a third of those public; else a public endpoint none outnumbers |
| Binding.BindingRequest.IncomeMessage | src/ss_p2p/ice_agent/ice_observer.cpp:248-268 | an answer is recorded, and once the vote decides the result is written and the handler posted if due |
| Binding.BindingRequest.OnTimeout | src/ss_p2p/ice_agent/ice_observer.cpp:318-325 | the timer's callback always writes the vote's outcome, also after a cancellation |
| Binding.BindingRequest.UpdateSr | src/ss_p2p/ice_agent/ice_observer.cpp:327-342 | a decision is stored as done with its endpoint, anything else as not found |
| Binding.SrObject.UpdateState | src/ss_p2p/ice_agent/stun_server.cpp:122-133 | only done with an endpoint is stored as such; pending becomes not found |
| Binding.MostReported | src/ss_p2p/ice_agent/ice_observer.cpp:299-313 | the tally and sort pick an endpoint with the highest count |
| Binding.HandlerPostedOnce | src/ss_p2p/ice_agent/ice_observer.cpp:225-268 | over every interleaving the handler is posted at most once, with the outcome of the first conclusive step that finds it registered |
| Binding.TimerOnce | src/ss_p2p/ice_agent/ice_observer.cpp:318-325 | over every run the timer's callback runs at most once, and the timeout mark is set exactly if it has |
| Binding.ReplyKeepsResultExactly | src/ss_p2p/ice_agent/ice_observer.cpp:248-268 | in every reachable state with a done result, exactly when a reply leaves it as it is whatever order ties are sorted in |
| Binding.ResultCanChange | src/ss_p2p/ice_agent/ice_observer.cpp:248-268 | a concrete run in which a later reply changes the result after the handler was given the first |
| Binding.ResultIsGenuine | src/ss_p2p/ice_agent/ice_observer.cpp:248-342 | over every run: never pending; a done result and every endpoint given to the handler is non-loopback and was reported by a requested node; done means two fifths have answered |
| Binding.AnswersOnlyGrow | src/ss_p2p/ice_agent/ice_observer.cpp:239-246 | a quorum once reached is never lost |
| Binding.DoneLostExactlyWhen | src/ss_p2p/ice_agent/ice_observer.cpp:318-325 | a done result is lost exactly at a timer callback with too few public answers |
| Binding.DoneCanBeLost | src/ss_p2p/ice_agent/ice_observer.cpp:318-325 | a concrete run of three events in which it is lost |
| Binding.DoneStaysDone | src/ss_p2p/ice_agent/ice_observer.cpp:318-342 | without loopback reports a done result stays done in every run |
| Binding.RepeatedTargetsNeverDone | src/ss_p2p/ice_agent/ice_observer.cpp:233-278 | a list whose distinct nodes are fewer than two fifths of it is never decided |
| Binding.DoneReachableExactly | src/ss_p2p/ice_agent/ice_observer.cpp:233-278 | some run finds the endpoint if and only if the list is not empty and its distinct nodes are at least two fifths of it |
| StunServers.RequestNodesFacts | src/ss_p2p/ice_agent/stun_server.cpp:35-50 | the targets first, at most one more than wanted, those added stored and no target, short only if nothing eligible is left, empty exactly if there is nobody |
| StunServers.RequestNodesInNumbers | src/ss_p2p/ice_agent/stun_server.cpp:37-48 | r nodes asked for k targets: r <= k + 1, or r <= 2, or 10(r - 1) <= reliability; r >= 1 and 10r + 9 >= reliability, or every stored node beside the targets is asked; no search when k >= 1 and 10k + 9 >= reliability |
| StunServers.AddedNearEmpty | src/ss_p2p/ice_agent/stun_server.cpp:46 | no stored node left out is in a slot nearer that of 0.0.0.0:0 than a node added to the targets |
| StunServers.AskedTwiceExactlyWhen | src/ss_p2p/ice_agent/stun_server.cpp:37-48 | exactly when distinct targets still make a list with repeats |
| StunServers.StunServer.BindingRequest | src/ss_p2p/ice_agent/stun_server.cpp:35-70 | with nobody to ask the object is an error; otherwise every listed node is sent a request and entered in the observer |
| MessageBuffers.UpperBound | src/ss_p2p/message_pool.cpp:260-264 | binary search finds the boundary between expired and young |
| MessageBuffers.DropIsExpiryExactly | include/ss_p2p/message_pool.hpp:121-136 | dropping a prefix leaves exactly the young messages if and only if it ends at that boundary |
| MessageBuffers.PrefixExpiryExactly | src/ss_p2p/message_pool.cpp:258-266 | a queue can be expired by dropping a prefix if and only if it is partitioned, as a sorted one is |
| MessageBuffers.PeerMessageBuffer.Pop | src/ss_p2p/message_pool.cpp:94-113 | the message at the index if there is one, removed unless peeked |
| MessageBuffers.PeerMessageBuffer.PopById | src/ss_p2p/message_pool.cpp:115-139 | the last message with the id, if any |
| MessageBuffers.PeerMessageBuffer.PopSince | src/ss_p2p/message_pool.cpp:141-149 | the first message later than the given time, left queued |
| MessageBuffers.PeerMessageBuffer.DropReversed | include/ss_p2p/message_pool.hpp:121-136 | a reverse range erases the forward range between its bases |
| MessageBuffers.PeerMessageBuffer.Expire | src/ss_p2p/message_pool.cpp:260-265 | upper bound plus reverse drop is the filter for messages younger than 1200 s, in order |
| MessageBuffers.RunsStaySorted | src/ss_p2p/message_pool.cpp:79-113 | with a clock that never goes back every run of pushes, pops and refreshes keeps a queue sorted by arrival |
| MessageBuffers.Accounted | src/ss_p2p/message_pool.cpp:79-113 | over every run: pushed equals queued plus popped plus expired, as multisets |
| MessageBuffers.YoungMessagesKept | src/ss_p2p/message_pool.cpp:252-270 | a message younger than 1200 s is still queued unless somebody popped it |
| MessageBuffers.QueueIsRecent | src/ss_p2p/message_pool.cpp:252-270 | a queue nobody pops from holds exactly what was pushed later than the last refresh's cutoff, in order |
| MessagePools.PeersAreSeparate | src/ss_p2p/message_pool.cpp:272-293 | a peer's queue is the run of its own stores and refreshes; no other peer's messages reach it |
| MessagePools.PoolHoldsRecent | src/ss_p2p/message_pool.cpp:252-302 | over every timely run each peer's queue is sorted and holds exactly its messages the last refresh found young |
| MessagePools.StoredUntilExpired | src/ss_p2p/message_pool.cpp:252-293 | over every run, whatever the clocks do: a peer's queue holds a message exactly if it was stored for that peer and every refresh since found it less than 1200 s old |
| MessagePools.OneEntryPerPeer | src/ss_p2p/message_pool.cpp:209-215 | no peer ever gets two entries |
| MessagePools.TimelyPoolsExpire | src/ss_p2p/message_pool.cpp:258-266 | while no entry saw the clock go back, every refresh meets the binary search's precondition |
| MessagePools.MessagePool.Store | src/ss_p2p/message_pool.cpp:272-302 | the message is filed under its sender, and an active hub is handed it while it stays stored |
| MessagePools.MessagePool.Deliver | src/ss_p2p/message_pool.cpp:295-301 | the hub is handed the message just stored, whether or not its id is unique, taken from a copy |
| MessagePools.MessagePool.RefreshTick | src/ss_p2p/message_pool.cpp:252-270 | every entry is filtered by the clock as read at its turn, and nothing else changes |

## Left out

- Flood.FloodTerminates: is about runs in which the source's observer stays; FloodEnds has the others. Each node is
  taken to recognise its own endpoint.
- Flood: duplication of datagrams by the network; ids of stored observers are taken to be fresh.
- RefreshOrder.SurvivorsInPongOrder: is about rounds without other arrivals, whose updates run outside the callbacks.
- MessageBuffers.PeerMessageBuffer.PopById: requires the id to be present when it dequeues from a non-empty queue, since
  the source then erases the end iterator.
- MessageBuffers.UpperBound: requires the partition the library demands; without it the search is undefined.
- MessagePools.MessagePool.RefreshTick: the order in which the time index visits entries is not modelled; each entry has
  its own clock reading instead.
- Binding.BindingRequest.GlobalEpConsensus: counts are unbounded where the source uses 16 bits, and the comparison with
  the list's length over 2.5 is written as five times against twice, which is exact below 65536 requests.
- Observers other than the source's request observer are kept, and the life of the object a posted callback refers to is
  not modelled; when the request observer expires is left open, where the source waits 20 seconds or more.
- `swap_node`: it keeps the replacement in the old node's bucket and nothing calls it.
- The table's own id is fixed at construction, as in the source: `update_self_id` changes another copy.
- `k_bucket_iterator` decrements and `to_begin`: the refresh walk only increments.
- The answer to a binding request, which only reports the sender's endpoint back to it.
- `sync_get`, condition variables and `peer::receive`: blocking, on snapshot copies of a buffer.
- The buffer's memory counter, which `drop` does not update.
- `find_node` requests and the timing of ticks in the connection maintainer; the pings they lead to are arrivals.
- Text and hash forms of endpoints and ids, JSON encoding, sockets, logging, `multicast_manager`, `union_observer`.
