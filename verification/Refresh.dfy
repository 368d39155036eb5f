/** Refresh rounds: the bucket walk, the ping observers and the callbacks they post
    (src/ss_p2p/kademlia/connection_maintainer.cpp, k_observer.cpp). */
module Refresh {
  import opened NodeIds
  import opened Nodes
  import opened Tables
  import opened RoutingTables

  // ---------------------------------------------------------------- one ping

  /** A ping in flight: whom it asks, whether a pong was processed, whether the timer's one completion is
      still to come, and whether the timeout handler was posted. */
  datatype PingState = PingState(slot: nat, node: KNode, pongArrived: bool, timerPending: bool, expired: bool)

  function NewPing(slot: nat, node: KNode): PingState {
    PingState(slot, node, false, true, false)
  }

  /** The timer's completion runs the same handler whether it fired or was cancelled. */
  function AfterTimer(p: PingState): PingState {
    p.(timerPending := false, expired := p.expired || !p.pongArrived)
  }

  function TimerPosts(p: PingState): seq<TableOp> {
    if p.pongArrived then [] else [Timeout(p.slot, p.node)]
  }

  function AfterPong(p: PingState): PingState {
    p.(pongArrived := true)
  }

  function PongPosts(p: PingState): seq<TableOp> {
    [Pong(p.slot, p.node)]
  }

  /** The observer object; what it posts to the io context is returned. */
  class Ping {
    const slot: nat
    const node: KNode
    var isPongArrived: bool
    ghost var timerPending: bool
    ghost var expired: bool

    constructor (slot: nat, node: KNode)
      ensures State() == NewPing(slot, node)
    {
      this.slot := slot;
      this.node := node;
      isPongArrived := false;
      timerPending := true;
      expired := false;
    }

    ghost function State(): PingState
      reads this
    {
      PingState(slot, node, isPongArrived, timerPending, expired)
    }

    method OnTimer() returns (posted: seq<TableOp>)
      modifies this
      ensures State() == AfterTimer(old(State()))
      ensures posted == TimerPosts(old(State()))
    {
      posted := [];
      timerPending := false;
      if isPongArrived { return; }
      posted := posted + [Timeout(slot, node)];
      expired := true;
    }

    method IncomeMessage() returns (posted: seq<TableOp>)
      modifies this
      ensures State() == AfterPong(old(State()))
      ensures posted == PongPosts(old(State()))
    {
      isPongArrived := true;
      posted := [Pong(slot, node)];
    }
  }

  // ---------------------------------------------------------------- the walk over the buckets

  /** The pings of the first `n` buckets, in the order of the walk. */
  function WalkPings(t: Table, n: nat): seq<PingState>
    requires n <= K_BUCKET_COUNT
  {
    if n == 0 then [] else WalkPings(t, n - 1) + BucketPings(n - 1, t[n - 1])
  }

  function BucketPings(s: nat, nodes: seq<KNode>): seq<PingState> {
    seq(|nodes|, i requires 0 <= i < |nodes| => NewPing(s, nodes[i]))
  }

  ghost predicate Asks(p: PingState, s: nat, n: KNode) {
    p == NewPing(s, n)
  }

  /** One ping for each stored node and no other, as many as there are distinct ids. */
  lemma {:induction false} WalkPingsMatch(t: Table, n: nat)
    requires n <= K_BUCKET_COUNT
    ensures |WalkPings(t, n)| == |AllNodes(t, n)|
    ensures forall i :: 0 <= i < |WalkPings(t, n)| ==>
              && WalkPings(t, n)[i].slot < n
              && WalkPings(t, n)[i].node in t[WalkPings(t, n)[i].slot]
              && Asks(WalkPings(t, n)[i], WalkPings(t, n)[i].slot, AllNodes(t, n)[i])
  {
    if n > 0 {
      WalkPingsMatch(t, n - 1);
      var s, before := n - 1, WalkPings(t, n - 1);
      forall i | 0 <= i < |t[s]| ensures WalkPings(t, n)[|before| + i] == NewPing(s, t[s][i]) {
        assert BucketPings(s, t[s])[i] == NewPing(s, t[s][i]);
      }
    }
  }

  /** The walk goes from the nearest bucket to the farthest and through each in stored order. */
  lemma {:induction false} WalkInStoredOrder(t: Table, n: nat, i: nat, j: nat)
    requires n <= K_BUCKET_COUNT && i < j < |WalkPings(t, n)|
    ensures var p, q := WalkPings(t, n)[i], WalkPings(t, n)[j];
            || p.slot < q.slot < n
            || (p.slot == q.slot < n &&
                exists a, b :: 0 <= a < b < |t[p.slot]| && p.node == t[p.slot][a] && q.node == t[p.slot][b])
  {
    var s, before := n - 1, WalkPings(t, n - 1);
    WalkPingsMatch(t, n - 1);
    if j < |before| {
      WalkInStoredOrder(t, n - 1, i, j);
    } else if i >= |before| {
      assert WalkPings(t, n)[i] == NewPing(s, t[s][i - |before|]);
      assert WalkPings(t, n)[j] == NewPing(s, t[s][j - |before|]);
    } else {
      assert WalkPings(t, n)[i] == before[i] && before[i].slot < s;
    }
  }

  /** Every stored node is asked by exactly one ping, filed under its own bucket. */
  lemma EachNodeAskedOnce(self: NodeId, t: Table, s: nat, id: NodeId) returns (i: nat)
    requires GoodTable(self, t) && s < K_BUCKET_COUNT && Contains(t[s], id)
    ensures i < |WalkPings(t, K_BUCKET_COUNT)|
    ensures WalkPings(t, K_BUCKET_COUNT)[i].slot == s && WalkPings(t, K_BUCKET_COUNT)[i].node.id == id
    ensures forall j :: 0 <= j < |WalkPings(t, K_BUCKET_COUNT)| && j != i ==>
            WalkPings(t, K_BUCKET_COUNT)[j].node.id != id
  {
    var pings, all := WalkPings(t, K_BUCKET_COUNT), AllNodes(t, K_BUCKET_COUNT);
    WalkPingsMatch(t, K_BUCKET_COUNT);
    AllNodesMembers(t, K_BUCKET_COUNT);
    AllNodesDistinct(self, t, K_BUCKET_COUNT);
    ContainsIff(t[s], id);
    var n :| n in t[s] && n.id == id;
    assert n in all;
    i :| 0 <= i < |all| && all[i] == n;
    assert Asks(pings[i], pings[i].slot, n);
    SlotOfStored(self, t, s, n);
    SlotOfStored(self, t, pings[i].slot, n);
    forall j | 0 <= j < |pings| && j != i ensures pings[j].node.id != id {
      assert Asks(pings[j], pings[j].slot, all[j]);
    }
  }

  lemma WalkCount(self: NodeId, t: Table)
    requires GoodTable(self, t)
    ensures |WalkPings(t, K_BUCKET_COUNT)| == |Ids(AllNodes(t, K_BUCKET_COUNT))|
  {
    WalkPingsMatch(t, K_BUCKET_COUNT);
    AllNodesMembers(t, K_BUCKET_COUNT);
    NodeCountIsIdCount(self, t);
  }

  lemma SlotOfStored(self: NodeId, t: Table, s: nat, n: KNode)
    requires GoodTable(self, t) && s < K_BUCKET_COUNT && n in t[s]
    ensures SlotOf(self, n.id) == s
  {
    assert GoodBucket(self, t[s], s);
  }

  class KBucketIterator {
    const routingTable: KRoutingTable
    var bucketItr: nat
    var branch: int

    constructor (routingTable: KRoutingTable)
      ensures this.routingTable == routingTable && bucketItr == 0 && branch == 1
    {
      this.routingTable := routingTable;
      bucketItr, branch := 0, 1;
    }

    predicate IsInvalid()
      reads this
    {
      branch <= 0 || branch >= K_BUCKET_COUNT + 1
    }

    /** While valid, the position is the branch less one; past the last bucket it stays put. */
    method Increment()
      modifies this
      ensures branch == if 0 <= old(branch) < K_BUCKET_COUNT then old(branch) + 1 else K_BUCKET_COUNT + 1
      ensures bucketItr == if IsInvalid() then old(bucketItr) else old(bucketItr) + 1
    {
      branch := branch + 1;
      if IsInvalid() {
        branch := K_BUCKET_COUNT + 1;
        return;
      }
      bucketItr := bucketItr + 1;
    }

    method GetNodes() returns (nodes: seq<KNode>)
      requires routingTable.Shaped() && (!IsInvalid() ==> bucketItr < K_BUCKET_COUNT)
      ensures nodes == if IsInvalid() then [] else routingTable.Contents()[bucketItr]
    {
      if IsInvalid() {
        return [];
      }
      nodes := routingTable.table[bucketItr].nodes;
    }
  }

  class ConnectionMaintainer {
    const routingTable: KRoutingTable

    constructor (routingTable: KRoutingTable)
      ensures this.routingTable == routingTable
    {
      this.routingTable := routingTable;
    }

    /** All 160 buckets are walked once and one ping is issued for each stored node. */
    method SendRefreshPing() returns (pings: seq<Ping>)
      requires routingTable.Valid()
      ensures |pings| == |WalkPings(routingTable.Contents(), K_BUCKET_COUNT)|
      ensures forall i :: 0 <= i < |pings| ==>
              fresh(pings[i]) && pings[i].State() == WalkPings(routingTable.Contents(), K_BUCKET_COUNT)[i]
      ensures |pings| == |Ids(AllNodes(routingTable.Contents(), K_BUCKET_COUNT))|
    {
      ghost var t := routingTable.Contents();
      pings := [];
      var itr := new KBucketIterator(routingTable);
      while !itr.IsInvalid()
        invariant fresh(itr) && itr.routingTable == routingTable
        invariant 1 <= itr.branch <= K_BUCKET_COUNT + 1
        invariant !itr.IsInvalid() ==> itr.bucketItr == itr.branch - 1
        invariant Issued(pings, WalkPings(t, itr.branch - 1))
        invariant forall i :: 0 <= i < |pings| ==> fresh(pings[i])
        decreases K_BUCKET_COUNT + 1 - itr.branch
      {
        pings := PingCurrent(itr, pings);
      }
      WalkCount(routingTable.selfId, t);
    }

    /** One turn of the outer loop: ping the bucket the iterator is at, then advance it. */
    method PingCurrent(itr: KBucketIterator, sofar: seq<Ping>) returns (pings: seq<Ping>)
      requires routingTable.Shaped() && itr.routingTable == routingTable
      requires 1 <= itr.branch <= K_BUCKET_COUNT && itr.bucketItr == itr.branch - 1
      requires Issued(sofar, WalkPings(routingTable.Contents(), itr.branch - 1))
      modifies itr
      ensures itr.branch == old(itr.branch) + 1 && (!itr.IsInvalid() ==> itr.bucketItr == itr.branch - 1)
      ensures Issued(pings, WalkPings(routingTable.Contents(), itr.branch - 1))
      ensures forall i :: 0 <= i < |pings| ==> if i < |sofar| then pings[i] == sofar[i] else fresh(pings[i])
    {
      ghost var issued := WalkPings(routingTable.Contents(), itr.branch - 1);
      var nodes := itr.GetNodes();
      pings := PingBucket(itr.bucketItr, nodes, sofar, issued);
      itr.Increment();
    }

    method PingBucket(s: nat, nodes: seq<KNode>, sofar: seq<Ping>, ghost issued: seq<PingState>)
      returns (pings: seq<Ping>)
      requires Issued(sofar, issued)
      ensures Issued(pings, issued + BucketPings(s, nodes))
      ensures |pings| == |sofar| + |nodes|
      ensures forall i :: 0 <= i < |pings| ==> if i < |sofar| then pings[i] == sofar[i] else fresh(pings[i])
    {
      pings := sofar;
      for k := 0 to |nodes|
        invariant |pings| == |sofar| + k
        invariant forall i :: 0 <= i < |pings| ==> if i < |sofar| then pings[i] == sofar[i] else fresh(pings[i])
        invariant Issued(pings, issued + BucketPings(s, nodes)[..k])
      {
        var ping := new Ping(s, nodes[k]);
        assert BucketPings(s, nodes)[k] == NewPing(s, nodes[k]);
        pings := pings + [ping];
      }
      assert BucketPings(s, nodes)[..|nodes|] == BucketPings(s, nodes);
    }

    /** A posted callback reaches the bucket it was bound to. */
    method RunPosted(op: TableOp)
      requires routingTable.Valid() && !op.Update? && op.slot < K_BUCKET_COUNT
      modifies routingTable.buckets
      ensures routingTable.Valid()
      ensures routingTable.Contents() == Apply(routingTable.selfId, old(routingTable.Contents()), op)
    {
      ghost var before := routingTable.Contents();
      var bucket := routingTable.table[op.slot];
      if op.Pong? {
        bucket.MoveBack(op.node);
      } else {
        bucket.DeleteNode(op.node);
      }
      assert routingTable.Contents() == before[op.slot := bucket.nodes];
      StepKeepsGood(routingTable.selfId, before, op);
    }
  }

  ghost predicate Issued(pings: seq<Ping>, states: seq<PingState>)
    reads pings
  {
    |pings| == |states| && forall i :: 0 <= i < |pings| ==> pings[i].State() == states[i]
  }
}
