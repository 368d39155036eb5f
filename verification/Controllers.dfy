/** Endpoints in, endpoints out: the controller the other components use
    (src/ss_p2p/kademlia/direct_routing_table_controller.cpp, rpc_manager.cpp). */
module Controllers {
  import opened Utils
  import opened NodeIds
  import opened Nodes
  import opened Buckets
  import opened Tables
  import opened SearchOrder
  import opened Collecting
  import opened Nearness
  import opened RoutingTables

  /** The id of an endpoint: a fixed function of it (the source hashes its text). */
  type IdOf = Endpoint -> NodeId

  const DEFAULT_FIND_NODE_SIZE: nat := 5

  function NodeOf(idOf: IdOf, ep: Endpoint): KNode {
    KNode(ep, idOf(ep))
  }

  function NodesOf(idOf: IdOf, eps: seq<Endpoint>): (r: seq<KNode>)
    ensures |r| == |eps|
    ensures forall i :: 0 <= i < |eps| ==> r[i] == NodeOf(idOf, eps[i])
  {
    seq(|eps|, i requires 0 <= i < |eps| => NodeOf(idOf, eps[i]))
  }

  function EndpointsOf(nodes: seq<KNode>): (r: seq<Endpoint>)
    ensures |r| == |nodes|
    ensures forall i :: 0 <= i < |nodes| ==> r[i] == nodes[i].ep
  {
    seq(|nodes|, i requires 0 <= i < |nodes| => nodes[i].ep)
  }

  function CollectEndpoints(idOf: IdOf, self: NodeId, t: Table, root: Endpoint, max: nat,
      ignore: seq<Endpoint>): seq<Endpoint> {
    EndpointsOf(CollectNodes(t, NodesOf(idOf, ignore), Distance(self, idOf(root)), max))
  }

  /** Every entry was made from its endpoint. */
  ghost predicate WellMade(idOf: IdOf, t: Table) {
    forall s, n :: 0 <= s < K_BUCKET_COUNT && n in t[s] ==> n.id == idOf(n.ep)
  }

  ghost predicate HasEndpoint(t: Table, ep: Endpoint) {
    exists s, n :: 0 <= s < K_BUCKET_COUNT && n in t[s] && n.ep == ep
  }

  lemma IgnoredById(idOf: IdOf, ignore: seq<Endpoint>, ep: Endpoint)
    requires ep in ignore
    ensures Contains(NodesOf(idOf, ignore), idOf(ep))
  {
    var i :| 0 <= i < |ignore| && ignore[i] == ep;
    assert NodesOf(idOf, ignore)[i].id == idOf(ep);
    ContainsIff(NodesOf(idOf, ignore), idOf(ep));
    assert NodesOf(idOf, ignore)[i] in NodesOf(idOf, ignore);
  }

  /** For every table and root: at most `max + 1` endpoints, each stored, none of them ignored. */
  lemma CollectEndpointsSound(idOf: IdOf, self: NodeId, t: Table, root: Endpoint, max: nat, ignore: seq<Endpoint>)
    requires WellMade(idOf, t)
    ensures var r := CollectEndpoints(idOf, self, t, root, max, ignore);
            && |r| <= max + 1
            && forall ep :: ep in r ==> HasEndpoint(t, ep) && ep !in ignore
  {
    var ignored := NodesOf(idOf, ignore);
    var nodes := CollectNodes(t, ignored, Distance(self, idOf(root)), max);
    CollectSound(t, ignored, Distance(self, idOf(root)), max);
    forall ep | ep in EndpointsOf(nodes) ensures HasEndpoint(t, ep) && ep !in ignore {
      var i :| 0 <= i < |nodes| && nodes[i].ep == ep;
      assert nodes[i] in nodes;
      assert Eligible(t, ignored, nodes[i]);
      if ep in ignore {
        IgnoredById(idOf, ignore, ep);
      }
    }
  }

  lemma StoredOnce(self: NodeId, t: Table, a: KNode, b: KNode)
    requires GoodTable(self, t) && Stored(t, a) && Stored(t, b) && a.id == b.id
    ensures a == b
  {
    var s: nat :| s < K_BUCKET_COUNT && a in t[s];
    var s': nat :| s' < K_BUCKET_COUNT && b in t[s'];
    assert GoodBucket(self, t[s], s) && GoodBucket(self, t[s'], s');
  }

  /** Stored entries repeat an endpoint exactly if they repeat an id. */
  lemma EndpointsRepeatWithIds(idOf: IdOf, self: NodeId, t: Table, nodes: seq<KNode>)
    requires WellMade(idOf, t) && GoodTable(self, t) && forall n :: n in nodes ==> Stored(t, n)
    ensures NoRepeats(EndpointsOf(nodes)) <==> DistinctIds(nodes)
  {
    forall i, j | 0 <= i < j < |nodes|
      ensures nodes[i].ep == nodes[j].ep <==> nodes[i].id == nodes[j].id
    {
      assert nodes[i] in nodes && nodes[j] in nodes;
      if nodes[i].id == nodes[j].id {
        StoredOnce(self, t, nodes[i], nodes[j]);
      }
    }
  }

  /** Exactly when some endpoint is returned twice: the root's id is the table's own, and slot 0 offers something
      but less than was asked for. */
  lemma CollectEndpointsRepeatExactlyWhen(idOf: IdOf, self: NodeId, t: Table, root: Endpoint, max: nat,
      ignore: seq<Endpoint>)
    requires WellMade(idOf, t) && GoodTable(self, t)
    ensures NoRepeats(CollectEndpoints(idOf, self, t, root, max, ignore)) <==>
            !(idOf(root) == self && 0 < |Kept(Reversed(t[0]), NodesOf(idOf, ignore))| < max)
  {
    var ignored := NodesOf(idOf, ignore);
    CollectRepeatsExactlyWhen(self, t, ignored, idOf(root), max);
    CollectSound(t, ignored, Distance(self, idOf(root)), max);
    EndpointsRepeatWithIds(idOf, self, t, CollectNodes(t, ignored, Distance(self, idOf(root)), max));
  }

  /** Stored under an id that none of these endpoints has. */
  ghost predicate StoredBeside(idOf: IdOf, t: Table, eps: seq<Endpoint>, n: KNode) {
    Stored(t, n) && forall ep :: ep in eps ==> idOf(ep) != n.id
  }

  /** A short result means nothing else could have been returned. */
  lemma CollectEndpointsComplete(idOf: IdOf, self: NodeId, t: Table, root: Endpoint, max: nat,
      ignore: seq<Endpoint>, n: KNode)
    requires |CollectEndpoints(idOf, self, t, root, max, ignore)| < max
    requires StoredBeside(idOf, t, ignore, n)
    ensures n.ep in CollectEndpoints(idOf, self, t, root, max, ignore)
  {
    var ignored := NodesOf(idOf, ignore);
    var nodes := CollectNodes(t, ignored, Distance(self, idOf(root)), max);
    CollectComplete(t, ignored, Distance(self, idOf(root)), max);
    ContainsIff(ignored, n.id);
    assert Eligible(t, ignored, n);
    var i :| 0 <= i < |nodes| && nodes[i] == n;
    assert EndpointsOf(nodes)[i] == n.ep;
  }

  /** The stored ids that none of these endpoints has. */
  ghost function IdsBeside(idOf: IdOf, t: Table, eps: seq<Endpoint>): set<NodeId> {
    set n | n in AllNodes(t, K_BUCKET_COUNT) && (forall ep :: ep in eps ==> idOf(ep) != n.id) :: n.id
  }

  lemma BesideIsEligible(idOf: IdOf, t: Table, eps: seq<Endpoint>)
    ensures IdsBeside(idOf, t, eps) == EligibleIds(t, NodesOf(idOf, eps))
  {
    forall id ensures Contains(NodesOf(idOf, eps), id) <==> exists ep :: ep in eps && idOf(ep) == id {
      if ep :| ep in eps && idOf(ep) == id {
        IgnoredById(idOf, eps, ep);
      }
      var i := FindNode(NodesOf(idOf, eps), id);
      if i < |eps| {
        assert eps[i] in eps && idOf(eps[i]) == id;
      }
    }
  }

  /** As many endpoints as asked for or as there are to return, for every table; and in a well placed one, unless the
      root's id is the table's own, at most one more. */
  lemma CollectEndpointsCount(idOf: IdOf, self: NodeId, t: Table, root: Endpoint, max: nat, ignore: seq<Endpoint>)
    ensures var r, eligible := CollectEndpoints(idOf, self, t, root, max, ignore), |IdsBeside(idOf, t, ignore)|;
            && |r| >= (if eligible < max then eligible else max)
            && (GoodTable(self, t) && idOf(root) != self ==> |r| <= (if eligible < max then eligible else max) + 1)
  {
    BesideIsEligible(idOf, t, ignore);
    CollectAtLeast(t, NodesOf(idOf, ignore), Distance(self, idOf(root)), max);
    if GoodTable(self, t) && idOf(root) != self {
      PrefixFullIffEqual(self, idOf(root));
      CollectCount(self, t, NodesOf(idOf, ignore), Distance(self, idOf(root)), max);
    }
  }

  /** How many slots an endpoint lies from the root's. */
  function SlotsApart(idOf: IdOf, self: NodeId, root: Endpoint, ep: Endpoint): nat {
    Abs(SlotOf(self, idOf(ep)) - SlotOf(self, idOf(root)))
  }

  /** No stored node left out is in a slot nearer the root's than that of an endpoint returned. */
  lemma CollectEndpointsNearRoot(idOf: IdOf, self: NodeId, t: Table, root: Endpoint, max: nat, ignore: seq<Endpoint>,
                                 ep: Endpoint, m: KNode)
    requires WellMade(idOf, t) && GoodTable(self, t)
    requires ep in CollectEndpoints(idOf, self, t, root, max, ignore)
    requires StoredBeside(idOf, t, ignore, m) && m.ep !in CollectEndpoints(idOf, self, t, root, max, ignore)
    ensures SlotsApart(idOf, self, root, ep) <= SlotsApart(idOf, self, root, m.ep)
  {
    var ignored, r := NodesOf(idOf, ignore), Distance(self, idOf(root));
    var nodes := CollectNodes(t, ignored, r, max);
    var i :| 0 <= i < |nodes| && EndpointsOf(nodes)[i] == ep;
    assert nodes[i] in nodes;
    CollectSound(t, ignored, r, max);
    ContainsIff(ignored, m.id);
    forall j | 0 <= j < |nodes| ensures nodes[j] != m {
      assert EndpointsOf(nodes)[j] in EndpointsOf(nodes);
    }
    TakenVisitedFirst(self, t, ignored, r, max, nodes[i], m);
    RoundBySlots(r, SlotOf(self, nodes[i].id), SlotOf(self, m.id));
  }

  lemma RoundBySlots(r: nat, a: nat, b: nat)
    requires r <= BRANCHES && Round(r, a) <= Round(r, b)
    ensures Abs(a - Slot(r)) <= Abs(b - Slot(r))
  {
  }

  function Updates(idOf: IdOf, eps: seq<Endpoint>): (ops: seq<TableOp>)
    ensures |ops| == |eps|
    ensures forall i :: 0 <= i < |eps| ==> ops[i] == Update(KNode(eps[i], idOf(eps[i])))
  {
    seq(|eps|, i requires 0 <= i < |eps| => Update(NodeOf(idOf, eps[i])))
  }

  class DirectRoutingTableController {
    const routingTable: KRoutingTable
    const idOf: IdOf

    constructor (routingTable: KRoutingTable, idOf: IdOf)
      ensures this.routingTable == routingTable && this.idOf == idOf
    {
      this.routingTable := routingTable;
      this.idOf := idOf;
    }

    method CollectEndpoint(root: Endpoint, maxCount: nat, ignore: seq<Endpoint>) returns (ret: seq<Endpoint>)
      requires routingTable.Valid()
      ensures ret == CollectEndpoints(idOf, routingTable.selfId, routingTable.Contents(), root, maxCount, ignore)
    {
      var ignoreNodes := NodesFor(ignore);
      var nodes := routingTable.CollectNode(NodeOf(idOf, root), maxCount, ignoreNodes);
      ret := EndpointsFrom(nodes);
    }

    method NodesFor(eps: seq<Endpoint>) returns (nodes: seq<KNode>)
      ensures nodes == NodesOf(idOf, eps)
    {
      nodes := [];
      for i := 0 to |eps|
        invariant nodes == NodesOf(idOf, eps)[..i]
      {
        nodes := nodes + [NodeOf(idOf, eps[i])];
      }
    }

    method EndpointsFrom(nodes: seq<KNode>) returns (ret: seq<Endpoint>)
      ensures ret == EndpointsOf(nodes)
    {
      ret := [];
      for i := 0 to |nodes|
        invariant ret == EndpointsOf(nodes)[..i]
      {
        ret := ret + [nodes[i].ep];
      }
    }

    method IsExist(ep: Endpoint) returns (found: bool)
      requires routingTable.Valid()
      ensures found <==> idOf(ep) in Ids(AllNodes(routingTable.Contents(), K_BUCKET_COUNT))
    {
      found := routingTable.IsExist(NodeOf(idOf, ep));
    }

    method AutoUpdateBatch(eps: seq<Endpoint>)
      requires routingTable.Valid()
      modifies routingTable.buckets
      ensures routingTable.Valid()
      ensures routingTable.Contents() == Run(routingTable.selfId, old(routingTable.Contents()), Updates(idOf, eps))
    {
      ghost var ops := Updates(idOf, eps);
      for i := 0 to |eps|
        invariant routingTable.Valid()
        invariant routingTable.Contents() == Run(routingTable.selfId, old(routingTable.Contents()), ops[..i])
      {
        assert ops[..i + 1][..i] == ops[..i];
        var state := routingTable.AutoUpdate(NodeOf(idOf, eps[i]));
      }
      assert ops[..|eps|] == ops;
    }

    /** A find_node request is answered by the search around the requester: never with the requester or what it
        asked to skip. */
    method FindNodeResponse(ignore: seq<Endpoint>, requester: Endpoint) returns (found: seq<Endpoint>)
      requires routingTable.Valid() && WellMade(idOf, routingTable.Contents())
      ensures found == CollectEndpoints(idOf, routingTable.selfId, routingTable.Contents(), requester,
                                        DEFAULT_FIND_NODE_SIZE, ignore + [requester])
      ensures var eligible := |IdsBeside(idOf, routingTable.Contents(), ignore + [requester])|;
              var wanted := if eligible < 5 then eligible else 5;
              && wanted <= |found| <= 6
              && (idOf(requester) != routingTable.selfId ==> |found| <= wanted + 1 && NoRepeats(found))
      ensures forall ep :: ep in found ==> HasEndpoint(routingTable.Contents(), ep) && ep !in ignore && ep != requester
      ensures |found| < DEFAULT_FIND_NODE_SIZE ==>
                forall n :: StoredBeside(idOf, routingTable.Contents(), ignore + [requester], n) ==> n.ep in found
    {
      var ignoreEps := ignore + [requester];
      found := CollectEndpoint(requester, DEFAULT_FIND_NODE_SIZE, ignoreEps);
      ghost var t := routingTable.Contents();
      CollectEndpointsSound(idOf, routingTable.selfId, t, requester, DEFAULT_FIND_NODE_SIZE, ignoreEps);
      CollectEndpointsCount(idOf, routingTable.selfId, t, requester, DEFAULT_FIND_NODE_SIZE, ignoreEps);
      CollectEndpointsRepeatExactlyWhen(idOf, routingTable.selfId, t, requester, DEFAULT_FIND_NODE_SIZE, ignoreEps);
      if |found| < DEFAULT_FIND_NODE_SIZE {
        forall n | StoredBeside(idOf, t, ignoreEps, n) ensures n.ep in found {
          CollectEndpointsComplete(idOf, routingTable.selfId, t, requester, DEFAULT_FIND_NODE_SIZE, ignoreEps, n);
        }
      }
    }
  }

  /** Tables filled from endpoints stay so over every run. */
  ghost predicate OpsWellMade(idOf: IdOf, ops: seq<TableOp>) {
    forall op :: op in ops && op.Update? ==> op.node.id == idOf(op.node.ep)
  }

  lemma {:induction false} RunKeepsWellMade(idOf: IdOf, self: NodeId, t: Table, ops: seq<TableOp>)
    requires WellMade(idOf, t) && OpsWellMade(idOf, ops)
    ensures WellMade(idOf, Run(self, t, ops))
    decreases |ops|
  {
    if ops != [] {
      var front, op := ops[..|ops| - 1], ops[|ops| - 1];
      RunKeepsWellMade(idOf, self, t, front);
      var mid := Run(self, t, front);
      forall s, n | 0 <= s < K_BUCKET_COUNT && n in Apply(self, mid, op)[s] ensures n.id == idOf(n.ep) {
        ApplyAt(self, mid, op, s);
        StepBringsNothingElse(self, s, mid[s], op, n);
      }
    }
  }

  lemma StepBringsNothingElse(self: NodeId, s: nat, nodes: seq<KNode>, op: TableOp, n: KNode)
    requires n in BucketAfter(self, s, nodes, op)
    ensures n in nodes || (op.Update? && n == op.node)
  {
  }
}
