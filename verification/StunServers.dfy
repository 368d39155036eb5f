/** Setting up a binding request: whom to ask, and the observer that collects the answers
    (src/ss_p2p/ice_agent/stun_server.cpp). */
module StunServers {
  import opened Utils
  import opened NodeIds
  import opened Nodes
  import opened Buckets
  import opened Tables
  import opened Collecting
  import opened Controllers
  import opened Binding

  function RequestCount(targets: seq<Endpoint>, reliability: nat): nat {
    Max(Max(1, |targets|), reliability / 10)
  }

  function Missing(targets: seq<Endpoint>, reliability: nat): nat {
    RequestCount(targets, reliability) - |targets|
  }

  /** The given targets, topped up from the table when too few. */
  function RequestNodes(idOf: IdOf, self: NodeId, t: Table, targets: seq<Endpoint>, reliability: nat): seq<Endpoint> {
    var missing := Missing(targets, reliability);
    if missing > 0 then targets + CollectEndpoints(idOf, self, t, NO_ENDPOINT, missing, targets) else targets
  }

  /** At most one more than wanted; the ones added are stored and no target; fewer than wanted only when
      nothing eligible is left out; and nobody at all exactly when there is no target and no stored node. */
  lemma RequestNodesFacts(idOf: IdOf, self: NodeId, t: Table, targets: seq<Endpoint>, reliability: nat)
    requires WellMade(idOf, t)
    ensures var r, count := RequestNodes(idOf, self, t, targets, reliability), RequestCount(targets, reliability);
            && targets <= r && |r| <= count + 1
            && (forall ep :: ep in r[|targets|..] ==> HasEndpoint(t, ep) && ep !in targets)
            && (|r| < count ==> forall n :: StoredBeside(idOf, t, targets, n) ==> n.ep in r)
            && (r == [] <==> targets == [] && forall n :: !Stored(t, n))
  {
    var missing := Missing(targets, reliability);
    if missing > 0 {
      var added := CollectEndpoints(idOf, self, t, NO_ENDPOINT, missing, targets);
      TopUpFacts(idOf, self, t, targets, missing);
      assert (targets + added)[|targets|..] == added;
    }
  }

  /** The same in numbers: how many are asked, and when the table is not searched at all. */
  lemma RequestNodesInNumbers(idOf: IdOf, self: NodeId, t: Table, targets: seq<Endpoint>, reliability: nat)
    requires WellMade(idOf, t)
    ensures var r := RequestNodes(idOf, self, t, targets, reliability);
            && (|r| <= |targets| + 1 || |r| <= 2 || 10 * (|r| - 1) <= reliability)
            && ((|r| >= 1 && 10 * |r| + 9 >= reliability) ||
                forall n :: StoredBeside(idOf, t, targets, n) ==> n.ep in r)
            && (targets != [] && 10 * |targets| + 9 >= reliability ==> r == targets)
  {
    RequestNodesFacts(idOf, self, t, targets, reliability);
  }

  /** A stored node that is neither a target nor asked lies in no slot nearer the empty endpoint's than that of any
      node added to the targets. */
  lemma AddedNearEmpty(idOf: IdOf, self: NodeId, t: Table, targets: seq<Endpoint>, reliability: nat, k: nat, n: KNode)
    requires WellMade(idOf, t) && GoodTable(self, t)
    requires |targets| <= k < |RequestNodes(idOf, self, t, targets, reliability)|
    requires StoredBeside(idOf, t, targets, n) && n.ep !in RequestNodes(idOf, self, t, targets, reliability)
    ensures var empty := Endpoint(0, 0);
            SlotsApart(idOf, self, empty, RequestNodes(idOf, self, t, targets, reliability)[k]) <=
              SlotsApart(idOf, self, empty, n.ep)
  {
    var r, missing := RequestNodes(idOf, self, t, targets, reliability), Missing(targets, reliability);
    var added := CollectEndpoints(idOf, self, t, NO_ENDPOINT, missing, targets);
    assert r == targets + added && r[k] == added[k - |targets|];
    CollectEndpointsNearRoot(idOf, self, t, NO_ENDPOINT, missing, targets, r[k], n);
  }

  lemma TopUpFacts(idOf: IdOf, self: NodeId, t: Table, targets: seq<Endpoint>, need: nat)
    requires WellMade(idOf, t) && need > 0
    ensures var added := CollectEndpoints(idOf, self, t, NO_ENDPOINT, need, targets);
            && |added| <= need + 1
            && (forall ep :: ep in added ==> HasEndpoint(t, ep) && ep !in targets)
            && (|added| < need ==> forall n :: StoredBeside(idOf, t, targets, n) ==> n.ep in added)
            && (targets == [] ==> (added == [] <==> forall n :: !Stored(t, n)))
  {
    var added := CollectEndpoints(idOf, self, t, NO_ENDPOINT, need, targets);
    CollectEndpointsSound(idOf, self, t, NO_ENDPOINT, need, targets);
    if |added| < need {
      forall n | StoredBeside(idOf, t, targets, n) ensures n.ep in added {
        CollectEndpointsComplete(idOf, self, t, NO_ENDPOINT, need, targets, n);
      }
    }
    if added != [] {
      assert HasEndpoint(t, added[0]);
      var s, n :| 0 <= s < K_BUCKET_COUNT && n in t[s] && n.ep == added[0];
      assert Stored(t, n);
    } else if targets == [] {
      forall n ensures !Stored(t, n) {
        assert Stored(t, n) ==> StoredBeside(idOf, t, targets, n);
      }
    }
  }

  /** Exactly when distinct targets still make a list with repeats, where some request can never be answered: the
      search around the empty endpoint meets the table's own id, and slot 0 offers something but too little. */
  lemma AskedTwiceExactlyWhen(idOf: IdOf, self: NodeId, t: Table, targets: seq<Endpoint>, reliability: nat)
    requires WellMade(idOf, t) && GoodTable(self, t) && NoRepeats(targets)
    ensures NoRepeats(RequestNodes(idOf, self, t, targets, reliability)) <==>
            !(idOf(NO_ENDPOINT) == self &&
                0 < |Kept(Reversed(t[0]), NodesOf(idOf, targets))| < Missing(targets, reliability))
  {
    var missing := Missing(targets, reliability);
    if missing > 0 {
      var added := CollectEndpoints(idOf, self, t, NO_ENDPOINT, missing, targets);
      CollectEndpointsSound(idOf, self, t, NO_ENDPOINT, missing, targets);
      CollectEndpointsRepeatExactlyWhen(idOf, self, t, NO_ENDPOINT, missing, targets);
      AppendNoRepeats(targets, added);
    }
  }

  lemma AppendNoRepeats(a: seq<Endpoint>, b: seq<Endpoint>)
    requires NoRepeats(a) && forall x :: x in b ==> x !in a
    ensures NoRepeats(a + b) <==> NoRepeats(b)
  {
    if NoRepeats(a + b) {
      forall i, j | 0 <= i < j < |b| ensures b[i] != b[j] {
        assert (a + b)[|a| + i] == b[i] && (a + b)[|a| + j] == b[j];
      }
    }
    assert forall i :: 0 <= i < |b| ==> b[i] in b;
  }

  lemma OneMoreRequested(nodes: seq<Endpoint>, i: nat)
    requires i < |nodes|
    ensures Requested(nodes[..i + 1]) == Requested(nodes[..i]) + [Answer(nodes[i], None)]
    ensures nodes[..i + 1] == nodes[..i] + [nodes[i]]
  {
  }

  class StunServer {
    const controller: DirectRoutingTableController
    var sent: seq<Endpoint>    // whom binding requests were sent to

    constructor (controller: DirectRoutingTableController)
      ensures this.controller == controller && sent == []
    {
      this.controller := controller;
      sent := [];
    }

    /** With nobody to ask there is no observer, and the object stays not found. */
    method BindingRequest(targets: seq<Endpoint>, reliability: nat) returns (sr: SrObject, request: BindingRequest?)
      requires controller.routingTable.Valid()
      modifies this`sent
      ensures var nodes := RequestNodes(controller.idOf, controller.routingTable.selfId,
                                        controller.routingTable.Contents(), targets, reliability);
              && sent == old(sent) + nodes
              && (request == null <==> nodes == [])
              && (request == null ==> sr.Value() == Sr(NotFound, NO_ENDPOINT, false))
              && (request != null ==> request.sr == sr && request.State() == Start(nodes))
    {
      var requestNodes := Targets(targets, reliability);
      sr, request := Ask(requestNodes);
    }

    method Ask(requestNodes: seq<Endpoint>) returns (sr: SrObject, request: BindingRequest?)
      modifies this`sent
      ensures sent == old(sent) + requestNodes
      ensures request == null <==> requestNodes == []
      ensures request == null ==> sr.Value() == Sr(NotFound, NO_ENDPOINT, false)
      ensures request != null ==> request.sr == sr && request.State() == Start(requestNodes)
    {
      sr := new SrObject();
      if requestNodes == [] { return sr, null; }
      var r := new BindingRequest(sr);
      SendRequests(requestNodes, r);
      request := r;
    }

    /** Each node is sent a request and entered in the observer. */
    method SendRequests(requestNodes: seq<Endpoint>, r: BindingRequest)
      requires r.State() == Start([])
      modifies this`sent, r
      ensures sent == old(sent) + requestNodes && r.State() == Start(requestNodes)
    {
      for i := 0 to |requestNodes|
        invariant r.State() == Start(requestNodes[..i])
        invariant sent == old(sent) + requestNodes[..i]
      {
        sent := sent + [requestNodes[i]];
        r.AddRequestedEp(requestNodes[i]);
        OneMoreRequested(requestNodes, i);
      }
      assert requestNodes[..|requestNodes|] == requestNodes;
    }

    method Targets(targets: seq<Endpoint>, reliability: nat) returns (requestNodes: seq<Endpoint>)
      requires controller.routingTable.Valid()
      ensures requestNodes == RequestNodes(controller.idOf, controller.routingTable.selfId,
                                           controller.routingTable.Contents(), targets, reliability)
    {
      requestNodes := targets;
      var missing := Missing(targets, reliability);
      if missing > 0 {
        var collectedNodes := controller.CollectEndpoint(NO_ENDPOINT, missing, targets);
        requestNodes := requestNodes + collectedNodes;
      }
    }
  }
}
