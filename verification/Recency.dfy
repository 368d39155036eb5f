/** What `get_node_back` returns over every run: the most recently touched first
    (src/ss_p2p/kademlia/k_bucket.cpp). */
module Recency {
  import opened NodeIds
  import opened Nodes
  import opened SearchOrder
  import opened Buckets
  import opened Tables

  /** `a` was touched later than `b`, or neither was touched in this run. */
  predicate MoreRecent(self: NodeId, ops: seq<TableOp>, s: nat, a: KNode, b: KNode) {
    var x, y := LastTouch(self, ops, s, a.id), LastTouch(self, ops, s, b.id);
    x > y || x == y == -1
  }

  ghost predicate LatestFirst(self: NodeId, ops: seq<TableOp>, s: nat, nodes: seq<KNode>) {
    forall i, j :: 0 <= i < j < |nodes| ==> MoreRecent(self, ops, s, nodes[i], nodes[j])
  }

  lemma ReversedLatestFirst(self: NodeId, ops: seq<TableOp>, s: nat, nodes: seq<KNode>)
    requires ByLastTouch(self, ops, s, nodes)
    ensures LatestFirst(self, ops, s, Reversed(nodes))
  {
    var r := Reversed(nodes);
    forall i, j | 0 <= i < j < |r| ensures MoreRecent(self, ops, s, r[i], r[j]) {
      assert r[i] == nodes[|nodes| - 1 - i] && r[j] == nodes[|nodes| - 1 - j];
    }
  }

  lemma KeptLatestFirst(self: NodeId, ops: seq<TableOp>, s: nat, nodes: seq<KNode>, ignore: seq<KNode>)
    requires LatestFirst(self, ops, s, nodes)
    ensures LatestFirst(self, ops, s, Kept(nodes, ignore))
  {
    var prior := (a: KNode, b: KNode) => MoreRecent(self, ops, s, a, b);
    assert InOrder(prior, nodes);
    KeptInOrder(prior, nodes, ignore);
  }

  /** Over every run: the entries come latest touch first, and one that would have qualified but was left out
      was touched no later than any that is returned. */
  lemma BackIsMostRecent(self: NodeId, t: Table, ops: seq<TableOp>, s: nat, count: nat, ignore: seq<KNode>)
    requires GoodTable(self, t) && s < K_BUCKET_COUNT
    ensures var nodes := Run(self, t, ops)[s];
            var back := BackNodes(nodes, count, ignore);
            && LatestFirst(self, ops, s, back)
            && forall n, m :: n in back && m in nodes && !Contains(ignore, m.id) && m !in back ==>
                 MoreRecent(self, ops, s, n, m)
  {
    var nodes := Run(self, t, ops)[s];
    var kept := Kept(Reversed(nodes), ignore);
    RecencyOrder(self, t, ops, s);
    ReversedLatestFirst(self, ops, s, nodes);
    KeptLatestFirst(self, ops, s, Reversed(nodes), ignore);
    KeptMembers(Reversed(nodes), ignore);
    ReversedMembers(nodes);
    PrefixMoreRecent(self, ops, s, kept, PushThenTest(kept, count));
  }

  lemma PrefixMoreRecent(self: NodeId, ops: seq<TableOp>, s: nat, kept: seq<KNode>, back: seq<KNode>)
    requires LatestFirst(self, ops, s, kept) && back <= kept
    ensures LatestFirst(self, ops, s, back)
    ensures forall n, m :: n in back && m in kept && m !in back ==> MoreRecent(self, ops, s, n, m)
  {
    var prior := (a: KNode, b: KNode) => MoreRecent(self, ops, s, a, b);
    PrefixInOrder(prior, kept, back);
    forall n, m | n in back && m in kept && m !in back ensures MoreRecent(self, ops, s, n, m) {
      assert prior(n, m);
    }
  }

  // ---------------------------------------------------------------- the other end

  /** `get_node_front` gives the reverse: earliest touch first, and one that would have qualified but was left out was
      touched no earlier than any that is returned. */
  lemma FrontIsOldest(self: NodeId, t: Table, ops: seq<TableOp>, s: nat, count: nat, ignore: seq<KNode>)
    requires GoodTable(self, t) && s < K_BUCKET_COUNT
    ensures var nodes := Run(self, t, ops)[s];
            var front := FrontNodes(nodes, count, ignore);
            && ByLastTouch(self, ops, s, front)
            && (forall n :: n in front ==> n in nodes && !Contains(ignore, n.id))
            && forall n, m :: n in front && m in nodes && !Contains(ignore, m.id) && m !in front ==>
                 MoreRecent(self, ops, s, m, n)
  {
    var nodes := Run(self, t, ops)[s];
    var kept := Kept(nodes, ignore);
    RecencyOrder(self, t, ops, s);
    KeptMembers(nodes, ignore);
    var prior := (a: KNode, b: KNode) => MoreRecent(self, ops, s, b, a);
    assert InOrder(prior, nodes);
    KeptInOrder(prior, nodes, ignore);
    PrefixInOrder(prior, kept, PushThenTest(kept, count));
    InPrefix(PushThenTest(kept, count), kept);
    forall n, m | n in PushThenTest(kept, count) && m in kept && m !in PushThenTest(kept, count)
      ensures MoreRecent(self, ops, s, m, n)
    {
      assert prior(n, m);
    }
  }
}
