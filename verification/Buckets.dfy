/** Endpoints and routing-table entries (src/ss_p2p/kademlia/k_node.cpp). */
module Nodes {
  import opened NodeIds
  import opened Utils

  /** An IPv4 UDP endpoint: a 32-bit address and a 16-bit port. */
  datatype Endpoint = Endpoint(address: nat, port: nat) {
    predicate IsLoopback() {
      address / 0x100_0000 == 127
    }
  }

  /** An entry; the source's `operator==` compares ids only. */
  datatype KNode = KNode(ep: Endpoint, id: NodeId)

  /** Position of the first entry with this id, or `|nodes|` when there is none. */
  function FindNode(nodes: seq<KNode>, id: NodeId): (i: nat)
    ensures i <= |nodes|
    ensures i < |nodes| ==> nodes[i].id == id
    ensures forall j :: 0 <= j < i ==> nodes[j].id != id
  {
    FirstIndex(nodes, (n: KNode) => n.id == id)
  }

  predicate Contains(nodes: seq<KNode>, id: NodeId) {
    FindNode(nodes, id) < |nodes|
  }

  lemma ContainsIff(nodes: seq<KNode>, id: NodeId)
    ensures Contains(nodes, id) <==> exists n :: n in nodes && n.id == id
    ensures Contains(nodes, id) <==> id in Ids(nodes)
  {
    var i := FindNode(nodes, id);
    if i < |nodes| {
      assert nodes[i] in nodes;
    }
  }

  ghost predicate DistinctIds(nodes: seq<KNode>) {
    forall i, j :: 0 <= i < j < |nodes| ==> nodes[i].id != nodes[j].id
  }

  ghost function Ids(nodes: seq<KNode>): set<NodeId> {
    set n | n in nodes :: n.id
  }

  lemma {:induction false} DistinctIdsCount(nodes: seq<KNode>)
    requires DistinctIds(nodes)
    ensures |Ids(nodes)| == |nodes|
  {
    if nodes != [] {
      var rest := nodes[1..];
      DistinctIdsCount(rest);
      assert nodes == [nodes[0]] + rest;
      assert Ids(nodes) == {nodes[0].id} + Ids(rest);
      assert nodes[0].id !in Ids(rest);
    }
  }
}

/** One k-bucket (src/ss_p2p/kademlia/k_bucket.cpp). */
module Buckets {
  import opened Utils
  import opened NodeIds
  import opened Nodes
  import opened SearchOrder

  const DEFAULT_K: nat := 4

  datatype UpdateState = AddedBack | MovedBack | Overflow

  // ---------------------------------------------------------------- what the operations compute

  /** The stored entry with this id, if any, goes to the back; the order of the rest is kept. */
  function MoveToBack(nodes: seq<KNode>, id: NodeId): seq<KNode> {
    var i := FindNode(nodes, id);
    if i == |nodes| then nodes else nodes[..i] + nodes[i + 1..] + [nodes[i]]
  }

  function Without(nodes: seq<KNode>, id: NodeId): seq<KNode> {
    var i := FindNode(nodes, id);
    if i == |nodes| then nodes else nodes[..i] + nodes[i + 1..]
  }

  function Updated(nodes: seq<KNode>, kn: KNode): (seq<KNode>, UpdateState) {
    if Contains(nodes, kn.id) then (MoveToBack(nodes, kn.id), MovedBack)
    else if |nodes| >= DEFAULT_K then (nodes, Overflow)
    else (nodes + [kn], AddedBack)
  }

  function Reversed(nodes: seq<KNode>): (r: seq<KNode>)
    ensures |r| == |nodes|
    ensures forall i :: 0 <= i < |nodes| ==> r[i] == nodes[|nodes| - 1 - i]
  {
    if nodes == [] then [] else Reversed(nodes[1..]) + [nodes[0]]
  }

  /** The entries that are not on the ignore list, in order. */
  function Kept(nodes: seq<KNode>, ignore: seq<KNode>): (r: seq<KNode>)
    ensures |r| <= |nodes|
  {
    if nodes == [] then []
    else if Contains(ignore, nodes[0].id) then Kept(nodes[1..], ignore)
    else [nodes[0]] + Kept(nodes[1..], ignore)
  }

  function FrontNodes(nodes: seq<KNode>, count: nat, ignore: seq<KNode>): seq<KNode> {
    PushThenTest(Kept(nodes, ignore), count)
  }

  function BackNodes(nodes: seq<KNode>, count: nat, ignore: seq<KNode>): seq<KNode> {
    PushThenTest(Kept(Reversed(nodes), ignore), count)
  }

  lemma {:induction false} KeptMembers(nodes: seq<KNode>, ignore: seq<KNode>)
    ensures forall n :: n in Kept(nodes, ignore) <==> n in nodes && !Contains(ignore, n.id)
  {
    if nodes != [] {
      KeptMembers(nodes[1..], ignore);
      assert nodes == [nodes[0]] + nodes[1..];
    }
  }

  lemma KeptStep(n: KNode, rest: seq<KNode>, ignore: seq<KNode>)
    ensures Kept([n] + rest, ignore) == (if Contains(ignore, n.id) then [] else [n]) + Kept(rest, ignore)
  {
    assert ([n] + rest)[1..] == rest;
  }

  lemma {:induction false} KeptConcat(a: seq<KNode>, b: seq<KNode>, ignore: seq<KNode>)
    ensures Kept(a + b, ignore) == Kept(a, ignore) + Kept(b, ignore)
  {
    if a == [] {
      assert a + b == b;
    } else {
      var n, rest := a[0], a[1..];
      KeptConcat(rest, b, ignore);
      KeptStep(n, rest, ignore);
      KeptStep(n, rest + b, ignore);
      assert a == [n] + rest;
      ConcatAssociates([n], rest, b);
      ConcatAssociates(if Contains(ignore, n.id) then [] else [n], Kept(rest, ignore), Kept(b, ignore));
    }
  }

  lemma {:induction false} KeptDistinct(nodes: seq<KNode>, ignore: seq<KNode>)
    requires DistinctIds(nodes)
    ensures DistinctIds(Kept(nodes, ignore))
  {
    if nodes != [] {
      KeptDistinct(nodes[1..], ignore);
      KeptMembers(nodes[1..], ignore);
    }
  }

  // ---------------------------------------------------------------- any order of the entries

  ghost predicate InOrder(prior: (KNode, KNode) -> bool, nodes: seq<KNode>) {
    forall i, j :: 0 <= i < j < |nodes| ==> prior(nodes[i], nodes[j])
  }

  /** Skipping ignored entries keeps the order. */
  lemma {:induction false} KeptInOrder(prior: (KNode, KNode) -> bool, nodes: seq<KNode>, ignore: seq<KNode>)
    requires InOrder(prior, nodes)
    ensures InOrder(prior, Kept(nodes, ignore))
  {
    if nodes != [] {
      var rest := nodes[1..];
      KeptInOrder(prior, rest, ignore);
      KeptMembers(rest, ignore);
      forall n | n in Kept(rest, ignore) ensures prior(nodes[0], n) {
        var j :| 0 <= j < |rest| && rest[j] == n;
        assert nodes[j + 1] == n;
      }
    }
  }

  /** What a prefix leaves out comes after all it has. */
  lemma PrefixInOrder(prior: (KNode, KNode) -> bool, nodes: seq<KNode>, front: seq<KNode>)
    requires InOrder(prior, nodes) && front <= nodes
    ensures InOrder(prior, front)
    ensures forall n, m :: n in front && m in nodes && m !in front ==> prior(n, m)
  {
    assert forall i :: 0 <= i < |front| ==> front[i] == nodes[i] && nodes[i] in front;
  }

  lemma ReversedDistinct(nodes: seq<KNode>)
    requires DistinctIds(nodes)
    ensures DistinctIds(Reversed(nodes))
  {
    var r := Reversed(nodes);
    forall i, j | 0 <= i < j < |r| ensures r[i].id != r[j].id {
      assert r[i] == nodes[|nodes| - 1 - i] && r[j] == nodes[|nodes| - 1 - j];
    }
  }

  lemma ReversedMembers(nodes: seq<KNode>)
    ensures forall n :: n in Reversed(nodes) <==> n in nodes
  {
    forall n | n in nodes ensures n in Reversed(nodes) {
      var i :| 0 <= i < |nodes| && nodes[i] == n;
      assert Reversed(nodes)[|nodes| - 1 - i] == n;
    }
  }

  /** The most recent first: what is skipped between two returned entries was on the ignore list. */
  lemma KeptPrefix(nodes: seq<KNode>, ignore: seq<KNode>, n: nat)
    requires n < |nodes|
    ensures Kept(nodes[..n + 1], ignore) ==
            Kept(nodes[..n], ignore) + if Contains(ignore, nodes[n].id) then [] else [nodes[n]]
    ensures Kept(nodes[..n], ignore) <= Kept(nodes, ignore)
    ensures Kept(nodes[..n + 1], ignore) <= Kept(nodes, ignore)
  {
    assert nodes[..n + 1] == nodes[..n] + [nodes[n]];
    KeptConcat(nodes[..n], [nodes[n]], ignore);
    assert nodes == nodes[..n] + nodes[n..] == nodes[..n + 1] + nodes[n + 1..];
    KeptConcat(nodes[..n], nodes[n..], ignore);
    KeptConcat(nodes[..n + 1], nodes[n + 1..], ignore);
  }

  lemma SplitDistinct(a: seq<KNode>, x: KNode, b: seq<KNode>)
    requires DistinctIds(a + [x] + b)
    ensures DistinctIds(a + b)
    ensures forall n :: n in a + b ==> n.id != x.id
  {
    var s, r := a + [x] + b, a + b;
    assert s[|a|] == x;
    forall i, j | 0 <= i < j < |r| ensures r[i].id != r[j].id {
      var i' := if i < |a| then i else i + 1;
      var j' := if j < |a| then j else j + 1;
      assert r[i] == s[i'] && r[j] == s[j'];
    }
    forall n | n in r ensures n.id != x.id {
      var i :| 0 <= i < |r| && r[i] == n;
      assert s[if i < |a| then i else i + 1] == n;
    }
  }

  lemma AppendDistinct(a: seq<KNode>, x: KNode)
    requires DistinctIds(a)
    requires forall n :: n in a ==> n.id != x.id
    ensures DistinctIds(a + [x])
  {
  }

  /** Moving to the back only permutes, and puts the entry last. */
  lemma MoveToBackPermutes(nodes: seq<KNode>, id: NodeId)
    requires DistinctIds(nodes)
    ensures |MoveToBack(nodes, id)| == |nodes|
    ensures DistinctIds(MoveToBack(nodes, id))
    ensures forall n :: n in MoveToBack(nodes, id) <==> n in nodes
    ensures Contains(nodes, id) ==> MoveToBack(nodes, id)[|nodes| - 1].id == id
  {
    var i := FindNode(nodes, id);
    if i < |nodes| {
      var a, x, b := nodes[..i], nodes[i], nodes[i + 1..];
      assert nodes == a + [x] + b;
      SplitDistinct(a, x, b);
      AppendDistinct(a + b, x);
    }
  }

  /** Deleting removes that id and nothing else. */
  lemma WithoutRemoves(nodes: seq<KNode>, id: NodeId)
    requires DistinctIds(nodes)
    ensures DistinctIds(Without(nodes, id))
    ensures forall n :: n in Without(nodes, id) <==> n in nodes && n.id != id
  {
    var i := FindNode(nodes, id);
    ContainsIff(nodes, id);
    if i < |nodes| {
      var a, x, b := nodes[..i], nodes[i], nodes[i + 1..];
      assert nodes == a + [x] + b;
      SplitDistinct(a, x, b);
    }
  }

  // ---------------------------------------------------------------- the class

  class KBucket {
    var nodes: seq<KNode>

    constructor ()
      ensures nodes == []
    {
      nodes := [];
    }

    predicate IsExist(kn: KNode)
      reads this
    {
      Contains(nodes, kn.id)
    }

    predicate IsFull()
      reads this
    {
      |nodes| >= DEFAULT_K
    }

    method AddBack(kn: KNode)
      modifies this
      ensures nodes ==
              if |old(nodes)| >= DEFAULT_K || Contains(old(nodes), kn.id) then old(nodes) else old(nodes) + [kn]
    {
      if IsFull() { return; }
      if IsExist(kn) { return; }
      nodes := nodes + [kn];
    }

    method MoveBack(kn: KNode)
      modifies this
      ensures nodes == MoveToBack(old(nodes), kn.id)
    {
      var itr := FindNode(nodes, kn.id);
      if itr == |nodes| { return; }
      var target := nodes[itr];
      nodes := nodes[..itr] + nodes[itr + 1..];
      nodes := nodes + [target];
    }

    method DeleteNode(kn: KNode)
      modifies this
      ensures nodes == Without(old(nodes), kn.id)
    {
      var itr := FindNode(nodes, kn.id);
      if itr == |nodes| { return; }
      nodes := nodes[..itr] + nodes[itr + 1..];
    }

    method AutoUpdate(kn: KNode) returns (state: UpdateState)
      modifies this
      ensures (nodes, state) == Updated(old(nodes), kn)
    {
      if IsExist(kn) {
        MoveBack(kn);
        state := MovedBack;
      } else if IsFull() {
        state := Overflow;
      } else {
        AddBack(kn);
        state := AddedBack;
      }
    }

    method GetNodeFront(count: nat, ignore: seq<KNode>) returns (ret: seq<KNode>)
      ensures ret == FrontNodes(nodes, count, ignore)
    {
      ret := [];
      var i := 0;
      while i < |nodes|
        invariant 0 <= i <= |nodes|
        invariant ret == Kept(nodes[..i], ignore)
        invariant |ret| < count || ret == []
      {
        KeptPrefix(nodes, ignore, i);
        if !Contains(ignore, nodes[i].id) {
          ret := ret + [nodes[i]];
          if |ret| >= count {
            return;
          }
        }
        i := i + 1;
      }
      assert nodes[..i] == nodes;
    }

    method GetNodeBack(count: nat, ignore: seq<KNode>) returns (ret: seq<KNode>)
      ensures ret == BackNodes(nodes, count, ignore)
    {
      ret := [];
      ghost var back := Reversed(nodes);
      var i := 0;
      while i < |nodes|
        invariant 0 <= i <= |nodes|
        invariant ret == Kept(back[..i], ignore)
        invariant |ret| < count || ret == []
      {
        var node := nodes[|nodes| - 1 - i];
        assert node == back[i];
        KeptPrefix(back, ignore, i);
        if !Contains(ignore, node.id) {
          ret := ret + [node];
          if |ret| >= count {
            return;
          }
        }
        i := i + 1;
      }
      assert back[..i] == back;
    }
  }
}
