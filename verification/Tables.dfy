/** The routing table as a value, and every run of the operations that change it. */
module Tables {
  import opened NodeIds
  import opened Nodes
  import opened Buckets

  const K_BUCKET_COUNT: nat := 160

  type Table = t: seq<seq<KNode>> | |t| == K_BUCKET_COUNT witness seq(K_BUCKET_COUNT, _ => [])

  const EMPTY_TABLE: Table := seq(K_BUCKET_COUNT, _ => [])

  /** The slot of a branch; branches 0 (the table's own id) and 1 share slot 0. */
  function Slot(branch: int): (s: nat)
    requires branch <= K_BUCKET_COUNT
    ensures s < K_BUCKET_COUNT
  {
    if branch - 1 > 0 then branch - 1 else 0
  }

  function SlotOf(self: NodeId, id: NodeId): (s: nat)
    ensures s < K_BUCKET_COUNT
  {
    Slot(Distance(self, id))
  }

  /** What every reachable table satisfies: capacity, distinct ids, and placement by branch. */
  ghost predicate GoodBucket(self: NodeId, nodes: seq<KNode>, s: nat) {
    && |nodes| <= DEFAULT_K
    && DistinctIds(nodes)
    && forall n :: n in nodes ==> SlotOf(self, n.id) == s
  }

  ghost predicate GoodTable(self: NodeId, t: Table) {
    forall s :: 0 <= s < K_BUCKET_COUNT ==> GoodBucket(self, t[s], s)
  }

  /** Nodes arrive by `Update`; the callbacks of a refresh ping hold a bucket and a node. */
  datatype TableOp =
    | Update(node: KNode)
    | Pong(slot: nat, node: KNode)
    | Timeout(slot: nat, node: KNode)

  function Apply(self: NodeId, t: Table, op: TableOp): Table {
    match op
    case Update(n) =>
      var s := SlotOf(self, n.id);
      t[s := Updated(t[s], n).0]
    case Pong(s, n) =>
      if s < K_BUCKET_COUNT then t[s := MoveToBack(t[s], n.id)] else t
    case Timeout(s, n) =>
      if s < K_BUCKET_COUNT then t[s := Without(t[s], n.id)] else t
  }

  function Run(self: NodeId, t: Table, ops: seq<TableOp>): Table {
    if ops == [] then t else Apply(self, Run(self, t, ops[..|ops| - 1]), ops[|ops| - 1])
  }

  // ---------------------------------------------------------------- one step

  /** What a step does to one bucket. */
  function BucketAfter(self: NodeId, s: nat, nodes: seq<KNode>, op: TableOp): seq<KNode> {
    match op
    case Update(n) => if SlotOf(self, n.id) == s then Updated(nodes, n).0 else nodes
    case Pong(slot, n) => if slot == s then MoveToBack(nodes, n.id) else nodes
    case Timeout(slot, n) => if slot == s then Without(nodes, n.id) else nodes
  }

  lemma ApplyAt(self: NodeId, t: Table, op: TableOp, s: nat)
    requires s < K_BUCKET_COUNT
    ensures Apply(self, t, op)[s] == BucketAfter(self, s, t[s], op)
  {
  }

  /** Exactly which ids a bucket holds after a step: a node leaves only by its own timeout, and a
      full bucket gains nothing. */
  lemma BucketMembership(self: NodeId, s: nat, nodes: seq<KNode>, op: TableOp, id: NodeId)
    requires GoodBucket(self, nodes, s)
    ensures Contains(BucketAfter(self, s, nodes, op), id) <==>
              || (Contains(nodes, id) && !(op.Timeout? && op.slot == s && op.node.id == id))
              || (op.Update? && op.node.id == id && SlotOf(self, id) == s && |nodes| < 4)
  {
    var after := BucketAfter(self, s, nodes, op);
    MoveToBackPermutes(nodes, op.node.id);
    WithoutRemoves(nodes, op.node.id);
    ContainsIff(nodes, id);
    ContainsIff(after, id);
    if after == nodes + [op.node] {
      assert forall n :: n in after <==> n in nodes || n == op.node;
    }
  }

  lemma BucketStaysGood(self: NodeId, s: nat, nodes: seq<KNode>, op: TableOp)
    requires GoodBucket(self, nodes, s)
    ensures GoodBucket(self, BucketAfter(self, s, nodes, op), s)
  {
    MoveToBackPermutes(nodes, op.node.id);
    WithoutRemoves(nodes, op.node.id);
    ContainsIff(nodes, op.node.id);
    if !Contains(nodes, op.node.id) {
      AppendDistinct(nodes, op.node);
    }
  }

  lemma StepKeepsGood(self: NodeId, t: Table, op: TableOp)
    requires GoodTable(self, t)
    ensures GoodTable(self, Apply(self, t, op))
  {
    forall s: nat | s < K_BUCKET_COUNT ensures GoodBucket(self, Apply(self, t, op)[s], s) {
      ApplyAt(self, t, op, s);
      BucketStaysGood(self, s, t[s], op);
    }
  }

  // ---------------------------------------------------------------- every run

  /** Capacity, distinctness and placement hold after every sequence of operations. */
  lemma {:induction false} RunKeepsGood(self: NodeId, t: Table, ops: seq<TableOp>)
    requires GoodTable(self, t)
    ensures GoodTable(self, Run(self, t, ops))
    decreases |ops|
  {
    if ops != [] {
      RunKeepsGood(self, t, ops[..|ops| - 1]);
      StepKeepsGood(self, Run(self, t, ops[..|ops| - 1]), ops[|ops| - 1]);
    }
  }

  predicate Touches(self: NodeId, op: TableOp, s: nat, id: NodeId) {
    match op
    case Update(n) => n.id == id && SlotOf(self, id) == s
    case Pong(slot, n) => slot == s && n.id == id
    case Timeout(_, _) => false
  }

  /** Index of the last operation that saw `id` in slot `s`, or -1. */
  function LastTouch(self: NodeId, ops: seq<TableOp>, s: nat, id: NodeId): (k: int)
    ensures -1 <= k < |ops|
    decreases |ops|
  {
    if ops == [] then -1
    else if Touches(self, ops[|ops| - 1], s, id) then |ops| - 1
    else LastTouch(self, ops[..|ops| - 1], s, id)
  }

  /** Bucket order is recency order over every run: the entry further back was touched later. */
  ghost predicate ByLastTouch(self: NodeId, ops: seq<TableOp>, s: nat, nodes: seq<KNode>) {
    forall i, j :: 0 <= i < j < |nodes| ==>
      || LastTouch(self, ops, s, nodes[i].id) < LastTouch(self, ops, s, nodes[j].id)
      || LastTouch(self, ops, s, nodes[i].id) == LastTouch(self, ops, s, nodes[j].id) == -1
  }

  lemma {:induction false} RecencyOrder(self: NodeId, t: Table, ops: seq<TableOp>, s: nat)
    requires GoodTable(self, t) && s < K_BUCKET_COUNT
    ensures ByLastTouch(self, ops, s, Run(self, t, ops)[s])
    decreases |ops|
  {
    if ops != [] {
      var front, op := ops[..|ops| - 1], ops[|ops| - 1];
      assert ops == front + [op];
      RecencyOrder(self, t, front, s);
      RunKeepsGood(self, t, front);
      RecencyOfRun(self, Run(self, t, front), front, op, s);
    }
  }

  lemma RecencyOfRun(self: NodeId, mid: Table, front: seq<TableOp>, op: TableOp, s: nat)
    requires GoodTable(self, mid) && s < K_BUCKET_COUNT && ByLastTouch(self, front, s, mid[s])
    ensures ByLastTouch(self, front + [op], s, Apply(self, mid, op)[s])
  {
    ApplyAt(self, mid, op, s);
    RecencyStep(self, s, mid[s], front, op);
  }

  lemma RecencyStep(self: NodeId, s: nat, nodes: seq<KNode>, front: seq<TableOp>, op: TableOp)
    requires GoodBucket(self, nodes, s)
    requires ByLastTouch(self, front, s, nodes)
    ensures ByLastTouch(self, front + [op], s, BucketAfter(self, s, nodes, op))
  {
    if Contains(nodes, op.node.id) {
      RecencyStepStored(self, s, nodes, front, op);
    } else {
      ContainsIff(nodes, op.node.id);
      OthersKeepTouch(self, front, op, s, nodes);
      if Touches(self, op, s, op.node.id) {
        LatestLast(self, front, op, s, nodes, op.node);
      }
    }
  }

  lemma RecencyStepStored(self: NodeId, s: nat, nodes: seq<KNode>, front: seq<TableOp>, op: TableOp)
    requires GoodBucket(self, nodes, s) && Contains(nodes, op.node.id)
    requires ByLastTouch(self, front, s, nodes)
    ensures ByLastTouch(self, front + [op], s, BucketAfter(self, s, nodes, op))
  {
    var i := FindNode(nodes, op.node.id);
    var a, x, b := nodes[..i], nodes[i], nodes[i + 1..];
    assert nodes == a + [x] + b;
    RecencySplit(self, s, a, x, b, front, op);
    AfterSplit(self, s, nodes, op, i);
  }

  /** What becomes of a bucket in which the operation's node stands at position `i`. */
  lemma AfterSplit(self: NodeId, s: nat, nodes: seq<KNode>, op: TableOp, i: nat)
    requires i == FindNode(nodes, op.node.id) && i < |nodes|
    ensures BucketAfter(self, s, nodes, op) ==
            if Touches(self, op, s, nodes[i].id) then nodes[..i] + nodes[i + 1..] + [nodes[i]]
            else if op.Timeout? && op.slot == s then nodes[..i] + nodes[i + 1..]
            else nodes
  {
  }

  lemma RecencySplit(self: NodeId, s: nat, a: seq<KNode>, x: KNode, b: seq<KNode>, front: seq<TableOp>, op: TableOp)
    requires DistinctIds(a + [x] + b) && x.id == op.node.id
    requires ByLastTouch(self, front, s, a + [x] + b)
    ensures ByLastTouch(self, front + [op], s, a + b)
    ensures Touches(self, op, s, x.id) ==> ByLastTouch(self, front + [op], s, a + b + [x])
    ensures !Touches(self, op, s, x.id) ==> ByLastTouch(self, front + [op], s, a + [x] + b)
  {
    SplitDistinct(a, x, b);
    SubTouch(self, front, s, a, x, b);
    OthersKeepTouch(self, front, op, s, a + b);
    if Touches(self, op, s, x.id) {
      LatestLast(self, front, op, s, a + b, x);
    } else {
      assert (front + [op])[..|front|] == front;
    }
  }

  lemma SubTouch(self: NodeId, ops: seq<TableOp>, s: nat, a: seq<KNode>, x: KNode, b: seq<KNode>)
    requires ByLastTouch(self, ops, s, a + [x] + b)
    ensures ByLastTouch(self, ops, s, a + b)
  {
    var whole, r := a + [x] + b, a + b;
    forall i, j | 0 <= i < j < |r|
      ensures || LastTouch(self, ops, s, r[i].id) < LastTouch(self, ops, s, r[j].id)
              || LastTouch(self, ops, s, r[i].id) == LastTouch(self, ops, s, r[j].id) == -1
    {
      var i' := if i < |a| then i else i + 1;
      var j' := if j < |a| then j else j + 1;
      assert r[i] == whole[i'] && r[j] == whole[j'];
    }
  }

  lemma OthersKeepTouch(self: NodeId, front: seq<TableOp>, op: TableOp, s: nat, nodes: seq<KNode>)
    requires ByLastTouch(self, front, s, nodes)
    requires forall n :: n in nodes ==> n.id != op.node.id
    ensures ByLastTouch(self, front + [op], s, nodes)
  {
    assert (front + [op])[..|front|] == front;
    forall k | 0 <= k < |nodes|
      ensures LastTouch(self, front + [op], s, nodes[k].id) == LastTouch(self, front, s, nodes[k].id)
    {
      assert nodes[k] in nodes;
    }
  }

  lemma LatestLast(self: NodeId, front: seq<TableOp>, op: TableOp, s: nat, nodes: seq<KNode>, x: KNode)
    requires ByLastTouch(self, front + [op], s, nodes)
    requires forall n :: n in nodes ==> n.id != op.node.id
    requires x.id == op.node.id && Touches(self, op, s, x.id)
    ensures ByLastTouch(self, front + [op], s, nodes + [x])
  {
    assert (front + [op])[..|front|] == front;
    forall k | 0 <= k < |nodes|
      ensures LastTouch(self, front + [op], s, nodes[k].id) < LastTouch(self, front + [op], s, x.id)
    {
      assert nodes[k] in nodes;
    }
  }

  /** From an empty table every stored node has been touched, so the order is strict. */
  lemma {:induction false} StoredWasTouched(self: NodeId, ops: seq<TableOp>, s: nat, id: NodeId)
    requires s < K_BUCKET_COUNT
    requires Contains(Run(self, EMPTY_TABLE, ops)[s], id)
    ensures LastTouch(self, ops, s, id) >= 0
    decreases |ops|
  {
    if ops != [] {
      var front, op := ops[..|ops| - 1], ops[|ops| - 1];
      RunKeepsGood(self, EMPTY_TABLE, front);
      ApplyAt(self, Run(self, EMPTY_TABLE, front), op, s);
      BucketMembership(self, s, Run(self, EMPTY_TABLE, front)[s], op, id);
      if !Touches(self, op, s, id) {
        StoredWasTouched(self, front, s, id);
      }
    }
  }

  // ---------------------------------------------------------------- runs of pongs and timeouts alone

  ghost predicate NoUpdates(ops: seq<TableOp>) {
    forall op :: op in ops ==> !op.Update?
  }

  ghost predicate TimedOut(ops: seq<TableOp>, s: nat, id: NodeId) {
    exists op :: op in ops && op.Timeout? && op.slot == s && op.node.id == id
  }

  /** Without new arrivals a bucket keeps exactly the nodes that did not time out: no pong, however
      late, brings one back. */
  lemma {:induction false} SurvivorsOfRun(self: NodeId, t: Table, ops: seq<TableOp>, s: nat, id: NodeId)
    requires GoodTable(self, t) && NoUpdates(ops) && s < K_BUCKET_COUNT
    ensures Contains(Run(self, t, ops)[s], id) <==> Contains(t[s], id) && !TimedOut(ops, s, id)
    decreases |ops|
  {
    if ops != [] {
      var front, op := ops[..|ops| - 1], ops[|ops| - 1];
      assert ops == front + [op];
      SurvivorsOfRun(self, t, front, s, id);
      RunKeepsGood(self, t, front);
      ApplyAt(self, Run(self, t, front), op, s);
      BucketMembership(self, s, Run(self, t, front)[s], op, id);
      assert op in ops;
      assert TimedOut(ops, s, id) <==> TimedOut(front, s, id) || (op.Timeout? && op.slot == s && op.node.id == id);
    }
  }

  lemma {:induction false} TouchedAtLeastOnce(self: NodeId, ops: seq<TableOp>, s: nat, id: NodeId, op: TableOp)
    requires op in ops && Touches(self, op, s, id)
    ensures LastTouch(self, ops, s, id) >= 0
    decreases |ops|
  {
    if !Touches(self, ops[|ops| - 1], s, id) {
      assert ops == ops[..|ops| - 1] + [ops[|ops| - 1]];
      TouchedAtLeastOnce(self, ops[..|ops| - 1], s, id, op);
    }
  }

  // ---------------------------------------------------------------- the table as one set

  function AllNodes(t: Table, n: nat): (r: seq<KNode>)
    requires n <= K_BUCKET_COUNT
  {
    if n == 0 then [] else AllNodes(t, n - 1) + t[n - 1]
  }

  function NodeCount(t: Table, n: nat): nat
    requires n <= K_BUCKET_COUNT
  {
    if n == 0 then 0 else NodeCount(t, n - 1) + |t[n - 1]|
  }

  lemma {:induction false} AllNodesMembers(t: Table, n: nat)
    requires n <= K_BUCKET_COUNT
    ensures forall k :: k in AllNodes(t, n) <==> exists s :: 0 <= s < n && k in t[s]
    ensures |AllNodes(t, n)| == NodeCount(t, n)
  {
    if n > 0 {
      AllNodesMembers(t, n - 1);
    }
  }

  lemma {:induction false} AllNodesDistinct(self: NodeId, t: Table, n: nat)
    requires GoodTable(self, t) && n <= K_BUCKET_COUNT
    ensures DistinctIds(AllNodes(t, n))
  {
    if n > 0 {
      AllNodesDistinct(self, t, n - 1);
      AllNodesMembers(t, n - 1);
      var before, here := AllNodes(t, n - 1), t[n - 1];
      assert GoodBucket(self, here, n - 1);
      forall a, b | a in before && b in here ensures a.id != b.id {
        var s :| 0 <= s < n - 1 && a in t[s];
        assert GoodBucket(self, t[s], s);
      }
    }
  }

  /** `get_node_count` is the number of distinct ids in the table. */
  lemma NodeCountIsIdCount(self: NodeId, t: Table)
    requires GoodTable(self, t)
    ensures NodeCount(t, K_BUCKET_COUNT) == |Ids(AllNodes(t, K_BUCKET_COUNT))|
  {
    AllNodesMembers(t, K_BUCKET_COUNT);
    AllNodesDistinct(self, t, K_BUCKET_COUNT);
    DistinctIdsCount(AllNodes(t, K_BUCKET_COUNT));
  }

  /** Looking in one bucket is looking in the whole table. */
  lemma OneBucketLookup(self: NodeId, t: Table, id: NodeId)
    requires GoodTable(self, t)
    ensures Contains(t[SlotOf(self, id)], id) <==> id in Ids(AllNodes(t, K_BUCKET_COUNT))
  {
    AllNodesMembers(t, K_BUCKET_COUNT);
    ContainsIff(t[SlotOf(self, id)], id);
    if id in Ids(AllNodes(t, K_BUCKET_COUNT)) {
      var n :| n in AllNodes(t, K_BUCKET_COUNT) && n.id == id;
      var s :| 0 <= s < K_BUCKET_COUNT && n in t[s];
      assert GoodBucket(self, t[s], s);
    }
  }

  // ---------------------------------------------------------------- capacity near the own id

  /** Away from the own id, a slot is one branch. */
  lemma SlotIsBranch(self: NodeId, id: NodeId)
    ensures id != self ==> Distance(self, id) == SlotOf(self, id) + 1
    ensures id == self ==> Distance(self, id) == SlotOf(self, id) == 0
  {
    PrefixFullIffEqual(self, id);
  }

  /** Slot `s` covers one branch, so it holds at most 2^s ids besides the table's own. */
  lemma BucketRoom(self: NodeId, nodes: seq<KNode>, s: nat)
    requires s < K_BUCKET_COUNT
    requires DistinctIds(nodes) && forall n :: n in nodes ==> SlotOf(self, n.id) == s
    ensures |nodes| <= Pow2(s) + if s == 0 then 1 else 0
  {
    DistinctIdsCount(nodes);
    IdsRoom(self, Ids(nodes), s);
  }

  lemma IdsRoom(self: NodeId, ids: set<NodeId>, s: nat)
    requires s < K_BUCKET_COUNT && forall x :: x in ids ==> SlotOf(self, x) == s
    ensures |ids| <= Pow2(s) + if s == 0 then 1 else 0
  {
    var others := ids - {self};
    forall x | x in others ensures Distance(self, x) == s + 1 {
      SlotIsBranch(self, x);
    }
    BranchSize(self, others, s + 1);
    SlotIsBranch(self, self);
    if s > 0 {
      assert others == ids;
    }
  }

  /** A new node is never turned away from the three slots nearest the table's own id. */
  lemma NoOverflowNearSelf(self: NodeId, nodes: seq<KNode>, kn: KNode)
    requires GoodBucket(self, nodes, SlotOf(self, kn.id)) && SlotOf(self, kn.id) < 3
    ensures Updated(nodes, kn).1 != Overflow
  {
    if !Contains(nodes, kn.id) {
      ContainsIff(nodes, kn.id);
      AppendDistinct(nodes, kn);
      BucketRoom(self, nodes + [kn], SlotOf(self, kn.id));
      SmallPowers();
    }
  }

  lemma SmallPowers()
    ensures Pow2(0) == 1 && Pow2(1) == 2 && Pow2(2) == 4
  {
  }

  // ---------------------------------------------------------------- who stays in a full slot

  function Arrivals(nodes: seq<KNode>): (ops: seq<TableOp>)
    ensures |ops| == |nodes|
    ensures forall i :: 0 <= i < |nodes| ==> ops[i] == Update(nodes[i])
  {
    seq(|nodes|, i requires 0 <= i < |nodes| => Update(nodes[i]))
  }

  lemma OneMoreArrives(front: seq<KNode>, last: KNode, stored: seq<KNode>)
    requires DistinctIds(front + [last]) && stored == if |front| <= 4 then front else front[..4]
    ensures var all := front + [last];
            Updated(stored, last) ==
              if |front| < 4 then (all, AddedBack) else (if |all| <= 4 then all else all[..4], Overflow)
  {
    var all := front + [last];
    ContainsIff(stored, last.id);
    forall n | n in stored ensures n.id != last.id {
      var i :| 0 <= i < |stored| && stored[i] == n;
      assert all[i] == n && all[|front|] == last;
    }
    if |front| >= 4 {
      assert all[..4] == stored;
    }
  }

  lemma LastArrival(self: NodeId, front: seq<KNode>, last: KNode, before: Table)
    requires before == Run(self, EMPTY_TABLE, Arrivals(front))
    ensures Run(self, EMPTY_TABLE, Arrivals(front + [last])) == Apply(self, before, Update(last))
    ensures Run(self, EMPTY_TABLE, Arrivals(front + [last]))[SlotOf(self, last.id)] ==
              Updated(before[SlotOf(self, last.id)], last).0
  {
    var ops := Arrivals(front + [last]);
    assert ops[..|ops| - 1] == Arrivals(front) && ops[|ops| - 1] == Update(last);
  }

  ghost predicate ArriveIn(self: NodeId, nodes: seq<KNode>, s: nat) {
    DistinctIds(nodes) && forall n :: n in nodes ==> SlotOf(self, n.id) == s
  }

  lemma FirstArrivals(self: NodeId, front: seq<KNode>, last: KNode, s: nat)
    requires ArriveIn(self, front + [last], s)
    ensures ArriveIn(self, front, s) && SlotOf(self, last.id) == s
  {
    var all := front + [last];
    assert all[|front|] == last && forall i :: 0 <= i < |front| ==> all[i] == front[i];
  }

  lemma OneMoreInOrder(self: NodeId, front: seq<KNode>, last: KNode, s: nat, before: Table)
    requires s == SlotOf(self, last.id) && DistinctIds(front + [last])
    requires before == Run(self, EMPTY_TABLE, Arrivals(front))
    requires before[s] == if |front| <= 4 then front else front[..4]
    ensures Run(self, EMPTY_TABLE, Arrivals(front + [last]))[s] ==
            if |front + [last]| <= 4 then front + [last] else (front + [last])[..4]
  {
    LastArrival(self, front, last, before);
    OneMoreArrives(front, last, before[s]);
  }

  lemma {:induction false} ArrivedInOrder(self: NodeId, nodes: seq<KNode>, s: nat)
    requires s < K_BUCKET_COUNT && ArriveIn(self, nodes, s)
    ensures Run(self, EMPTY_TABLE, Arrivals(nodes))[s] == if |nodes| <= 4 then nodes else nodes[..4]
    decreases |nodes|
  {
    if nodes == [] {
      assert Run(self, EMPTY_TABLE, []) == EMPTY_TABLE;
    } else {
      var front, last := nodes[..|nodes| - 1], nodes[|nodes| - 1];
      assert nodes == front + [last];
      FirstArrivals(self, front, last, s);
      ArrivedInOrder(self, front, s);
      OneMoreInOrder(self, front, last, s, Run(self, EMPTY_TABLE, Arrivals(front)));
    }
  }

  /** Of the nodes that arrive in one slot of an empty table the first four stay, in the order they came; from the
      fifth on all are turned away. */
  lemma FirstFourStay(self: NodeId, nodes: seq<KNode>, s: nat, kn: KNode)
    requires DistinctIds(nodes + [kn]) && s < K_BUCKET_COUNT
    requires forall n :: n in nodes + [kn] ==> SlotOf(self, n.id) == s
    ensures var bucket := Run(self, EMPTY_TABLE, Arrivals(nodes))[s];
            && bucket == (if |nodes| <= 4 then nodes else nodes[..4])
            && Updated(bucket, kn) == if |nodes| < 4 then (nodes + [kn], AddedBack) else (bucket, Overflow)
  {
    FirstArrivals(self, nodes, kn, s);
    ArrivedInOrder(self, nodes, s);
    OneMoreArrives(nodes, kn, Run(self, EMPTY_TABLE, Arrivals(nodes))[s]);
  }
}
