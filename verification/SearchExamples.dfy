/** Two tables, each reached by two arrivals, on which `collect_node` returns one node too many and a farther
    node instead of a nearer one. */
module SearchExamples {
  import opened NodeIds
  import opened Nodes
  import opened Buckets
  import opened Tables
  import opened SearchOrder
  import opened Collecting
  import opened Nearness

  /** The id that differs from `self` in the first bit of byte `q` alone. */
  function MarkedId(self: NodeId, q: nat): NodeId
    requires q < K_NODE_ID_LENGTH
  {
    self[q := self[q] ^ 1]
  }

  function MarkedNode(self: NodeId, q: nat): KNode
    requires q < K_NODE_ID_LENGTH
  {
    KNode(Endpoint(q, 0), MarkedId(self, q))
  }

  lemma MarkedDistance(self: NodeId, q: nat)
    requires q < K_NODE_ID_LENGTH
    ensures Distance(self, MarkedId(self, q)) == K_NODE_ID_BITS - 8 * q
    ensures SlotOf(self, MarkedId(self, q)) == K_NODE_ID_BITS - 8 * q - 1
  {
    assert ByteBit(self[q] ^ 1, 0) != ByteBit(self[q], 0);
    assert Agree(self, MarkedId(self, q), 8 * q);
    PrefixLengthIsLongest(self, MarkedId(self, q), 8 * q);
  }

  /** The table after two nodes of different slots arrived. */
  lemma TwoArrivals(self: NodeId, a: KNode, b: KNode) returns (t: Table)
    requires SlotOf(self, a.id) != SlotOf(self, b.id)
    ensures t == Run(self, EMPTY_TABLE, [Update(a), Update(b)])
    ensures GoodTable(self, t)
    ensures forall s :: 0 <= s < K_BUCKET_COUNT ==>
              t[s] == if s == SlotOf(self, a.id) then [a] else if s == SlotOf(self, b.id) then [b] else []
  {
    var one, ops := [Update(a)], [Update(a), Update(b)];
    assert ops[..1] == one && one[..0] == [];
    assert Run(self, EMPTY_TABLE, []) == EMPTY_TABLE;
    t := Run(self, EMPTY_TABLE, ops);
    var first := Run(self, EMPTY_TABLE, one);
    assert first == Apply(self, EMPTY_TABLE, Update(a)) && t == Apply(self, first, Update(b));
    assert [] + [a] == [a] && [] + [b] == [b];
    RunKeepsGood(self, EMPTY_TABLE, ops);
    forall s: nat | s < K_BUCKET_COUNT
      ensures t[s] == if s == SlotOf(self, a.id) then [a] else if s == SlotOf(self, b.id) then [b] else []
    {
      ApplyAt(self, EMPTY_TABLE, Update(a), s);
      ApplyAt(self, first, Update(b), s);
    }
  }

  lemma SingleOffer(t: Table, k: nat, n: KNode)
    requires k <= BRANCHES
    ensures t[Slot(k)] == [n] ==> Offered(t, [])[k] == [n]
    ensures t[Slot(k)] == [] ==> Offered(t, [])[k] == []
  {
    assert Reversed([n]) == [n] && Kept([n], []) == [n];
  }

  /** A table of two nodes, at branches 160 - 8q and 160, and a root at branch 152. */
  lemma Example(self: NodeId, q: nat) returns (t: Table)
    requires 2 <= q <= 3
    ensures t == Run(self, EMPTY_TABLE, [Update(MarkedNode(self, q)), Update(MarkedNode(self, 0))])
    ensures GoodTable(self, t) && Distance(self, MarkedId(self, 1)) == 152
    ensures var o := Offered(t, []);
            && o[160 - 8 * q] == [MarkedNode(self, q)] && o[160] == [MarkedNode(self, 0)]
            && forall k :: 0 <= k < 160 && k != 160 - 8 * q ==> o[k] == []
  {
    MarkedDistance(self, 0);
    MarkedDistance(self, 1);
    MarkedDistance(self, q);
    t := TwoArrivals(self, MarkedNode(self, q), MarkedNode(self, 0));
    OffersOfTwo(t, 160 - 8 * q, MarkedNode(self, q), MarkedNode(self, 0));
  }

  lemma OffersOfTwo(t: Table, b: nat, n: KNode, m: KNode)
    requires 1 < b < 160
    requires forall s :: 0 <= s < K_BUCKET_COUNT ==> t[s] == if s == b - 1 then [n] else if s == 159 then [m] else []
    ensures var o := Offered(t, []);
            o[b] == [n] && o[160] == [m] && forall k :: 0 <= k < 160 && k != b ==> o[k] == []
  {
    SingleOffer(t, 160, m);
    SingleOffer(t, b, n);
    forall k: nat | k < 160 && k != b ensures Offered(t, [])[k] == [] {
      SingleOffer(t, k, m);
    }
  }

  lemma {:induction false} NothingNear<T>(o: Offers<T>, r: nat, k: nat)
    requires r <= BRANCHES
    requires forall b :: 0 <= b <= BRANCHES && Abs(b - r) <= k ==> o[b] == []
    ensures Ring(o, r, k) == []
  {
    if k > 0 {
      NothingNear(o, r, k - 1);
    }
  }

  /** Asked for one node around branch 152, with one node at 144 and one at 160: both are returned. */
  lemma OneTooMany(self: NodeId) returns (t: Table)
    ensures t == Run(self, EMPTY_TABLE, [Update(MarkedNode(self, 2)), Update(MarkedNode(self, 0))])
    ensures |CollectNodes(t, [], Distance(self, MarkedId(self, 1)), 1)| == 2
  {
    t := Example(self, 2);
    BothFound(Offered(t, []), MarkedNode(self, 2), MarkedNode(self, 0));
  }

  lemma BothFound(o: Offers<KNode>, n: KNode, m: KNode)
    requires o[144] == [n] && o[160] == [m] && forall k :: 144 < k < 160 ==> o[k] == []
    ensures |Collect(o, 152, 1)| == 2
  {
    NothingNear(o, 152, 7);
    assert Upper(o, 152, 8) == [n] && Lower(o, 152, 8) == [m];
    assert SurplusRound(o, 152, 1, 8);
    SurplusExactly(o, 152, 1);
  }

  /** Asked for one node around branch 152, with one at 136 and one at 160: the one returned is at distance 160
      from the root, the one left out at 152. */
  lemma FartherReturned(self: NodeId) returns (t: Table)
    ensures t == Run(self, EMPTY_TABLE, [Update(MarkedNode(self, 3)), Update(MarkedNode(self, 0))])
    ensures GoodTable(self, t) && Eligible(t, [], MarkedNode(self, 3))
    ensures CollectNodes(t, [], Distance(self, MarkedId(self, 1)), 1) == [MarkedNode(self, 0)]
    ensures Distance(MarkedId(self, 1), MarkedId(self, 0)) == 160
    ensures Distance(MarkedId(self, 1), MarkedId(self, 3)) == 152
  {
    t := Example(self, 3);
    FirstFound(Offered(t, []), MarkedNode(self, 0));
    OfferedMembers(t, [], 136);
    assert MarkedNode(self, 3) in Offered(t, [])[136];
    MarkedDistance(self, 0);
    MarkedDistance(self, 3);
    PrefixFullIffEqual(self, MarkedId(self, 1));
    DistanceBySlot(self, MarkedId(self, 1), MarkedId(self, 0));
    DistanceBySlot(self, MarkedId(self, 1), MarkedId(self, 3));
  }

  lemma FirstFound(o: Offers<KNode>, n: KNode)
    requires o[160] == [n] && forall k :: 144 <= k < 160 ==> o[k] == []
    ensures Collect(o, 152, 1) == [n]
  {
    NothingNear(o, 152, 7);
    CollectReaches(o, 152, 1, 8);
  }

  lemma OneArrival(self: NodeId, n: KNode) returns (t: Table)
    requires SlotOf(self, n.id) == 0
    ensures t == Run(self, EMPTY_TABLE, [Update(n)]) && GoodTable(self, t) && t[0] == [n]
  {
    var one := [Update(n)];
    assert one[..0] == [];
    assert Run(self, EMPTY_TABLE, []) == EMPTY_TABLE;
    t := Run(self, EMPTY_TABLE, one);
    RunKeepsGood(self, EMPTY_TABLE, one);
    ApplyAt(self, EMPTY_TABLE, Update(n), 0);
    assert [] + [n] == [n];
  }

  /** After one arrival into slot 0, a search for two nodes around the own id returns that node twice. */
  lemma SameNodeTwice(self: NodeId, n: KNode) returns (t: Table)
    requires SlotOf(self, n.id) == 0
    ensures t == Run(self, EMPTY_TABLE, [Update(n)])
    ensures GoodTable(self, t) && !DistinctIds(CollectNodes(t, [], Distance(self, self), 2))
  {
    t := OneArrival(self, n);
    assert Reversed([n]) == [n] && Kept([n], []) == [n];
    CollectRepeatsExactlyWhen(self, t, [], self, 2);
  }
}
