/** `collect_node` as a function of the table: what it returns and what that means
    (src/ss_p2p/kademlia/k_routing_table.cpp). */
module Collecting {
  import opened NodeIds
  import opened Nodes
  import opened Buckets
  import opened Tables
  import opened SearchOrder
  import opened Utils

  /** Each branch offers its bucket's entries that are not ignored, most recent first. */
  function Offered(t: Table, ignore: seq<KNode>): Offers<KNode> {
    seq(BRANCHES + 1, b requires 0 <= b <= BRANCHES => Kept(Reversed(t[Slot(b)]), ignore))
  }

  /** `collect_node` for a root whose branch is `r`. */
  function CollectNodes(t: Table, ignore: seq<KNode>, r: nat, max: nat): seq<KNode>
    requires r <= BRANCHES
  {
    Collect(Offered(t, ignore), r, max)
  }

  ghost predicate Stored(t: Table, n: KNode) {
    exists s :: 0 <= s < K_BUCKET_COUNT && n in t[s]
  }

  /** Stored and not on the ignore list. */
  ghost predicate Eligible(t: Table, ignore: seq<KNode>, n: KNode) {
    Stored(t, n) && !Contains(ignore, n.id)
  }

  lemma OfferedMembers(t: Table, ignore: seq<KNode>, b: nat)
    requires b <= BRANCHES
    ensures forall n :: n in Offered(t, ignore)[b] <==> n in t[Slot(b)] && !Contains(ignore, n.id)
  {
    var nodes := t[Slot(b)];
    KeptMembers(Reversed(nodes), ignore);
    ReversedMembers(nodes);
  }

  // ---------------------------------------------------------------- soundness and completeness, any table

  lemma EverythingEligible(t: Table, ignore: seq<KNode>, r: nat, n: KNode)
    requires r <= BRANCHES
    ensures n in Everything(Offered(t, ignore), r) <==> Eligible(t, ignore, n)
  {
    var o := Offered(t, ignore);
    if n in Everything(o, r) {
      var b := RingSource(o, r, BRANCHES, n);
      OfferedMembers(t, ignore, b);
    }
    if Eligible(t, ignore, n) {
      var s: nat :| s < K_BUCKET_COUNT && n in t[s];
      OfferedMembers(t, ignore, s + 1);
      EverythingReaches(o, r, s + 1);
    }
  }

  /** For every table and root: the entries returned are stored and not ignored, at most `max + 1`, and that
      many exactly when some round's upper half fills the result and its lower half has an entry to push
      (or nothing was asked for and the root's bucket has one). */
  lemma CollectSound(t: Table, ignore: seq<KNode>, r: nat, max: nat)
    requires r <= BRANCHES
    ensures |CollectNodes(t, ignore, r, max)| <= max + 1
    ensures |CollectNodes(t, ignore, r, max)| == max + 1 <==> Surplus(Offered(t, ignore), r, max)
    ensures forall n :: n in CollectNodes(t, ignore, r, max) ==> Eligible(t, ignore, n)
  {
    var o := Offered(t, ignore);
    var stop := CollectShape(o, r, max);
    SurplusExactly(o, r, max);
    RingPrefix(o, r, stop, BRANCHES);
    InPrefix(Ring(o, r, stop), Everything(o, r));
    forall n | n in Collect(o, r, max) ensures Eligible(t, ignore, n) {
      EverythingEligible(t, ignore, r, n);
    }
  }

  /** A result shorter than asked misses no eligible entry: for every table and root. */
  lemma CollectComplete(t: Table, ignore: seq<KNode>, r: nat, max: nat)
    requires r <= BRANCHES
    requires |CollectNodes(t, ignore, r, max)| < max
    ensures forall n :: Eligible(t, ignore, n) ==> n in CollectNodes(t, ignore, r, max)
  {
    var o := Offered(t, ignore);
    var stop := CollectShape(o, r, max);
    var result, order := Collect(o, r, max), Everything(o, r);
    assert result[..|order|] == order[..|order|] == order;
    forall n | Eligible(t, ignore, n) ensures n in result {
      EverythingEligible(t, ignore, r, n);
      InPrefix(order, result);
    }
  }

  // ---------------------------------------------------------------- no bucket is visited twice

  /** Every entry sits in one of the slots lo..hi. */
  ghost predicate InSlots(self: NodeId, nodes: seq<KNode>, lo: int, hi: int) {
    forall n :: n in nodes ==> lo <= SlotOf(self, n.id) <= hi
  }

  /** Offers of a good table: distinct ids, each branch its own slot. */
  ghost predicate GoodOffers(self: NodeId, o: Offers<KNode>) {
    forall b :: 0 <= b <= BRANCHES ==> DistinctIds(o[b]) && InSlots(self, o[b], Slot(b), Slot(b))
  }

  lemma OfferedGood(self: NodeId, t: Table, ignore: seq<KNode>)
    requires GoodTable(self, t)
    ensures GoodOffers(self, Offered(t, ignore))
  {
    forall b: nat | b <= BRANCHES
      ensures DistinctIds(Offered(t, ignore)[b]) && InSlots(self, Offered(t, ignore)[b], Slot(b), Slot(b))
    {
      assert GoodBucket(self, t[Slot(b)], Slot(b));
      ReversedDistinct(t[Slot(b)]);
      KeptDistinct(Reversed(t[Slot(b)]), ignore);
      OfferedMembers(t, ignore, b);
    }
  }

  /** Branch 0 shares slot 0 with branch 1, so a root at branch 0 must find that slot exhausted. */
  ghost predicate NoSharedSlot(o: Offers<KNode>, r: nat) {
    r >= 1 || (o[0] == [] && o[1] == [])
  }

  /** Distinct ids, each placed between lo and hi; the argument below holds for any placement. */
  ghost predicate Spread(place: NodeId -> int, nodes: seq<KNode>, lo: int, hi: int) {
    DistinctIds(nodes) && forall n :: n in nodes ==> lo <= place(n.id) <= hi
  }

  ghost predicate SpreadOffers(place: NodeId -> int, o: Offers<KNode>) {
    forall b :: 0 <= b <= BRANCHES ==> Spread(place, o[b], Slot(b), Slot(b))
  }

  lemma ConcatSpread(place: NodeId -> int, a: seq<KNode>, b: seq<KNode>, lo: int, mid: int, hi: int)
    requires Spread(place, a, lo, mid - 1) && Spread(place, b, mid, hi) && lo <= mid <= hi + 1
    ensures Spread(place, a + b, lo, hi) && Spread(place, b + a, lo, hi)
  {
    forall x, y | x in a && y in b ensures x.id != y.id {
    }
  }

  lemma HalvesSpread(place: NodeId -> int, o: Offers<KNode>, r: nat, k: nat)
    requires SpreadOffers(place, o) && r <= BRANCHES && k > 0
    ensures Spread(place, Upper(o, r, k), r - k - 1, r - k - 1)
    ensures Spread(place, Lower(o, r, k), r + k - 1, r + k - 1)
  {
    assert r - k >= 1 ==> Slot(r - k) == r - k - 1;
    assert r + k <= BRANCHES ==> Slot(r + k) == r + k - 1;
  }

  lemma RoundSpread(place: NodeId -> int, o: Offers<KNode>, r: nat, k: nat, before: seq<KNode>, ring: seq<KNode>)
    requires SpreadOffers(place, o) && r <= BRANCHES && k > 0
    requires Spread(place, before, r - k, r + k - 2) && ring == before + Upper(o, r, k) + Lower(o, r, k)
    ensures Spread(place, ring, r - k - 1, r + k - 1)
  {
    HalvesSpread(place, o, r, k);
    ConcatSpread(place, Upper(o, r, k), before, r - k - 1, r - k, r + k - 2);
    ConcatSpread(place, before + Upper(o, r, k), Lower(o, r, k), r - k - 1, r + k - 1, r + k - 1);
  }

  /** After `k` rounds: distinct ids from within `k` of the root's slot. */
  lemma {:induction false} RingSpread(place: NodeId -> int, o: Offers<KNode>, r: nat, k: nat)
    requires SpreadOffers(place, o) && r <= BRANCHES && NoSharedSlot(o, r)
    ensures Spread(place, Ring(o, r, k), r - k - 1, r + k - 1)
    decreases k
  {
    if k == 0 {
      assert r >= 1 ==> Spread(place, o[r], Slot(r), Slot(r));
    } else {
      RingSpread(place, o, r, k - 1);
      RoundSpread(place, o, r, k, Ring(o, r, k - 1), Ring(o, r, k));
    }
  }

  /** No bucket is visited twice: what has been met after `k` rounds has distinct ids, from the slots within `k` of
      the root's. */
  lemma RingDistinct(self: NodeId, o: Offers<KNode>, r: nat, k: nat)
    requires GoodOffers(self, o) && r <= BRANCHES && NoSharedSlot(o, r)
    ensures DistinctIds(Ring(o, r, k)) && InSlots(self, Ring(o, r, k), r - k - 1, r + k - 1)
  {
    var place := PlacedBySlot(self, o);
    RingSpread(place, o, r, k);
    SpreadInSlots(self, place, Ring(o, r, k), r - k - 1, r + k - 1);
  }

  lemma PlacedBySlot(self: NodeId, o: Offers<KNode>) returns (place: NodeId -> int)
    requires GoodOffers(self, o)
    ensures SpreadOffers(place, o) && forall id :: place(id) == SlotOf(self, id)
  {
    place := (id: NodeId) => SlotOf(self, id) as int;
    forall b | 0 <= b <= BRANCHES ensures Spread(place, o[b], Slot(b), Slot(b)) {
      assert InSlots(self, o[b], Slot(b), Slot(b));
    }
  }

  lemma SpreadInSlots(self: NodeId, place: NodeId -> int, nodes: seq<KNode>, lo: int, hi: int)
    requires Spread(place, nodes, lo, hi) && forall id :: place(id) == SlotOf(self, id)
    ensures InSlots(self, nodes, lo, hi)
  {
  }

  // ---------------------------------------------------------------- how many, and when without repetition

  /** The distinct ids a search may return. */
  ghost function EligibleIds(t: Table, ignore: seq<KNode>): set<NodeId> {
    set n | n in AllNodes(t, K_BUCKET_COUNT) && !Contains(ignore, n.id) :: n.id
  }

  lemma EverythingCount(self: NodeId, t: Table, ignore: seq<KNode>, r: nat)
    requires GoodTable(self, t) && 1 <= r <= BRANCHES
    ensures DistinctIds(Everything(Offered(t, ignore), r))
    ensures |Everything(Offered(t, ignore), r)| == |EligibleIds(t, ignore)|
  {
    var order := Everything(Offered(t, ignore), r);
    OfferedGood(self, t, ignore);
    RingDistinct(self, Offered(t, ignore), r, BRANCHES);
    DistinctIdsCount(order);
    AllNodesMembers(t, K_BUCKET_COUNT);
    forall n ensures n in order <==> n in AllNodes(t, K_BUCKET_COUNT) && !Contains(ignore, n.id) {
      EverythingEligible(t, ignore, r, n);
    }
    assert Ids(order) == EligibleIds(t, ignore);
  }

  lemma {:induction false} IdsAtMost(nodes: seq<KNode>)
    ensures |Ids(nodes)| <= |nodes|
  {
    if nodes != [] {
      IdsAtMost(nodes[1..]);
      assert nodes == [nodes[0]] + nodes[1..];
      assert Ids(nodes) == {nodes[0].id} + Ids(nodes[1..]);
    }
  }

  /** For every table and root, placed well or not: no fewer than asked for while there are eligible ids. */
  lemma CollectAtLeast(t: Table, ignore: seq<KNode>, r: nat, max: nat)
    requires r <= BRANCHES
    ensures var result := CollectNodes(t, ignore, r, max);
            |result| >= max || |result| >= |EligibleIds(t, ignore)|
  {
    var stop := CollectShape(Offered(t, ignore), r, max);
    var order := Everything(Offered(t, ignore), r);
    AllNodesMembers(t, K_BUCKET_COUNT);
    forall id | id in EligibleIds(t, ignore) ensures id in Ids(order) {
      var n :| n in AllNodes(t, K_BUCKET_COUNT) && !Contains(ignore, n.id) && n.id == id;
      EverythingEligible(t, ignore, r, n);
    }
    SubsetSize(EligibleIds(t, ignore), Ids(order));
    IdsAtMost(order);
  }

  /** For a root other than the table's own id: no id twice, and as many entries as asked for or as
      there are, with one more exactly in case of a surplus. */
  lemma CollectCount(self: NodeId, t: Table, ignore: seq<KNode>, r: nat, max: nat)
    requires GoodTable(self, t) && 1 <= r <= BRANCHES
    ensures var eligible := |EligibleIds(t, ignore)|;
            var wanted := if eligible < max then eligible else max;
            |CollectNodes(t, ignore, r, max)| == if Surplus(Offered(t, ignore), r, max) then wanted + 1 else wanted
    ensures DistinctIds(CollectNodes(t, ignore, r, max))
  {
    var o := Offered(t, ignore);
    var stop := CollectShape(o, r, max);
    EverythingCount(self, t, ignore, r);
    SurplusExactly(o, r, max);
    PrefixPlusSurplusDistinct(Collect(o, r, max), Everything(o, r), max);
  }

  lemma PrefixPlusSurplusDistinct(result: seq<KNode>, order: seq<KNode>, max: nat)
    requires DistinctIds(order) && PrefixPlusSurplus(result, order, max)
    ensures DistinctIds(result)
  {
    var taken := if |order| < max then |order| else max;
    assert forall i :: 0 <= i < taken ==> result[i] == result[..taken][i] == order[..taken][i] == order[i];
    if |result| == taken + 1 {
      var j :| 0 <= j < |order[taken..]| && order[taken..][j] == result[taken];
      assert result[taken] == order[taken + j];
    }
  }

  /** Exactly when a search returns some id twice: the root is the table's own id and slot 0, which
      branches 0 and 1 share, offers something but less than was asked for. */
  lemma CollectRepeatsExactlyWhen(self: NodeId, t: Table, ignore: seq<KNode>, root: NodeId, max: nat)
    requires GoodTable(self, t)
    ensures DistinctIds(CollectNodes(t, ignore, Distance(self, root), max)) <==>
            !(root == self && 0 < |Kept(Reversed(t[0]), ignore)| < max)
  {
    var o := Offered(t, ignore);
    var r := Distance(self, root);
    PrefixFullIffEqual(self, root);
    OfferedGood(self, t, ignore);
    SharedSlotOffers(t, ignore);
    if r == 0 && 0 < |o[0]| < max {
      SharedSlotRepeats(o, max);
    } else if r == 0 && |o[0]| >= max {
      assert DistinctIds(o[0]);
    } else {
      var stop := CollectShape(o, r, max);
      RingDistinct(self, o, r, BRANCHES);
      PrefixPlusSurplusDistinct(Collect(o, r, max), Everything(o, r), max);
    }
  }

  lemma SharedSlotOffers(t: Table, ignore: seq<KNode>)
    ensures Offered(t, ignore)[0] == Offered(t, ignore)[1] == Kept(Reversed(t[0]), ignore)
  {
    assert Slot(0) == Slot(1) == 0;
  }

  lemma SharedSlotRepeats(o: Offers<KNode>, max: nat)
    requires o[0] == o[1] && 0 < |o[0]| < max
    ensures !DistinctIds(Collect(o, 0, max))
  {
    var result := Collect(o, 0, max);
    assert Ring(o, 0, 1) == o[0] + o[1];
    if |o[0] + o[1]| < max {
      CollectFromStarts(o, 0, max, 2);
      assert o[0] + o[1] <= result;
    } else {
      assert o[0] + Upper(o, 0, 1) == o[0];
      assert result == PushThenTest(o[0] + o[1], max);
    }
    assert result[0] == (o[0] + o[1])[0] == o[0][0];
    assert result[|o[0]|] == (o[0] + o[1])[|o[0]|] == o[0][0];
  }
}
