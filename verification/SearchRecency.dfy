/** In which order `collect_node` gives the nodes of a table that a run has led to: bucket by bucket as the walk visits
    them, and within a bucket the latest touch first (src/ss_p2p/kademlia/k_routing_table.cpp, k_bucket.cpp). */
module SearchRecency {
  import opened NodeIds
  import opened Nodes
  import opened Buckets
  import opened Tables
  import opened Recency
  import opened SearchOrder
  import opened Collecting
  import opened Nearness

  // ---------------------------------------------------------------- the walk in any order of preference

  /** When the walk from branch `r` comes to slot `s`: first the root's own, then those at distance 1, the lower
      branch first, then those at distance 2, and so on. */
  function VisitRank(r: nat, s: int): nat {
    var d := s + 1 - r;
    if d == 0 then 0 else if d < 0 then -2 * d - 1 else 2 * d
  }

  /** Every entry is visited between ranks lo and hi. */
  ghost predicate Ranked(place: NodeId -> int, r: nat, nodes: seq<KNode>, lo: int, hi: int) {
    forall n :: n in nodes ==> lo <= VisitRank(r, place(n.id)) <= hi
  }

  ghost predicate PrefersVisited(prior: (KNode, KNode) -> bool, place: NodeId -> int, r: nat) {
    forall x: KNode, y: KNode :: VisitRank(r, place(x.id)) < VisitRank(r, place(y.id)) ==> prior(x, y)
  }

  ghost predicate OrderedOffers(prior: (KNode, KNode) -> bool, place: NodeId -> int, o: Offers<KNode>) {
    forall b :: 0 <= b <= BRANCHES ==> InOrder(prior, o[b]) && forall n :: n in o[b] ==> place(n.id) == Slot(b)
  }

  lemma ConcatInOrder(prior: (KNode, KNode) -> bool, place: NodeId -> int, r: nat, a: seq<KNode>, b: seq<KNode>,
                      lo: int, mid: int, hi: int)
    requires PrefersVisited(prior, place, r) && InOrder(prior, a) && InOrder(prior, b) && lo <= mid <= hi
    requires Ranked(place, r, a, lo, mid - 1) && Ranked(place, r, b, mid, hi)
    ensures InOrder(prior, a + b) && Ranked(place, r, a + b, lo, hi)
  {
    var s := a + b;
    forall i, j | 0 <= i < j < |s| ensures prior(s[i], s[j]) {
      if i < |a| <= j {
        assert a[i] in a && b[j - |a|] in b;
      }
    }
  }

  lemma HalvesInOrder(prior: (KNode, KNode) -> bool, place: NodeId -> int, o: Offers<KNode>, r: nat, k: nat)
    requires OrderedOffers(prior, place, o) && r <= BRANCHES && k > 0
    ensures InOrder(prior, Upper(o, r, k)) && Ranked(place, r, Upper(o, r, k), 2 * k - 1, 2 * k - 1)
    ensures InOrder(prior, Lower(o, r, k)) && Ranked(place, r, Lower(o, r, k), 2 * k, 2 * k)
  {
    assert r - k >= 1 ==> Slot(r - k) == r - k - 1;
    assert r + k <= BRANCHES ==> Slot(r + k) == r + k - 1;
  }

  lemma RoundInOrder(prior: (KNode, KNode) -> bool, place: NodeId -> int, o: Offers<KNode>, r: nat, k: nat,
                     before: seq<KNode>, ring: seq<KNode>)
    requires PrefersVisited(prior, place, r) && OrderedOffers(prior, place, o) && r <= BRANCHES && k > 0
    requires InOrder(prior, before) && Ranked(place, r, before, 0, 2 * k - 2)
    requires ring == before + Upper(o, r, k) + Lower(o, r, k)
    ensures InOrder(prior, ring) && Ranked(place, r, ring, 0, 2 * k)
  {
    HalvesInOrder(prior, place, o, r, k);
    ConcatInOrder(prior, place, r, before, Upper(o, r, k), 0, 2 * k - 1, 2 * k - 1);
    ConcatInOrder(prior, place, r, before + Upper(o, r, k), Lower(o, r, k), 0, 2 * k, 2 * k);
  }

  lemma {:induction false} RingInOrder(prior: (KNode, KNode) -> bool, place: NodeId -> int, o: Offers<KNode>, r: nat,
                                       k: nat)
    requires PrefersVisited(prior, place, r) && OrderedOffers(prior, place, o)
    requires r <= BRANCHES && NoSharedSlot(o, r)
    ensures InOrder(prior, Ring(o, r, k)) && Ranked(place, r, Ring(o, r, k), 0, 2 * k)
    decreases k
  {
    if k == 0 {
      assert r >= 1 ==> Slot(r) == r - 1;
    } else {
      RingInOrder(prior, place, o, r, k - 1);
      RoundInOrder(prior, place, o, r, k, Ring(o, r, k - 1), Ring(o, r, k));
    }
  }

  /** A result that is a prefix of an ordered walk with perhaps one surplus entry is ordered, and each of its entries
      but the surplus goes before everything the walk offers and the result lacks. */
  lemma SurplusInOrder(prior: (KNode, KNode) -> bool, result: seq<KNode>, order: seq<KNode>, max: nat)
    requires InOrder(prior, order) && PrefixPlusSurplus(result, order, max)
    ensures InOrder(prior, result)
    ensures forall i, m :: 0 <= i < |result| && i < max && m in order && m !in result ==> prior(result[i], m)
  {
    var taken := if |order| < max then |order| else max;
    assert forall i :: 0 <= i < taken ==> result[i] == result[..taken][i] == order[..taken][i] == order[i];
    assert forall i :: 0 <= i < taken ==> order[i] in result;
    if |result| == taken + 1 {
      var x :| 0 <= x < |order[taken..]| && order[taken..][x] == result[taken];
      assert order[taken + x] == result[taken];
    }
    forall i, m | 0 <= i < |result| && i < max && m in order && m !in result ensures prior(result[i], m) {
      var y :| 0 <= y < |order| && order[y] == m;
    }
  }

  // ---------------------------------------------------------------- the order after a run

  /** `n` goes before `m`: its slot is visited first or, in the same slot, it was touched later or neither was
      touched at all. */
  predicate Before(self: NodeId, ops: seq<TableOp>, r: nat, n: KNode, m: KNode) {
    var x, y := SlotOf(self, n.id), SlotOf(self, m.id);
    VisitRank(r, x) < VisitRank(r, y) || (x == y && MoreRecent(self, ops, x, n, m))
  }

  /** After a run each branch offers its entries latest touch first. */
  lemma OfferLatestFirst(self: NodeId, t: Table, ops: seq<TableOp>, ignore: seq<KNode>, b: nat)
    requires GoodTable(self, t) && b <= BRANCHES
    ensures LatestFirst(self, ops, Slot(b), Offered(Run(self, t, ops), ignore)[b])
    ensures forall n :: n in Offered(Run(self, t, ops), ignore)[b] ==> SlotOf(self, n.id) == Slot(b)
  {
    var nodes := Run(self, t, ops)[Slot(b)];
    RecencyOrder(self, t, ops, Slot(b));
    ReversedLatestFirst(self, ops, Slot(b), nodes);
    KeptLatestFirst(self, ops, Slot(b), Reversed(nodes), ignore);
    RunKeepsGood(self, t, ops);
    assert GoodBucket(self, nodes, Slot(b));
    OfferedMembers(Run(self, t, ops), ignore, b);
  }

  lemma OffersAfterRun(self: NodeId, t: Table, ops: seq<TableOp>, ignore: seq<KNode>, r: nat)
    returns (prior: (KNode, KNode) -> bool, place: NodeId -> int)
    requires GoodTable(self, t)
    ensures forall x, y :: prior(x, y) <==> Before(self, ops, r, x, y)
    ensures PrefersVisited(prior, place, r)
    ensures OrderedOffers(prior, place, Offered(Run(self, t, ops), ignore))
  {
    prior := (x: KNode, y: KNode) => Before(self, ops, r, x, y);
    place := (id: NodeId) => SlotOf(self, id) as int;
    var o := Offered(Run(self, t, ops), ignore);
    forall b: nat | b <= BRANCHES
      ensures InOrder(prior, o[b]) && forall n :: n in o[b] ==> place(n.id) == Slot(b)
    {
      OfferLatestFirst(self, t, ops, ignore, b);
      assert forall i :: 0 <= i < |o[b]| ==> o[b][i] in o[b];
    }
  }

  // ---------------------------------------------------------------- what one slot gives

  /** In the last round's upper half: whatever is cut off stands behind what is given. */
  lemma UpperGivesFirst(prior: (KNode, KNode) -> bool, before: seq<KNode>, up: seq<KNode>, max: nat, n: KNode,
                        m: KNode)
    requires InOrder(prior, up) && m in up && n !in before
    requires n in PushThenTest(before + up, max) && m !in PushThenTest(before + up, max)
    ensures prior(n, m)
  {
    var middle := PushThenTest(before + up, max);
    assert forall i :: 0 <= i < |middle| ==> (before + up)[i] == middle[i] && middle[i] in middle;
    assert forall i :: 0 <= i < |before| ==> (before + up)[i] in before;
    var x :| 0 <= x < |middle| && middle[x] == n;
    var y :| 0 <= y < |up| && up[y] == m;
    assert (before + up)[|before| + y] == m;
  }

  /** The same for round `k` as a whole, when both entries come from one of its halves and the other half has
      neither. */
  lemma RoundGivesFirst(prior: (KNode, KNode) -> bool, o: Offers<KNode>, r: nat, max: nat, k: nat,
                        before: seq<KNode>, result: seq<KNode>, n: KNode, m: KNode)
    requires r <= BRANCHES && k > 0 && before == Ring(o, r, k - 1) && result == RoundResult(o, r, max, k)
    requires n in result && m !in result && n !in before
    requires || (m in Upper(o, r, k) && n !in Lower(o, r, k) && InOrder(prior, Upper(o, r, k)))
             || (m in Lower(o, r, k) && n !in Upper(o, r, k) && InOrder(prior, Lower(o, r, k)))
    ensures prior(n, m)
  {
    var up, down := Upper(o, r, k), Lower(o, r, k);
    var middle := PushThenTest(before + up, max);
    var count := if |middle| < max then max - |middle| else 0;
    assert result == middle + PushThenTest(down, count);
    InPrefix(PushThenTest(down, count), down);
    InPrefix(middle, before + up);
    if m in up && n !in down && InOrder(prior, up) {
      UpperGivesFirst(prior, before, up, max, n, m);
    } else {
      PrefixInOrder(prior, down, PushThenTest(down, count));
    }
  }

  lemma InItsRound(o: Offers<KNode>, r: nat, s: nat, m: KNode, k: nat)
    requires r <= BRANCHES && s < BRANCHES && m in o[s + 1] && (s == 0 ==> m in o[0]) && k == Round(r, s)
    ensures m in Ring(o, r, k)
  {
    if !(r == 0 && s == 0) {
      RingReaches(o, r, s + 1);
    }
  }

  /** What a round before the last one offers is all kept. */
  lemma LeftOutOfLast(o: Offers<KNode>, r: nat, max: nat, stop: nat, k: nat, m: KNode, result: seq<KNode>)
    requires r <= BRANCHES && m in Ring(o, r, k)
    requires Begun(o, r, max, stop) && result == RoundResult(o, r, max, stop) && m !in result
    ensures k >= stop
  {
    if k < stop {
      RoundKeeps(o, r, max, stop, k, m);
    }
  }

  /** Round `k` visits slot `s` with one of its halves. */
  lemma HalfOfSlot(o: Offers<KNode>, r: nat, s: nat, k: nat)
    requires r <= BRANCHES && s < BRANCHES && k > 0 && Round(r, s) == k
    ensures s + 1 < r ==> r - k == s + 1 && Upper(o, r, k) == o[s + 1]
    ensures s + 1 >= r ==> r + k == s + 1 && Lower(o, r, k) == o[s + 1]
  {
  }

  lemma HalvesApart(self: NodeId, t: Table, ignore: seq<KNode>, r: nat, k: nat, n: KNode)
    requires GoodTable(self, t) && r <= BRANCHES && k > 0
    ensures n in Upper(Offered(t, ignore), r, k) ==> SlotOf(self, n.id) + 1 < r
    ensures n in Lower(Offered(t, ignore), r, k) ==> SlotOf(self, n.id) + 1 > r
  {
    if n in Upper(Offered(t, ignore), r, k) {
      OfferedSlot(self, t, ignore, r - k, n);
    }
    if n in Lower(Offered(t, ignore), r, k) {
      OfferedSlot(self, t, ignore, r + k, n);
    }
  }

  /** The walk meets `n` no earlier than in the round that visits slot `s`. */
  ghost predicate MetFrom(o: Offers<KNode>, r: nat, s: nat, n: KNode)
    requires r <= BRANCHES
  {
    forall k :: n in Ring(o, r, k) ==> Round(r, s) <= k
  }

  lemma MetInItsRound(self: NodeId, t: Table, ignore: seq<KNode>, r: nat, n: KNode, s: nat)
    requires GoodTable(self, t) && r <= BRANCHES && s == SlotOf(self, n.id)
    ensures MetFrom(Offered(t, ignore), r, s, n)
  {
    forall k | n in Ring(Offered(t, ignore), r, k) ensures Round(r, s) <= k {
      TakenRound(self, t, ignore, r, k, n);
    }
  }

  /** Two entries of slot `s`, visited in round `k`, of which one is given and one is not. */
  lemma LastRoundGives(prior: (KNode, KNode) -> bool, o: Offers<KNode>, r: nat, max: nat, k: nat, s: nat,
                       before: seq<KNode>, result: seq<KNode>, n: KNode, m: KNode)
    requires r <= BRANCHES && s < BRANCHES && k > 0 && Round(r, s) == k
    requires before == Ring(o, r, k - 1) && result == RoundResult(o, r, max, k)
    requires n in result && m !in result && n !in before && m in o[s + 1] && InOrder(prior, o[s + 1])
    requires if s + 1 < r then n !in Lower(o, r, k) else n !in Upper(o, r, k)
    ensures prior(n, m)
  {
    HalfOfSlot(o, r, s, k);
    RoundGivesFirst(prior, o, r, max, k, before, result, n, m);
  }

  /** Of two entries of one slot only one is given: then the last round is the one that visits the slot. */
  lemma SlotOfLastRound(o: Offers<KNode>, r: nat, max: nat, s: nat, n: KNode, m: KNode, result: seq<KNode>)
    returns (stop: nat, before: seq<KNode>)
    requires r <= BRANCHES && s < BRANCHES && result == Collect(o, r, max) && n in result && m !in result
    requires MetFrom(o, r, s, n) && m in o[s + 1] && (s == 0 ==> m in o[0])
    ensures result == RoundResult(o, r, max, stop) && Round(r, s) == stop
    ensures stop > 0 ==> before == Ring(o, r, stop - 1) && n !in before
  {
    stop := CollectEnds(o, r, max);
    FromItsRings(o, r, max, stop, n, result);
    InItsRound(o, r, s, m, Round(r, s));
    LeftOutOfLast(o, r, max, stop, Round(r, s), m, result);
    before := if stop > 0 then Ring(o, r, stop - 1) else [];
  }

  /** Only the half on its own side of the root's branch ever offers `n`. */
  ghost predicate OnOneSide(o: Offers<KNode>, r: nat, s: nat, n: KNode)
    requires r <= BRANCHES
  {
    forall k: nat :: k > 0 ==> if s + 1 < r then n !in Lower(o, r, k) else n !in Upper(o, r, k)
  }

  lemma SideOfSlot(self: NodeId, t: Table, ignore: seq<KNode>, r: nat, n: KNode, s: nat)
    requires GoodTable(self, t) && r <= BRANCHES && s == SlotOf(self, n.id)
    ensures OnOneSide(Offered(t, ignore), r, s, n)
  {
    forall k: nat | k > 0
      ensures if s + 1 < r then n !in Lower(Offered(t, ignore), r, k) else n !in Upper(Offered(t, ignore), r, k)
    {
      HalvesApart(self, t, ignore, r, k, n);
    }
  }

  /** Both branches of slot `s` offer its entries in the order `prior`. */
  ghost predicate OrderedSlot(prior: (KNode, KNode) -> bool, o: Offers<KNode>, s: nat)
    requires s < BRANCHES
  {
    InOrder(prior, o[s + 1]) && (s == 0 ==> InOrder(prior, o[0]))
  }

  lemma GivenByOffers(prior: (KNode, KNode) -> bool, o: Offers<KNode>, r: nat, max: nat, s: nat,
                      n: KNode, m: KNode, result: seq<KNode>)
    requires r <= BRANCHES && s < BRANCHES && result == Collect(o, r, max) && n in result && m !in result
    requires OrderedSlot(prior, o, s) && MetFrom(o, r, s, n) && OnOneSide(o, r, s, n)
    requires m in o[s + 1] && (s == 0 ==> m in o[0])
    ensures prior(n, m)
  {
    var stop, before := SlotOfLastRound(o, r, max, s, n, m, result);
    if stop == 0 {
      assert r == s + 1 || r == s == 0;
      PrefixInOrder(prior, o[r], PushThenTest(o[r], max));
    } else {
      LastRoundGives(prior, o, r, max, stop, s, before, result, n, m);
    }
  }

  /** The two entries as the offers show them. */
  lemma PairOffered(self: NodeId, t: Table, ignore: seq<KNode>, o: Offers<KNode>, r: nat, s: nat, n: KNode, m: KNode)
    requires GoodTable(self, t) && o == Offered(t, ignore) && r <= BRANCHES
    requires s == SlotOf(self, n.id) == SlotOf(self, m.id) && Eligible(t, ignore, m)
    ensures MetFrom(o, r, s, n) && OnOneSide(o, r, s, n)
    ensures m in o[s + 1] && (s == 0 ==> m in o[0])
  {
    StoredSlot(self, t, ignore, m);
    MetInItsRound(self, t, ignore, r, n, s);
    SideOfSlot(self, t, ignore, r, n, s);
  }

  lemma GivenBySlot(prior: (KNode, KNode) -> bool, self: NodeId, t: Table, ignore: seq<KNode>, r: nat, max: nat,
                    s: nat, n: KNode, m: KNode, result: seq<KNode>)
    requires GoodTable(self, t) && s < BRANCHES && OrderedSlot(prior, Offered(t, ignore), s)
    requires r <= BRANCHES && result == CollectNodes(t, ignore, r, max)
    requires n in result && Eligible(t, ignore, m) && m !in result
    requires s == SlotOf(self, n.id) == SlotOf(self, m.id)
    ensures prior(n, m)
  {
    var o := Offered(t, ignore);
    PairOffered(self, t, ignore, o, r, s, n, m);
    GivenByOffers(prior, o, r, max, s, n, m, result);
  }

  lemma SlotLatestFirst(self: NodeId, t: Table, ops: seq<TableOp>, ignore: seq<KNode>, s: nat,
                        prior: (KNode, KNode) -> bool)
    requires GoodTable(self, t) && s < BRANCHES
    requires forall x, y :: prior(x, y) <==> MoreRecent(self, ops, s, x, y)
    ensures OrderedSlot(prior, Offered(Run(self, t, ops), ignore), s)
  {
    OfferLatestFirst(self, t, ops, ignore, s + 1);
    OfferLatestFirst(self, t, ops, ignore, 0);
  }

  /** After every run, for every root, limit and ignore list: of two entries of one slot the search gives the one
      touched later, whatever the limit cuts off. */
  lemma LatestGiven(self: NodeId, t: Table, ops: seq<TableOp>, ignore: seq<KNode>, root: NodeId, max: nat,
                    n: KNode, m: KNode)
    requires GoodTable(self, t)
    requires n in CollectNodes(Run(self, t, ops), ignore, Distance(self, root), max)
    requires Eligible(Run(self, t, ops), ignore, m)
    requires m !in CollectNodes(Run(self, t, ops), ignore, Distance(self, root), max)
    requires SlotOf(self, n.id) == SlotOf(self, m.id)
    ensures MoreRecent(self, ops, SlotOf(self, n.id), n, m)
  {
    RunKeepsGood(self, t, ops);
    var after, r, s := Run(self, t, ops), Distance(self, root), SlotOf(self, n.id);
    var prior := (x: KNode, y: KNode) => MoreRecent(self, ops, s, x, y);
    SlotLatestFirst(self, t, ops, ignore, s, prior);
    GivenBySlot(prior, self, after, ignore, r, max, s, n, m, CollectNodes(after, ignore, r, max));
  }

  /** `n` stands further back in the bucket than `m`. */
  predicate FurtherBack(nodes: seq<KNode>, n: KNode, m: KNode) {
    exists i, j :: 0 <= j < i < |nodes| && nodes[i] == n && nodes[j] == m
  }

  lemma BackOffered(t: Table, ignore: seq<KNode>, b: nat, prior: (KNode, KNode) -> bool)
    requires b <= BRANCHES && forall x, y :: prior(x, y) <==> FurtherBack(t[Slot(b)], x, y)
    ensures InOrder(prior, Offered(t, ignore)[b])
  {
    var nodes := t[Slot(b)];
    var back := Reversed(nodes);
    forall i, j | 0 <= i < j < |back| ensures prior(back[i], back[j]) {
      assert back[i] == nodes[|nodes| - 1 - i] && back[j] == nodes[|nodes| - 1 - j];
    }
    KeptInOrder(prior, back, ignore);
  }

  lemma BackOrdersSlot(t: Table, ignore: seq<KNode>, s: nat, prior: (KNode, KNode) -> bool)
    requires s < BRANCHES && forall x, y :: prior(x, y) <==> FurtherBack(t[s], x, y)
    ensures OrderedSlot(prior, Offered(t, ignore), s)
  {
    BackOffered(t, ignore, s + 1, prior);
    if s == 0 {
      BackOffered(t, ignore, 0, prior);
    }
  }

  lemma OnePlace(nodes: seq<KNode>, i: nat, j: nat)
    requires DistinctIds(nodes) && i < |nodes| && j < |nodes| && FurtherBack(nodes, nodes[i], nodes[j])
    ensures j < i
  {
  }

  lemma LeftOutInFront(self: NodeId, t: Table, ignore: seq<KNode>, r: nat, max: nat, s: nat, n: KNode, m: KNode,
                       result: seq<KNode>)
    requires GoodTable(self, t) && s < BRANCHES && r <= BRANCHES && result == CollectNodes(t, ignore, r, max)
    requires n in t[s] && n in result && m in t[s] && !Contains(ignore, m.id) && m !in result
    ensures FurtherBack(t[s], n, m)
  {
    var prior := (x: KNode, y: KNode) => FurtherBack(t[s], x, y);
    BackOrdersSlot(t, ignore, s, prior);
    assert GoodBucket(self, t[s], s);
    GivenBySlot(prior, self, t, ignore, r, max, s, n, m, result);
  }

  /** With an entry of a bucket, everything behind it is returned that is not ignored. */
  ghost predicate GivesFromBack(t: Table, ignore: seq<KNode>, result: seq<KNode>) {
    forall s, i, j ::
      0 <= s < K_BUCKET_COUNT && 0 <= i < j < |t[s]| && t[s][i] in result && !Contains(ignore, t[s][j].id) ==>
        t[s][j] in result
  }

  /** So it is for every good table, root, limit and ignore list. */
  lemma BackIsGiven(self: NodeId, t: Table, ignore: seq<KNode>, r: nat, max: nat)
    requires GoodTable(self, t) && r <= BRANCHES
    ensures GivesFromBack(t, ignore, CollectNodes(t, ignore, r, max))
  {
    var result := CollectNodes(t, ignore, r, max);
    forall s: nat, i: nat, j: nat
      | s < K_BUCKET_COUNT && i < j < |t[s]| && t[s][i] in result && !Contains(ignore, t[s][j].id)
      ensures t[s][j] in result
    {
      BehindIsGiven(self, t, ignore, r, max, s, i, j, result);
    }
  }

  lemma BehindIsGiven(self: NodeId, t: Table, ignore: seq<KNode>, r: nat, max: nat, s: nat, i: nat, j: nat,
                      result: seq<KNode>)
    requires GoodTable(self, t) && r <= BRANCHES && result == CollectNodes(t, ignore, r, max)
    requires s < K_BUCKET_COUNT && i < j < |t[s]| && t[s][i] in result && !Contains(ignore, t[s][j].id)
    ensures t[s][j] in result
  {
    if t[s][j] !in result {
      LeftOutInFront(self, t, ignore, r, max, s, t[s][i], t[s][j], result);
      assert GoodBucket(self, t[s], s);
      OnePlace(t[s], i, j);
    }
  }

  // ---------------------------------------------------------------- the order of a whole result

  /** A walk that meets no slot twice meets everything in order. */
  lemma WalkInOrder(self: NodeId, t: Table, ops: seq<TableOp>, ignore: seq<KNode>, r: nat)
    returns (prior: (KNode, KNode) -> bool)
    requires GoodTable(self, t) && r <= BRANCHES && NoSharedSlot(Offered(Run(self, t, ops), ignore), r)
    ensures forall x, y :: prior(x, y) <==> Before(self, ops, r, x, y)
    ensures InOrder(prior, Everything(Offered(Run(self, t, ops), ignore), r))
  {
    var place;
    prior, place := OffersAfterRun(self, t, ops, ignore, r);
    RingInOrder(prior, place, Offered(Run(self, t, ops), ignore), r, BRANCHES);
  }

  ghost predicate GivenInOrder(self: NodeId, ops: seq<TableOp>, r: nat, result: seq<KNode>) {
    forall i, j :: 0 <= i < j < |result| ==> Before(self, ops, r, result[i], result[j])
  }

  lemma PlainWalk(self: NodeId, t: Table, ops: seq<TableOp>, ignore: seq<KNode>, r: nat, max: nat, result: seq<KNode>)
    requires GoodTable(self, t) && r <= BRANCHES && NoSharedSlot(Offered(Run(self, t, ops), ignore), r)
    requires result == CollectNodes(Run(self, t, ops), ignore, r, max)
    ensures GivenInOrder(self, ops, r, result)
    ensures forall i, m :: 0 <= i < |result| && i < max && Eligible(Run(self, t, ops), ignore, m) && m !in result ==>
              Before(self, ops, r, result[i], m)
  {
    var o := Offered(Run(self, t, ops), ignore);
    var prior := WalkInOrder(self, t, ops, ignore, r);
    var stop := CollectShape(o, r, max);
    SurplusInOrder(prior, result, Everything(o, r), max);
    forall i, m | 0 <= i < |result| && i < max && Eligible(Run(self, t, ops), ignore, m) && m !in result
      ensures Before(self, ops, r, result[i], m)
    {
      EverythingEligible(Run(self, t, ops), ignore, r, m);
      assert prior(result[i], m);
    }
  }

  /** Around the own id the walk can repeat slot 0, and nothing else. */
  lemma RepeatsOrShares(self: NodeId, t: Table, ignore: seq<KNode>, root: NodeId, max: nat)
    requires GoodTable(self, t)
    ensures Distance(self, root) == 0 <==> root == self
    ensures var o, r := Offered(t, ignore), Distance(self, root);
            NoSharedSlot(o, r) || (r == 0 && |o[0]| >= max) || !DistinctIds(CollectNodes(t, ignore, r, max))
  {
    PrefixFullIffEqual(self, root);
    SharedSlotOffers(t, ignore);
    CollectRepeatsExactlyWhen(self, t, ignore, root, max);
  }

  lemma OwnSlotInOrder(self: NodeId, t: Table, ops: seq<TableOp>, ignore: seq<KNode>, max: nat, result: seq<KNode>)
    requires GoodTable(self, t) && result == PushThenTest(Offered(Run(self, t, ops), ignore)[0], max)
    ensures GivenInOrder(self, ops, 0, result)
  {
    var offer := Offered(Run(self, t, ops), ignore)[0];
    OfferLatestFirst(self, t, ops, ignore, 0);
    assert forall i :: 0 <= i < |result| ==> result[i] == offer[i] && offer[i] in offer;
  }

  /** The order of visit in slots: nearer the root's slot first, and of two equally near the lower first. */
  lemma RankBySlots(self: NodeId, root: NodeId, x: nat, y: nat)
    requires x < BRANCHES && y < BRANCHES
    ensures var s, r := SlotOf(self, root), Distance(self, root);
            VisitRank(r, x) < VisitRank(r, y) <==> Abs(x - s) < Abs(y - s) || (Abs(x - s) == Abs(y - s) && x < y)
  {
  }

  lemma WholeInOrder(self: NodeId, t: Table, ops: seq<TableOp>, ignore: seq<KNode>, root: NodeId, max: nat,
                     result: seq<KNode>, i: nat, j: nat)
    requires GoodTable(self, t) && result == CollectNodes(Run(self, t, ops), ignore, Distance(self, root), max)
    requires DistinctIds(result) && i < j < |result|
    ensures Before(self, ops, Distance(self, root), result[i], result[j])
  {
    var after, r := Run(self, t, ops), Distance(self, root);
    RunKeepsGood(self, t, ops);
    RepeatsOrShares(self, after, ignore, root, max);
    if NoSharedSlot(Offered(after, ignore), r) {
      PlainWalk(self, t, ops, ignore, r, max, result);
    } else {
      OwnSlotInOrder(self, t, ops, ignore, max, result);
    }
  }

  lemma BeforeInSlots(self: NodeId, ops: seq<TableOp>, root: NodeId, n: KNode, m: KNode)
    requires Before(self, ops, Distance(self, root), n, m)
    ensures var s, x, y := SlotOf(self, root), SlotOf(self, n.id), SlotOf(self, m.id);
            || Abs(x - s) < Abs(y - s)
            || (Abs(x - s) == Abs(y - s) && x < y)
            || (x == y && MoreRecent(self, ops, x, n, m))
  {
    RankBySlots(self, root, SlotOf(self, n.id), SlotOf(self, m.id));
  }

  /** After every run, for every root, limit and ignore list: unless some id is returned twice, the result stands in
      the order of visit, and within a slot latest touch first. */
  lemma ReturnedInOrder(self: NodeId, t: Table, ops: seq<TableOp>, ignore: seq<KNode>, root: NodeId, max: nat,
                        result: seq<KNode>, i: nat, j: nat)
    requires GoodTable(self, t) && result == CollectNodes(Run(self, t, ops), ignore, Distance(self, root), max)
    requires DistinctIds(result) && i < j < |result|
    ensures var s, x, y := SlotOf(self, root), SlotOf(self, result[i].id), SlotOf(self, result[j].id);
            || Abs(x - s) < Abs(y - s)
            || (Abs(x - s) == Abs(y - s) && x < y)
            || (x == y && MoreRecent(self, ops, x, result[i], result[j]))
  {
    WholeInOrder(self, t, ops, ignore, root, max, result, i, j);
    BeforeInSlots(self, ops, root, result[i], result[j]);
  }

  lemma LeftOutAfter(self: NodeId, t: Table, ops: seq<TableOp>, ignore: seq<KNode>, root: NodeId, max: nat,
                     i: nat, m: KNode, result: seq<KNode>)
    requires GoodTable(self, t) && result == CollectNodes(Run(self, t, ops), ignore, Distance(self, root), max)
    requires i < |result| && i < max && m !in result && Eligible(Run(self, t, ops), ignore, m)
    ensures Before(self, ops, Distance(self, root), result[i], m)
  {
    var after, r := Run(self, t, ops), Distance(self, root);
    RunKeepsGood(self, t, ops);
    if r >= 1 {
      PlainWalk(self, t, ops, ignore, r, max, result);
    } else {
      assert result[i] in result;
      TakenVisitedFirst(self, after, ignore, r, max, result[i], m);
      if SlotOf(self, result[i].id) == SlotOf(self, m.id) {
        LatestGiven(self, t, ops, ignore, root, max, result[i], m);
      }
    }
  }

  /** What is left out comes, in that order, behind every entry returned but a surplus one. */
  lemma LeftOutBehind(self: NodeId, t: Table, ops: seq<TableOp>, ignore: seq<KNode>, root: NodeId, max: nat,
                      result: seq<KNode>, i: nat, m: KNode)
    requires GoodTable(self, t) && result == CollectNodes(Run(self, t, ops), ignore, Distance(self, root), max)
    requires i < |result| && i < max && Eligible(Run(self, t, ops), ignore, m) && m !in result
    ensures var s, x, y := SlotOf(self, root), SlotOf(self, result[i].id), SlotOf(self, m.id);
            || Abs(x - s) < Abs(y - s)
            || (Abs(x - s) == Abs(y - s) && x < y)
            || (x == y && MoreRecent(self, ops, x, result[i], m))
  {
    LeftOutAfter(self, t, ops, ignore, root, max, i, m, result);
    BeforeInSlots(self, ops, root, result[i], m);
  }
}
