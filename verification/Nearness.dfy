/** How near the root the entries are that `collect_node` returns, and exactly when it is nearest-first
    (src/ss_p2p/kademlia/k_routing_table.cpp). */
module Nearness {
  import opened NodeIds
  import opened Nodes
  import opened Tables
  import opened SearchOrder
  import opened Collecting

  // ---------------------------------------------------------------- distance by slot

  /** How far an id is from the root, from the two branches alone. */
  lemma DistanceByBranch(self: NodeId, root: NodeId, x: NodeId)
    requires root != self && x != self
    ensures var r, b := Distance(self, root), Distance(self, x);
            && (b == r ==> Distance(root, x) < r)
            && (b < r ==> Distance(root, x) == r)
            && (b > r ==> Distance(root, x) == b)
  {
    PrefixFullIffEqual(self, root);
    PrefixSymmetric(self, root);
    if Distance(self, x) == Distance(self, root) {
      SameBranchCloser(self, root, x);
    } else {
      Ultrametric(root, self, x);
    }
  }

  /** The same from the slots, the table's own id in slot 0 included. */
  lemma DistanceBySlot(self: NodeId, root: NodeId, x: NodeId)
    requires root != self
    ensures var r, v := Distance(self, root), SlotOf(self, x) + 1;
            && (v == r ==> Distance(root, x) <= r && (r > 1 ==> Distance(root, x) < r))
            && (v < r ==> Distance(root, x) == r)
            && (v > r ==> Distance(root, x) == v)
  {
    SlotIsBranch(self, x);
    PrefixFullIffEqual(self, root);
    PrefixSymmetric(self, root);
    if x != self {
      DistanceByBranch(self, root, x);
    }
  }

  /** The round in which a root at branch `r` first visits slot `s`. */
  function Round(r: nat, s: nat): nat {
    if r == 0 && s == 0 then 0 else Abs(s + 1 - r)
  }

  lemma TakenRound(self: NodeId, t: Table, ignore: seq<KNode>, r: nat, k: nat, n: KNode)
    requires GoodTable(self, t) && r <= BRANCHES && n in Ring(Offered(t, ignore), r, k)
    ensures Round(r, SlotOf(self, n.id)) <= k
    ensures n in Offered(t, ignore)[SlotOf(self, n.id) + 1]
  {
    var o := Offered(t, ignore);
    var b := RingSource(o, r, k, n);
    OfferedMembers(t, ignore, b);
    assert GoodBucket(self, t[Slot(b)], Slot(b));
    OfferedMembers(t, ignore, Slot(b) + 1);
  }

  lemma StoredSlot(self: NodeId, t: Table, ignore: seq<KNode>, m: KNode)
    requires GoodTable(self, t) && Eligible(t, ignore, m)
    ensures m in t[SlotOf(self, m.id)]
    ensures m in Offered(t, ignore)[SlotOf(self, m.id) + 1]
    ensures SlotOf(self, m.id) == 0 ==> m in Offered(t, ignore)[0]
  {
    var s: nat :| s < K_BUCKET_COUNT && m in t[s];
    assert GoodBucket(self, t[s], s);
    OfferedMembers(t, ignore, s + 1);
    OfferedMembers(t, ignore, 0);
  }

  lemma EarlierRoundKept(o: Offers<KNode>, r: nat, result: seq<KNode>, k: nat, stop: nat, m: KNode)
    requires r <= BRANCHES && StoppedAt(o, r, result, stop)
    requires k < stop && m in Ring(o, r, k)
    ensures m in result
  {
    RingPrefix(o, r, k, stop - 1);
    InPrefix(Ring(o, r, k), Ring(o, r, stop - 1));
    InPrefix(Ring(o, r, stop - 1), result);
  }

  /** A returned entry's bucket is visited no later than that of an eligible entry left out. */
  lemma TakenVisitedFirst(self: NodeId, t: Table, ignore: seq<KNode>, r: nat, max: nat, n: KNode, m: KNode)
    requires GoodTable(self, t) && r <= BRANCHES
    requires n in CollectNodes(t, ignore, r, max)
    requires Eligible(t, ignore, m) && m !in CollectNodes(t, ignore, r, max)
    ensures Round(r, SlotOf(self, n.id)) <= Round(r, SlotOf(self, m.id))
  {
    var stop := CollectShape(Offered(t, ignore), r, max);
    TakenRound(self, t, ignore, r, stop, n);
    LeftOutLate(self, t, ignore, r, CollectNodes(t, ignore, r, max), stop, m);
  }

  lemma LeftOutRound(o: Offers<KNode>, r: nat, result: seq<KNode>, stop: nat, s: nat, m: KNode)
    requires r <= BRANCHES && s < BRANCHES && m in o[s + 1] && (s == 0 ==> m in o[0])
    requires StoppedAt(o, r, result, stop) && m !in result
    ensures Round(r, s) >= stop
  {
    if r == 0 && s == 0 {
      if 0 < stop {
        EarlierRoundKept(o, r, result, 0, stop, m);
      }
    } else {
      LeftOutBeyond(o, r, result, stop, s + 1, m);
    }
  }

  lemma StoredAt(self: NodeId, t: Table, ignore: seq<KNode>, m: KNode) returns (s: nat)
    requires GoodTable(self, t) && Eligible(t, ignore, m)
    ensures s < BRANCHES && s == SlotOf(self, m.id)
    ensures m in Offered(t, ignore)[s + 1] && (s == 0 ==> m in Offered(t, ignore)[0])
  {
    s := SlotOf(self, m.id);
    StoredSlot(self, t, ignore, m);
  }

  lemma LeftOutLate(self: NodeId, t: Table, ignore: seq<KNode>, r: nat, result: seq<KNode>, stop: nat, m: KNode)
    requires GoodTable(self, t) && r <= BRANCHES && Eligible(t, ignore, m)
    requires StoppedAt(Offered(t, ignore), r, result, stop) && m !in result
    ensures Round(r, SlotOf(self, m.id)) >= stop
  {
    var s := StoredAt(self, t, ignore, m);
    LeftOutRound(Offered(t, ignore), r, result, stop, s, m);
  }

  // ---------------------------------------------------------------- one pair

  /** Exactly when a returned entry is at least as near the root as an eligible one left out, pairs within the
      root's own bucket aside: always, except when the one returned is above that bucket and the other below.
      Entries returned from the root's own bucket beat everything outside it. */
  lemma NearerPairExactly(self: NodeId, t: Table, ignore: seq<KNode>, root: NodeId, max: nat, n: KNode, m: KNode)
    requires GoodTable(self, t)
    requires n in CollectNodes(t, ignore, Distance(self, root), max)
    requires Eligible(t, ignore, m) && m !in CollectNodes(t, ignore, Distance(self, root), max)
    requires !(SlotOf(self, n.id) == SlotOf(self, root) == SlotOf(self, m.id))
    ensures Distance(root, n.id) <= Distance(root, m.id) <==>
            !(SlotOf(self, m.id) < SlotOf(self, root) < SlotOf(self, n.id))
    ensures SlotOf(self, n.id) == SlotOf(self, root) ==> Distance(root, n.id) < Distance(root, m.id)
  {
    TakenVisitedFirst(self, t, ignore, Distance(self, root), max, n, m);
    SlotIsBranch(self, root);
    if root == self {
      SlotIsBranch(self, n.id);
      SlotIsBranch(self, m.id);
    } else {
      DistanceBySlot(self, root, n.id);
      DistanceBySlot(self, root, m.id);
    }
  }

  // ---------------------------------------------------------------- a whole search

  /** Some round is begun whose lower half has an entry to offer. */
  ghost predicate TakesAbove<T>(o: Offers<T>, r: nat, max: nat)
    requires r <= BRANCHES
  {
    exists k :: TakesAboveIn(o, r, max, k)
  }

  predicate TakesAboveIn<T>(o: Offers<T>, r: nat, max: nat, k: nat)
    requires r <= BRANCHES
  {
    1 <= k <= BRANCHES && Begun(o, r, max, k) && Lower(o, r, k) != []
  }

  /** Some upper half with an entry to offer does not fit. */
  ghost predicate LeavesBelow<T>(o: Offers<T>, r: nat, max: nat)
    requires r <= BRANCHES
  {
    exists k :: LeavesBelowIn(o, r, max, k)
  }

  predicate LeavesBelowIn<T>(o: Offers<T>, r: nat, max: nat, k: nat)
    requires r <= BRANCHES
  {
    1 <= k <= BRANCHES && Upper(o, r, k) != [] && |Ring(o, r, k - 1) + Upper(o, r, k)| > max
  }

  /** What the root's own bucket gives away is at least as near as what it keeps. */
  ghost predicate OwnBucketInOrder(offer: seq<KNode>, root: NodeId, max: nat) {
    var taken := |PushThenTest(offer, max)|;
    forall i, j :: 0 <= i < taken <= j < |offer| ==> Distance(root, offer[i].id) <= Distance(root, offer[j].id)
  }

  ghost predicate NearestFirst(self: NodeId, t: Table, ignore: seq<KNode>, root: NodeId, max: nat) {
    var result := CollectNodes(t, ignore, Distance(self, root), max);
    forall n, m :: n in result && m !in result && Eligible(t, ignore, m) ==>
      Distance(root, n.id) <= Distance(root, m.id)
  }

  /** A round keeps all of what the rounds before it found. */
  lemma RoundKeeps(o: Offers<KNode>, r: nat, max: nat, k: nat, j: nat, n: KNode)
    requires r <= BRANCHES && Begun(o, r, max, k) && j < k && n in Ring(o, r, j)
    ensures n in RoundResult(o, r, max, k)
  {
    var before := Ring(o, r, k - 1);
    InEarlierRing(o, r, j, k - 1, n, before);
    var middle := PushThenTest(before + Upper(o, r, k), max);
    var more := PushThenTest(Lower(o, r, k), if |middle| < max then max - |middle| else 0);
    KeptThrough(before, Upper(o, r, k), more, max, n);
  }

  lemma InEarlierRing(o: Offers<KNode>, r: nat, j: nat, k: nat, n: KNode, ring: seq<KNode>)
    requires r <= BRANCHES && j <= k && n in Ring(o, r, j) && ring == Ring(o, r, k)
    ensures n in ring
  {
    RingPrefix(o, r, j, k);
    InPrefix(Ring(o, r, j), ring);
  }

  lemma KeptThrough(before: seq<KNode>, up: seq<KNode>, more: seq<KNode>, max: nat, n: KNode)
    requires |before| < max && n in before
    ensures n in PushThenTest(before + up, max) + more
  {
    var i :| 0 <= i < |before| && before[i] == n;
    assert (PushThenTest(before + up, max) + more)[i] == n;
  }

  /** What a round's half offers is among what the next rounds keep. */
  lemma HalfKept(o: Offers<KNode>, r: nat, max: nat, k: nat, j: nat, n: KNode, result: seq<KNode>)
    requires r <= BRANCHES && Begun(o, r, max, k) && 0 < j < k && (n in Upper(o, r, j) || n in Lower(o, r, j))
    requires result == RoundResult(o, r, max, k)
    ensures n in result
  {
    InRound(o, r, j, n);
    RoundKeeps(o, r, max, k, j, n);
  }

  lemma LowerFirstTaken(o: Offers<KNode>, r: nat, max: nat, k: nat, n: KNode, result: seq<KNode>)
    requires r <= BRANCHES && k > 0 && Lower(o, r, k) != [] && n == Lower(o, r, k)[0]
    requires result == RoundResult(o, r, max, k)
    ensures n in result
  {
    var middle := PushThenTest(Ring(o, r, k - 1) + Upper(o, r, k), max);
    var taken := PushThenTest(Lower(o, r, k), if |middle| < max then max - |middle| else 0);
    assert taken[0] == Lower(o, r, k)[0];
  }

  lemma InRound(o: Offers<KNode>, r: nat, k: nat, n: KNode)
    requires r <= BRANCHES && k > 0 && (n in Upper(o, r, k) || n in Lower(o, r, k))
    ensures n in Ring(o, r, k)
  {
  }

  lemma AboveTaken(o: Offers<KNode>, r: nat, max: nat, k: nat) returns (n: KNode)
    requires r <= BRANCHES && TakesAboveIn(o, r, max, k)
    ensures n in Collect(o, r, max) && n in Lower(o, r, k)
  {
    var stop := CollectEnds(o, r, max);
    LastRoundByCount(o, r, max, stop, k);
    n := TakenByRound(o, r, max, k, stop, Collect(o, r, max));
  }

  lemma TakenByRound(o: Offers<KNode>, r: nat, max: nat, k: nat, stop: nat, result: seq<KNode>) returns (n: KNode)
    requires r <= BRANCHES && 0 < k <= stop && Begun(o, r, max, stop) && Lower(o, r, k) != []
    requires result == RoundResult(o, r, max, stop)
    ensures n in result && n in Lower(o, r, k)
  {
    var down := Lower(o, r, k);
    n := down[0];
    assert n in down;
    if k < stop {
      HalfKept(o, r, max, stop, k, n, result);
    } else {
      LowerFirstTaken(o, r, max, stop, n, result);
    }
  }

  /** Round `k` is the last, or an earlier or later one, by what was found before it. */
  lemma LastRoundByCount<T>(o: Offers<T>, r: nat, max: nat, stop: nat, k: nat)
    requires r <= BRANCHES && stop <= BRANCHES && Begun(o, r, max, stop)
    requires stop < BRANCHES ==> |Ring(o, r, stop)| >= max
    ensures k < stop ==> |Ring(o, r, k)| < max
    ensures k <= stop ==> Begun(o, r, max, k)
    ensures stop < k <= BRANCHES ==> |Ring(o, r, k - 1)| >= max
  {
    if k < stop {
      EarlierTooFew(o, r, max, stop, k);
      if k > 0 {
        EarlierTooFew(o, r, max, stop, k - 1);
      }
    } else if stop < k <= BRANCHES {
      LaterNotBegun(o, r, max, stop, k);
    }
  }

  /** Entries of distinct slots apart: what a longer walk adds was not met before. */
  lemma NotMetBefore(place: NodeId -> int, o: Offers<KNode>, r: nat, j: nat, k: nat, m: KNode)
    requires SpreadOffers(place, o) && r <= BRANCHES && j < k && m in Upper(o, r, k)
    ensures m !in Ring(o, r, j) && m !in Lower(o, r, k)
  {
    RingSpread(place, o, r, j);
    HalvesSpread(place, o, r, k);
  }

  /** The last entry of an upper half that does not fit is left out. */
  lemma BelowLeft(place: NodeId -> int, o: Offers<KNode>, r: nat, max: nat, k: nat) returns (m: KNode)
    requires SpreadOffers(place, o) && r <= BRANCHES && LeavesBelowIn(o, r, max, k)
    ensures m in Upper(o, r, k) && m !in Collect(o, r, max)
  {
    var stop := CollectEnds(o, r, max);
    m := LeftByRound(place, o, r, max, k, stop);
  }

  lemma LeftByRound(place: NodeId -> int, o: Offers<KNode>, r: nat, max: nat, k: nat, stop: nat) returns (m: KNode)
    requires SpreadOffers(place, o) && r <= BRANCHES && LeavesBelowIn(o, r, max, k)
    requires stop <= BRANCHES && Begun(o, r, max, stop) && (stop < BRANCHES ==> |Ring(o, r, stop)| >= max)
    ensures m in Upper(o, r, k) && m !in RoundResult(o, r, max, stop)
  {
    if stop < k {
      var visited := Ring(o, r, stop);
      UpperNew(place, o, r, stop, k, visited);
      m := NotVisited(o, r, max, k, stop, visited);
    } else {
      CutRoundIsLast(o, r, max, k, stop);
      m := LeftByLast(place, o, r, max, k);
    }
  }

  lemma CutRoundIsLast(o: Offers<KNode>, r: nat, max: nat, k: nat, stop: nat)
    requires r <= BRANCHES && LeavesBelowIn(o, r, max, k) && k <= stop
    requires stop <= BRANCHES && Begun(o, r, max, stop) && (stop < BRANCHES ==> |Ring(o, r, stop)| >= max)
    ensures k == stop
  {
    LastRoundByCount(o, r, max, stop, k);
    RoundSize(o, r, k);
  }

  lemma LeftByLast(place: NodeId -> int, o: Offers<KNode>, r: nat, max: nat, k: nat) returns (m: KNode)
    requires SpreadOffers(place, o) && r <= BRANCHES && LeavesBelowIn(o, r, max, k) && Begun(o, r, max, k)
    ensures m in Upper(o, r, k) && m !in RoundResult(o, r, max, k)
  {
    var before := Ring(o, r, k - 1);
    UpperIsFresh(place, o, r, k, before);
    m := CutOff(o, r, max, k, before);
  }

  /** An upper half repeats no id, and shares nothing with what was found before it or with the lower half. */
  ghost predicate FreshUpper(o: Offers<KNode>, r: nat, k: nat, before: seq<KNode>)
    requires r <= BRANCHES
  {
    && DistinctIds(Upper(o, r, k))
    && forall x :: x in Upper(o, r, k) ==> x !in before && x !in Lower(o, r, k)
  }

  lemma UpperIsFresh(place: NodeId -> int, o: Offers<KNode>, r: nat, k: nat, before: seq<KNode>)
    requires SpreadOffers(place, o) && r <= BRANCHES && k > 0 && before == Ring(o, r, k - 1)
    ensures FreshUpper(o, r, k, before)
  {
    UpperDistinct(place, o, r, k);
    UpperNew(place, o, r, k - 1, k, before);
  }

  lemma UpperNew(place: NodeId -> int, o: Offers<KNode>, r: nat, j: nat, k: nat, visited: seq<KNode>)
    requires SpreadOffers(place, o) && r <= BRANCHES && j < k && visited == Ring(o, r, j)
    ensures forall m :: m in Upper(o, r, k) ==> m !in visited && m !in Lower(o, r, k)
  {
    forall m | m in Upper(o, r, k) ensures m !in visited && m !in Lower(o, r, k) {
      NotMetBefore(place, o, r, j, k, m);
    }
  }

  lemma NotVisited(o: Offers<KNode>, r: nat, max: nat, k: nat, stop: nat, visited: seq<KNode>) returns (m: KNode)
    requires r <= BRANCHES && Upper(o, r, k) != [] && visited == Ring(o, r, stop)
    requires forall x :: x in Upper(o, r, k) ==> x !in visited
    ensures m in Upper(o, r, k) && m !in RoundResult(o, r, max, stop)
  {
    m := Upper(o, r, k)[0];
    assert m in Upper(o, r, k);
    RoundFromRing(o, r, max, stop);
  }

  lemma RoundFromRing(o: Offers<KNode>, r: nat, max: nat, k: nat)
    requires r <= BRANCHES
    ensures forall n :: n in RoundResult(o, r, max, k) ==> n in Ring(o, r, k)
  {
  }

  lemma CutOff(o: Offers<KNode>, r: nat, max: nat, k: nat, before: seq<KNode>) returns (m: KNode)
    requires r <= BRANCHES && LeavesBelowIn(o, r, max, k) && Begun(o, r, max, k)
    requires before == Ring(o, r, k - 1) && FreshUpper(o, r, k, before)
    ensures m in Upper(o, r, k) && m !in RoundResult(o, r, max, k)
  {
    m := LastCutOff(before, Upper(o, r, k), max);
    NotInRound(o, r, max, k, m);
  }

  lemma UpperDistinct(place: NodeId -> int, o: Offers<KNode>, r: nat, k: nat)
    requires SpreadOffers(place, o) && r <= BRANCHES
    ensures DistinctIds(Upper(o, r, k))
  {
  }

  lemma NotInRound(o: Offers<KNode>, r: nat, max: nat, k: nat, m: KNode)
    requires r <= BRANCHES && k > 0
    requires m !in PushThenTest(Ring(o, r, k - 1) + Upper(o, r, k), max) && m !in Lower(o, r, k)
    ensures m !in RoundResult(o, r, max, k)
  {
    var middle := PushThenTest(Ring(o, r, k - 1) + Upper(o, r, k), max);
    InPrefix(PushThenTest(Lower(o, r, k), if |middle| < max then max - |middle| else 0), Lower(o, r, k));
  }

  lemma LastCutOff(before: seq<KNode>, up: seq<KNode>, max: nat) returns (m: KNode)
    requires DistinctIds(up) && forall x :: x in up ==> x !in before
    requires |before| < max < |before + up|
    ensures m in up && m !in PushThenTest(before + up, max)
  {
    m := up[|up| - 1];
    var taken := PushThenTest(before + up, max);
    forall i | 0 <= i < |taken| ensures taken[i] != m {
      assert taken[i] == (before + up)[i];
      if i < |before| {
        assert before[i] in before;
      }
    }
  }

  lemma FromItsRings(o: Offers<KNode>, r: nat, max: nat, stop: nat, n: KNode, result: seq<KNode>)
    requires r <= BRANCHES && result == RoundResult(o, r, max, stop) && n in result
    ensures n in Ring(o, r, stop)
  {
    RoundFromRing(o, r, max, stop);
  }

  lemma OfferedAbove(o: Offers<KNode>, r: nat, s: nat, n: KNode)
    requires r <= BRANCHES && Slot(r) < s < BRANCHES && n in o[s + 1]
    ensures 1 <= Round(r, s) <= BRANCHES && n in Lower(o, r, Round(r, s))
  {
  }

  lemma ReturnedWithin(self: NodeId, t: Table, ignore: seq<KNode>, r: nat, max: nat, n: KNode) returns (stop: nat)
    requires GoodTable(self, t) && r <= BRANCHES && n in CollectNodes(t, ignore, r, max)
    ensures Begun(Offered(t, ignore), r, max, stop) && Round(r, SlotOf(self, n.id)) <= stop
    ensures n in Offered(t, ignore)[SlotOf(self, n.id) + 1]
  {
    stop := CollectEnds(Offered(t, ignore), r, max);
    FromItsRings(Offered(t, ignore), r, max, stop, n, CollectNodes(t, ignore, r, max));
    TakenRound(self, t, ignore, r, stop, n);
  }

  lemma AboveBegun(o: Offers<KNode>, r: nat, max: nat, stop: nat, s: nat, n: KNode)
    requires r <= BRANCHES && Slot(r) < s < BRANCHES && n in o[s + 1]
    requires Begun(o, r, max, stop) && Round(r, s) <= stop
    ensures TakesAbove(o, r, max)
  {
    OfferedAbove(o, r, s, n);
    EarlierTooFew(o, r, max, stop, Round(r, s) - 1);
    assert TakesAboveIn(o, r, max, Round(r, s));
  }

  lemma ReturnedFromAbove(self: NodeId, t: Table, ignore: seq<KNode>, r: nat, max: nat, n: KNode)
    requires GoodTable(self, t) && r <= BRANCHES && n in CollectNodes(t, ignore, r, max)
    requires SlotOf(self, n.id) > Slot(r)
    ensures TakesAbove(Offered(t, ignore), r, max)
  {
    var stop := ReturnedWithin(self, t, ignore, r, max, n);
    AboveBegun(Offered(t, ignore), r, max, stop, SlotOf(self, n.id), n);
  }

  lemma LeftOutNotEarlier(o: Offers<KNode>, r: nat, max: nat, stop: nat, k: nat, m: KNode)
    requires r <= BRANCHES && Begun(o, r, max, stop) && k > 0 && m in Upper(o, r, k)
    requires m !in RoundResult(o, r, max, stop)
    ensures k >= stop
  {
    if k < stop {
      HalfKept(o, r, max, stop, k, m, RoundResult(o, r, max, stop));
    }
  }

  lemma UpperOverflows(o: Offers<KNode>, r: nat, max: nat, k: nat, m: KNode)
    requires r <= BRANCHES && k > 0 && m in Upper(o, r, k) && m !in RoundResult(o, r, max, k)
    ensures |Ring(o, r, k - 1) + Upper(o, r, k)| > max
  {
    assert m in Ring(o, r, k - 1) + Upper(o, r, k);
  }

  lemma LeftOutOverflows(o: Offers<KNode>, r: nat, max: nat, k: nat, m: KNode)
    requires r <= BRANCHES && 1 <= k <= BRANCHES && m in Upper(o, r, k) && m !in Collect(o, r, max)
    ensures LeavesBelowIn(o, r, max, k)
  {
    var stop := CollectEnds(o, r, max);
    LeftOutNotEarlier(o, r, max, stop, k, m);
    if k == stop {
      UpperOverflows(o, r, max, k, m);
    } else {
      LastRoundByCount(o, r, max, stop, k);
    }
  }

  lemma OfferedBelow(o: Offers<KNode>, r: nat, s: nat, m: KNode)
    requires r <= BRANCHES && s < Slot(r) && m in o[s + 1]
    ensures 1 <= Round(r, s) <= BRANCHES && m in Upper(o, r, Round(r, s))
  {
  }

  lemma LeftOutBelow(self: NodeId, t: Table, ignore: seq<KNode>, r: nat, max: nat, m: KNode)
    requires GoodTable(self, t) && r <= BRANCHES && Eligible(t, ignore, m) && m !in CollectNodes(t, ignore, r, max)
    requires SlotOf(self, m.id) < Slot(r)
    ensures LeavesBelow(Offered(t, ignore), r, max)
  {
    var o, s := Offered(t, ignore), SlotOf(self, m.id);
    StoredSlot(self, t, ignore, m);
    OfferedBelow(o, r, s, m);
    LeftOutOverflows(o, r, max, Round(r, s), m);
  }

  /** Within the root's own bucket an entry is left out only when that bucket alone fills the result. */
  lemma OwnBucketSplit(self: NodeId, t: Table, ignore: seq<KNode>, r: nat, max: nat, m: KNode)
    requires GoodTable(self, t) && r <= BRANCHES && Eligible(t, ignore, m) && m !in CollectNodes(t, ignore, r, max)
    requires SlotOf(self, m.id) == Slot(r)
    ensures m in Offered(t, ignore)[r]
    ensures CollectNodes(t, ignore, r, max) == PushThenTest(Offered(t, ignore)[r], max)
  {
    var o := Offered(t, ignore);
    var stop := CollectEnds(o, r, max);
    StoredSlot(self, t, ignore, m);
    if stop > 0 {
      RoundKeeps(o, r, max, stop, 0, m);
    }
  }

  lemma OutOfOrderPair(offer: seq<KNode>, root: NodeId, max: nat) returns (n: KNode, m: KNode)
    requires DistinctIds(offer) && !OwnBucketInOrder(offer, root, max)
    ensures n in PushThenTest(offer, max) && m in offer && m !in PushThenTest(offer, max)
    ensures Distance(root, n.id) > Distance(root, m.id) && |offer| >= max
  {
    var taken := PushThenTest(offer, max);
    var i, j :| 0 <= i < |taken| <= j < |offer| && Distance(root, offer[i].id) > Distance(root, offer[j].id);
    n, m := taken[i], offer[j];
    assert forall x :: 0 <= x < |taken| ==> taken[x] == offer[x];
  }

  lemma OwnBucketFails(self: NodeId, t: Table, ignore: seq<KNode>, root: NodeId, max: nat)
    requires GoodTable(self, t) && !OwnBucketInOrder(Offered(t, ignore)[Distance(self, root)], root, max)
    ensures !NearestFirst(self, t, ignore, root, max)
  {
    var r := Distance(self, root);
    OfferedGood(self, t, ignore);
    OfferedMembers(t, ignore, r);
    var n, m := OutOfOrderPair(Offered(t, ignore)[r], root, max);
    assert Eligible(t, ignore, m);
    assert n in CollectNodes(t, ignore, r, max) && m !in CollectNodes(t, ignore, r, max);
  }

  lemma OfferedSlot(self: NodeId, t: Table, ignore: seq<KNode>, b: nat, n: KNode)
    requires GoodTable(self, t) && b <= BRANCHES && n in Offered(t, ignore)[b]
    ensures Eligible(t, ignore, n) && SlotOf(self, n.id) == Slot(b)
  {
    OfferedMembers(t, ignore, b);
    assert GoodBucket(self, t[Slot(b)], Slot(b));
  }

  lemma BelowRoot(self: NodeId, t: Table, ignore: seq<KNode>, r: nat, k: nat, n: KNode)
    requires GoodTable(self, t) && r <= BRANCHES && k > 0 && n in Upper(Offered(t, ignore), r, k)
    ensures Eligible(t, ignore, n) && SlotOf(self, n.id) < Slot(r)
  {
    OfferedSlot(self, t, ignore, r - k, n);
  }

  lemma AboveRoot(self: NodeId, t: Table, ignore: seq<KNode>, r: nat, k: nat, n: KNode)
    requires GoodTable(self, t) && 0 < r <= BRANCHES && k > 0 && n in Lower(Offered(t, ignore), r, k)
    ensures SlotOf(self, n.id) > Slot(r)
  {
    OfferedSlot(self, t, ignore, r + k, n);
  }

  lemma CrossingFails(self: NodeId, t: Table, ignore: seq<KNode>, root: NodeId, max: nat)
    requires GoodTable(self, t)
    requires TakesAbove(Offered(t, ignore), Distance(self, root), max)
    requires LeavesBelow(Offered(t, ignore), Distance(self, root), max)
    ensures !NearestFirst(self, t, ignore, root, max)
  {
    var o, r := Offered(t, ignore), Distance(self, root);
    OfferedGood(self, t, ignore);
    var place := PlacedBySlot(self, o);
    var k :| TakesAboveIn(o, r, max, k);
    var j :| LeavesBelowIn(o, r, max, j);
    var n := AboveTaken(o, r, max, k);
    var m := BelowLeft(place, o, r, max, j);
    AboveRoot(self, t, ignore, r, k, n);
    BelowRoot(self, t, ignore, r, j, m);
    NearerPairExactly(self, t, ignore, root, max, n, m);
  }

  lemma NearestFirstPair(self: NodeId, t: Table, ignore: seq<KNode>, root: NodeId, max: nat, n: KNode, m: KNode)
    requires GoodTable(self, t)
    requires var o, r := Offered(t, ignore), Distance(self, root);
             !(TakesAbove(o, r, max) && LeavesBelow(o, r, max))
    requires OwnBucketInOrder(Offered(t, ignore)[Distance(self, root)], root, max)
    requires n in CollectNodes(t, ignore, Distance(self, root), max)
    requires m !in CollectNodes(t, ignore, Distance(self, root), max) && Eligible(t, ignore, m)
    ensures Distance(root, n.id) <= Distance(root, m.id)
  {
    var r := Distance(self, root);
    if SlotOf(self, n.id) == SlotOf(self, root) == SlotOf(self, m.id) {
      OwnBucketSplit(self, t, ignore, r, max, m);
      InOrderPair(Offered(t, ignore)[r], root, max, n, m);
    } else {
      NearerPairExactly(self, t, ignore, root, max, n, m);
      if SlotOf(self, m.id) < SlotOf(self, root) < SlotOf(self, n.id) {
        ReturnedFromAbove(self, t, ignore, r, max, n);
        LeftOutBelow(self, t, ignore, r, max, m);
      }
    }
  }

  lemma InOrderPair(offer: seq<KNode>, root: NodeId, max: nat, n: KNode, m: KNode)
    requires OwnBucketInOrder(offer, root, max)
    requires n in PushThenTest(offer, max) && m in offer && m !in PushThenTest(offer, max)
    ensures Distance(root, n.id) <= Distance(root, m.id)
  {
    var taken := PushThenTest(offer, max);
    var i :| 0 <= i < |taken| && taken[i] == n;
    assert forall x :: 0 <= x < |taken| ==> offer[x] == taken[x] && taken[x] in taken;
    var j :| 0 <= j < |offer| && offer[j] == m;
  }

  /** Exactly when a search is nearest-first, for every good table, root and limit: it does not both begin a round
      with something above the root's branch and leave out something below it, and what the root's own bucket keeps
      for want of room is no nearer than what it gives. */
  lemma NearestFirstExactly(self: NodeId, t: Table, ignore: seq<KNode>, root: NodeId, max: nat)
    requires GoodTable(self, t)
    ensures var o, r := Offered(t, ignore), Distance(self, root);
            NearestFirst(self, t, ignore, root, max) <==>
              !(TakesAbove(o, r, max) && LeavesBelow(o, r, max)) && OwnBucketInOrder(o[r], root, max)
  {
    var o, r := Offered(t, ignore), Distance(self, root);
    var result := CollectNodes(t, ignore, r, max);
    if !OwnBucketInOrder(o[r], root, max) {
      OwnBucketFails(self, t, ignore, root, max);
    } else if TakesAbove(o, r, max) && LeavesBelow(o, r, max) {
      CrossingFails(self, t, ignore, root, max);
    } else {
      forall n, m | n in result && m !in result && Eligible(t, ignore, m)
        ensures Distance(root, n.id) <= Distance(root, m.id)
      {
        NearestFirstPair(self, t, ignore, root, max, n, m);
      }
    }
  }
}
