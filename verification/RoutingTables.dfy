/** The routing table as the source keeps it: 160 bucket objects updated in place
    (src/ss_p2p/kademlia/k_routing_table.cpp). */
module RoutingTables {
  import opened NodeIds
  import opened Nodes
  import opened SearchOrder
  import opened Buckets
  import opened Tables
  import opened Collecting
  import opened SearchRecency

  class KRoutingTable {
    const selfId: NodeId
    const table: seq<KBucket>
    ghost const buckets: set<KBucket>  // the bucket objects, for the frames

    ghost predicate Shaped() {
      && |table| == K_BUCKET_COUNT
      && (forall i :: 0 <= i < |table| ==> table[i] in buckets)
      && forall i, j :: 0 <= i < j < |table| ==> table[i] != table[j]
    }

    ghost function Contents(): Table
      requires Shaped()
      reads buckets
    {
      seq(K_BUCKET_COUNT, i requires 0 <= i < |table| reads buckets => table[i].nodes)
    }

    ghost predicate Valid()
      reads buckets
    {
      Shaped() && GoodTable(selfId, Contents())
    }

    constructor (id: NodeId)
      ensures Valid() && selfId == id && Contents() == EMPTY_TABLE
      ensures fresh(buckets)
    {
      var made: seq<KBucket> := [];
      while |made| < K_BUCKET_COUNT
        invariant |made| <= K_BUCKET_COUNT
        invariant forall i :: 0 <= i < |made| ==> fresh(made[i]) && made[i].nodes == []
        invariant forall i, j :: 0 <= i < j < |made| ==> made[i] != made[j]
      {
        var bucket := new KBucket();
        made := made + [bucket];
      }
      selfId := id;
      table := made;
      buckets := set b | b in made;
    }

    method CalcBranch(kn: KNode) returns (branch: nat)
      ensures branch == Distance(selfId, kn.id)
    {
      var nodeXorDistance := CalcNodeXorDistance(selfId, kn.id);
      branch := K_NODE_ID_BITS - nodeXorDistance;
    }

    method CalcBranchIndex(kn: KNode) returns (index: nat)
      ensures index == SlotOf(selfId, kn.id)
    {
      var branch: int := CalcBranch(kn);
      index := if branch - 1 > 0 then branch - 1 else 0;
    }

    /** A node is filed in the bucket of its branch and nowhere else. */
    method AutoUpdate(kn: KNode) returns (state: UpdateState)
      requires Valid()
      modifies buckets
      ensures Valid()
      ensures Contents() == Apply(selfId, old(Contents()), Update(kn))
      ensures state == Updated(old(Contents())[SlotOf(selfId, kn.id)], kn).1
      ensures SlotOf(selfId, kn.id) < 3 ==> state != Overflow
    {
      ghost var before := Contents();
      var index := CalcBranchIndex(kn);
      assert GoodBucket(selfId, before[index], index);
      if index < 3 {
        NoOverflowNearSelf(selfId, before[index], kn);
      }
      state := table[index].AutoUpdate(kn);
      assert Contents() == before[index := table[index].nodes];
      StepKeepsGood(selfId, before, Update(kn));
    }

    /** Looking in one bucket answers for the whole table. */
    method IsExist(kn: KNode) returns (found: bool)
      requires Valid()
      ensures found <==> Contains(Contents()[SlotOf(selfId, kn.id)], kn.id)
      ensures found <==> kn.id in Ids(AllNodes(Contents(), K_BUCKET_COUNT))
    {
      var index := CalcBranchIndex(kn);
      found := table[index].IsExist(kn);
      OneBucketLookup(selfId, Contents(), kn.id);
    }

    method GetNodeCount() returns (ret: nat)
      requires Valid()
      ensures ret == |Ids(AllNodes(Contents(), K_BUCKET_COUNT))|
    {
      ret := 0;
      for i := 0 to |table|
        invariant ret == NodeCount(Contents(), i)
      {
        ret := ret + |table[i].nodes|;
      }
      NodeCountIsIdCount(selfId, Contents());
    }

    /** The bucket of a branch; branch 0 shares slot 0 with branch 1. */
    function GetBucket(branch: nat): KBucket
      requires Shaped() && branch <= K_BUCKET_COUNT
    {
      table[Slot(branch)]
    }

    /** `get_bucket(branch).get_node_back(count, ignore)`. */
    method GetBranchBack(branch: nat, count: nat, ignore: seq<KNode>) returns (nodes: seq<KNode>)
      requires Shaped() && branch <= K_BUCKET_COUNT
      ensures nodes == PushThenTest(Offered(Contents(), ignore)[branch], count)
    {
      nodes := GetBucket(branch).GetNodeBack(count, ignore);
    }

    /** The bucket at `root_branch - count`, if there is one. */
    method AddUpper(r: nat, count: nat, maxCount: nat, ignore: seq<KNode>, sofar: seq<KNode>, flag: bool,
                    ghost o: Offers<KNode>)
      returns (ret: seq<KNode>, upperFlag: bool)
      requires Shaped() && o == Offered(Contents(), ignore)
      requires r <= K_BUCKET_COUNT && count >= 1 && |sofar| < maxCount
      ensures ret == PushThenTest(sofar + Upper(o, r, count), maxCount)
      ensures upperFlag == (flag || r - count < 1)
    {
      ret, upperFlag := sofar, flag;
      if r - count >= 1 {
        var remaining := maxCount - |ret|;
        var nodes := GetBranchBack(r - count, remaining, ignore);
        PushSplit(sofar, o[r - count], maxCount);
        ret := ret + nodes;
      } else {
        upperFlag := true;
        assert sofar + [] == sofar;
      }
    }

    /** The bucket at `root_branch + count`, if there is one: visited even when nothing more is wanted. */
    method AddLower(r: nat, count: nat, maxCount: nat, ignore: seq<KNode>, sofar: seq<KNode>, flag: bool,
                    ghost o: Offers<KNode>)
      returns (ret: seq<KNode>, lowerFlag: bool)
      requires Shaped() && o == Offered(Contents(), ignore)
      requires r <= K_BUCKET_COUNT && |sofar| <= maxCount
      ensures ret == sofar + PushThenTest(Lower(o, r, count), maxCount - |sofar|)
      ensures lowerFlag == (flag || r + count > K_BUCKET_COUNT)
    {
      ret, lowerFlag := sofar, flag;
      if r + count <= K_BUCKET_COUNT {
        var remaining := maxCount - |ret|;
        var nodes := GetBranchBack(r + count, remaining, ignore);
        ret := ret + nodes;
      } else {
        lowerFlag := true;
      }
    }

    /** One turn of the search loop: both sides, whatever the first one brought. */
    method Turn(r: nat, count: nat, maxCount: nat, ignore: seq<KNode>, sofar: seq<KNode>, upper: bool, lower: bool,
                ghost o: Offers<KNode>)
      returns (ret: seq<KNode>, upperFlag: bool, lowerFlag: bool)
      requires Shaped() && o == Offered(Contents(), ignore)
      requires r <= K_BUCKET_COUNT && |sofar| < maxCount && !(upper && lower)
      requires Walking(o, r, maxCount, count, upper, lower, sofar)
      ensures Walking(o, r, maxCount, count + 1, upperFlag, lowerFlag, ret)
      ensures count <= BRANCHES + 1
    {
      ret, upperFlag := AddUpper(r, count, maxCount, ignore, sofar, upper, o);
      ghost var middle := ret;
      ret, lowerFlag := AddLower(r, count, maxCount, ignore, ret, lower, o);
      AfterRound(o, r, maxCount, count, sofar, middle, ret);
    }

    /** The search loop: alternate sides until there is enough or both sides have run out. */
    method Widen(r: nat, maxCount: nat, ignore: seq<KNode>, centre: seq<KNode>, ghost o: Offers<KNode>)
      returns (ret: seq<KNode>)
      requires Shaped() && o == Offered(Contents(), ignore)
      requires r <= K_BUCKET_COUNT && centre == PushThenTest(o[r], maxCount)
      ensures ret == Collect(o, r, maxCount)
    {
      ret := centre;
      var upperFlag, lowerFlag := false, false;
      var count: nat := 1;
      while maxCount > |ret| && !(upperFlag && lowerFlag)
        invariant count <= BRANCHES + 2
        invariant Walking(o, r, maxCount, count, upperFlag, lowerFlag, ret)
        decreases BRANCHES + 2 - count
      {
        ret, upperFlag, lowerFlag := Turn(r, count, maxCount, ignore, ret, upperFlag, lowerFlag, o);
        count := count + 1;
      }
    }

    /** The search. With an entry of a bucket it returns everything behind it, most recent first, that is not ignored;
        at most one entry more than asked for, and fewer only when nothing eligible is left out. */
    method CollectNode(root: KNode, maxCount: nat, ignore: seq<KNode>) returns (ret: seq<KNode>)
      requires Valid()
      ensures ret == CollectNodes(Contents(), ignore, Distance(selfId, root.id), maxCount)
      ensures |ret| <= maxCount + 1 && forall n :: n in ret ==> Eligible(Contents(), ignore, n)
      ensures |ret| < maxCount ==> forall n :: Eligible(Contents(), ignore, n) ==> n in ret
      ensures GivesFromBack(Contents(), ignore, ret)
    {
      ghost var o := Offered(Contents(), ignore);
      var rootBranch := CalcBranch(root);
      ret := GetBranchBack(rootBranch, maxCount, ignore);
      ret := Widen(rootBranch, maxCount, ignore, ret, o);
      CollectNodeFacts(selfId, Contents(), ignore, rootBranch, maxCount);
    }
  }

  lemma CollectNodeFacts(self: NodeId, t: Table, ignore: seq<KNode>, r: nat, max: nat)
    requires GoodTable(self, t) && r <= K_BUCKET_COUNT
    ensures var result := CollectNodes(t, ignore, r, max);
            && |result| <= max + 1 && (forall n :: n in result ==> Eligible(t, ignore, n))
            && (|result| < max ==> forall n :: Eligible(t, ignore, n) ==> n in result)
            && GivesFromBack(t, ignore, result)
  {
    CollectSound(t, ignore, r, max);
    BackIsGiven(self, t, ignore, r, max);
    if |CollectNodes(t, ignore, r, max)| < max {
      CollectComplete(t, ignore, r, max);
    }
  }

  /** The loop's state when `count - 1` rounds are done. */
  ghost predicate Walking(o: Offers<KNode>, r: nat, max: nat, count: nat, upper: bool, lower: bool, ret: seq<KNode>)
    requires r <= BRANCHES
  {
    && (upper ==> r - count < 1)
    && (lower ==> r + count > BRANCHES)
    && (if |ret| >= max || (upper && lower) then ret == Collect(o, r, max)
        else 1 <= count <= BRANCHES + 1 && ret == Ring(o, r, count - 1))
  }

  /** What one turn of the loop has added is what round `k` of the search order adds. */
  lemma AfterRound(o: Offers<KNode>, r: nat, max: nat, k: nat, before: seq<KNode>, middle: seq<KNode>, ret: seq<KNode>)
    requires r <= BRANCHES && 1 <= k <= BRANCHES + 1
    requires before == Ring(o, r, k - 1) && |before| < max
    requires middle == PushThenTest(before + Upper(o, r, k), max)
    requires ret == middle + PushThenTest(Lower(o, r, k), max - |middle|)
    ensures |ret| >= max || (r - k < 1 && r + k > BRANCHES) ==> ret == Collect(o, r, max)
    ensures |ret| < max && !(r - k < 1 && r + k > BRANCHES) ==> ret == Ring(o, r, k)
  {
    var up, down := before + Upper(o, r, k), Lower(o, r, k);
    CollectReaches(o, r, max, k);
    if r - k < 1 && r + k > BRANCHES {
      BothSidesDone(o, r, max, k);
      assert ret == before;
    } else if |up| < max {
      PushSplit(up, down, max);
    }
  }
}
