/** The two-sided walk of `collect_node` over what each branch offers (src/ss_p2p/kademlia/k_routing_table.cpp). */
module SearchOrder {

  const BRANCHES: nat := 160

  /** `o[b]` is what branch `b` offers, in the order it is taken; branch 0 is the table's own id. */
  type Offers<T> = o: seq<seq<T>> | |o| == BRANCHES + 1 witness seq(BRANCHES + 1, _ => [])

  /** The first `count` entries, but never fewer than one: the bucket getters push before they test the limit. */
  function PushThenTest<T>(nodes: seq<T>, count: nat): (r: seq<T>)
    ensures r <= nodes
    ensures |r| == if |nodes| <= count then |nodes| else if count == 0 then 1 else count
  {
    if |nodes| <= count then nodes else if count == 0 then nodes[..1] else nodes[..count]
  }

  function Abs(x: int): nat {
    if x < 0 then -x else x
  }

  function Upper<T>(o: Offers<T>, r: nat, k: nat): seq<T>
    requires r <= BRANCHES
  {
    if r - k >= 1 then o[r - k] else []
  }

  function Lower<T>(o: Offers<T>, r: nat, k: nat): seq<T> {
    if r + k <= BRANCHES then o[r + k] else []
  }

  /** Everything offered within `k` branches of `r`, in search order: r, r-1, r+1, r-2, r+2, ... */
  function Ring<T>(o: Offers<T>, r: nat, k: nat): seq<T>
    requires r <= BRANCHES
  {
    if k == 0 then o[r] else Ring(o, r, k - 1) + Upper(o, r, k) + Lower(o, r, k)
  }

  function Everything<T>(o: Offers<T>, r: nat): seq<T>
    requires r <= BRANCHES
  {
    Ring(o, r, BRANCHES)
  }

  // ---------------------------------------------------------------- what is returned

  /** Rounds k, k+1, ...: the size is tested once a round, after both sides. */
  function CollectFrom<T>(o: Offers<T>, r: nat, max: nat, k: nat): seq<T>
    requires r <= BRANCHES && 1 <= k <= BRANCHES + 1
    decreases BRANCHES + 1 - k
  {
    var before := Ring(o, r, k - 1);
    var up := before + Upper(o, r, k);
    var down := Lower(o, r, k);
    if k == BRANCHES + 1 then before
    else if |up| >= max then PushThenTest(up, max) + PushThenTest(down, 0)
    else if |up + down| >= max then PushThenTest(up + down, max)
    else CollectFrom(o, r, max, k + 1)
  }

  function Collect<T>(o: Offers<T>, r: nat, max: nat): seq<T>
    requires r <= BRANCHES
  {
    if |o[r]| >= max then PushThenTest(o[r], max) else CollectFrom(o, r, max, 1)
  }

  /** Asking a further bucket for the remainder is asking the concatenation for the whole. */
  lemma PushSplit<T>(a: seq<T>, b: seq<T>, max: nat)
    requires |a| < max
    ensures a + PushThenTest(b, max - |a|) == PushThenTest(a + b, max)
  {
  }

  // ---------------------------------------------------------------- complete and bounded

  lemma {:induction false} RingPrefix<T>(o: Offers<T>, r: nat, j: nat, k: nat)
    requires r <= BRANCHES && j <= k
    ensures Ring(o, r, j) <= Ring(o, r, k)
    decreases k - j
  {
    if j < k {
      RingPrefix(o, r, j + 1, k);
    }
  }

  /** Where the search stopped: all of the rounds before `k` was taken, nothing beyond round `k` was. */
  ghost predicate StoppedAt<T>(o: Offers<T>, r: nat, result: seq<T>, k: nat)
    requires r <= BRANCHES
  {
    && (k > 0 ==> Ring(o, r, k - 1) <= result)
    && (forall n :: n in result ==> n in Ring(o, r, k))
  }

  /** A prefix of the search order of the asked length (or all of it), plus at most one surplus entry. */
  ghost predicate PrefixPlusSurplus<T>(result: seq<T>, order: seq<T>, max: nat) {
    var taken := if |order| < max then |order| else max;
    && taken <= |result| <= taken + 1
    && result[..taken] == order[..taken]
    && (|result| == taken + 1 ==> max <= |order| && result[taken] in order[taken..])
  }

  lemma CollectFromShape<T>(o: Offers<T>, r: nat, max: nat, k: nat) returns (stop: nat)
    requires r <= BRANCHES && 1 <= k <= BRANCHES + 1 && Begun(o, r, max, k)
    ensures stop <= BRANCHES
    ensures StoppedAt(o, r, CollectFrom(o, r, max, k), stop)
    ensures PrefixPlusSurplus(CollectFrom(o, r, max, k), Everything(o, r), max)
  {
    if k == BRANCHES + 1 {
      stop := BRANCHES;
      WalkOver(o, r, max);
    } else {
      stop := CollectFromEnds(o, r, max, k);
      RoundShape(o, r, max, stop);
    }
  }

  /** The shape of the last round's result. */
  lemma RoundShape<T>(o: Offers<T>, r: nat, max: nat, stop: nat)
    requires r <= BRANCHES && 1 <= stop <= BRANCHES && Begun(o, r, max, stop)
    requires stop < BRANCHES ==> |Ring(o, r, stop)| >= max
    ensures StoppedAt(o, r, RoundResult(o, r, max, stop), stop)
    ensures PrefixPlusSurplus(RoundResult(o, r, max, stop), Everything(o, r), max)
  {
    if |Ring(o, r, stop)| >= max {
      RoundFills(o, r, max, stop);
      LastRound(o, r, max, stop);
    } else {
      WalkOver(o, r, max);
      NextRound(o, r, max, BRANCHES);
      var last := CollectFromEnds(o, r, max, BRANCHES);
    }
  }

  lemma WalkOver<T>(o: Offers<T>, r: nat, max: nat)
    requires r <= BRANCHES && |Ring(o, r, BRANCHES)| < max
    ensures StoppedAt(o, r, CollectFrom(o, r, max, BRANCHES + 1), BRANCHES)
    ensures PrefixPlusSurplus(CollectFrom(o, r, max, BRANCHES + 1), Everything(o, r), max)
  {
    RingPrefix(o, r, BRANCHES - 1, BRANCHES);
  }

  lemma LastRound<T>(o: Offers<T>, r: nat, max: nat, k: nat)
    requires r <= BRANCHES && 1 <= k <= BRANCHES
    requires |Ring(o, r, k - 1)| < max <= |Ring(o, r, k)|
    ensures StoppedAt(o, r, CollectFrom(o, r, max, k), k)
    ensures PrefixPlusSurplus(CollectFrom(o, r, max, k), Everything(o, r), max)
  {
    RingPrefix(o, r, k, BRANCHES);
    var before, up, down := Ring(o, r, k - 1), Upper(o, r, k), Lower(o, r, k);
    if |before + up| >= max {
      UpperFills(before, up, down, Everything(o, r), max);
    } else {
      LowerFills(before, up, down, Everything(o, r), max);
    }
  }

  lemma UpperFills<T>(before: seq<T>, up: seq<T>, down: seq<T>, order: seq<T>, max: nat)
    requires |before| < max <= |before + up|
    requires before + up + down <= order
    ensures var result := PushThenTest(before + up, max) + PushThenTest(down, 0);
            && PrefixPlusSurplus(result, order, max)
            && before <= result
            && forall n :: n in result ==> n in before + up + down
  {
    var all := before + up + down;
    var result := PushThenTest(before + up, max) + PushThenTest(down, 0);
    assert result[..max] == (before + up)[..max] == all[..max] == order[..max];
    if down != [] {
      var p := |before + up|;
      assert all[p] == down[0] == result[max];
      assert order[max..][p - max] == down[0];
    }
  }

  lemma LowerFills<T>(before: seq<T>, up: seq<T>, down: seq<T>, order: seq<T>, max: nat)
    requires |before + up| < max <= |before + up + down|
    requires before + up + down <= order
    ensures var result := PushThenTest(before + up + down, max);
            && PrefixPlusSurplus(result, order, max)
            && before <= result
            && forall n :: n in result ==> n in before + up + down
  {
    assert PushThenTest(before + up + down, max) == (before + up + down)[..max] == order[..max];
  }

  lemma CollectShape<T>(o: Offers<T>, r: nat, max: nat) returns (stop: nat)
    requires r <= BRANCHES
    ensures stop <= BRANCHES
    ensures StoppedAt(o, r, Collect(o, r, max), stop)
    ensures PrefixPlusSurplus(Collect(o, r, max), Everything(o, r), max)
  {
    RingPrefix(o, r, 0, BRANCHES);
    if |o[r]| >= max {
      stop := 0;
    } else {
      stop := CollectFromShape(o, r, max, 1);
    }
  }

  /** What round `k` makes of the rounds before it: the upper half, then the lower one. */
  function RoundResult<T>(o: Offers<T>, r: nat, max: nat, k: nat): seq<T>
    requires r <= BRANCHES
  {
    if k == 0 then PushThenTest(o[r], max)
    else
      var middle := PushThenTest(Ring(o, r, k - 1) + Upper(o, r, k), max);
      middle + PushThenTest(Lower(o, r, k), if |middle| < max then max - |middle| else 0)
  }

  /** Round `k` is begun: too little was found before it. */
  predicate Begun<T>(o: Offers<T>, r: nat, max: nat, k: nat)
    requires r <= BRANCHES
  {
    k > 0 ==> |Ring(o, r, k - 1)| < max
  }

  lemma {:induction false} CollectFromEnds<T>(o: Offers<T>, r: nat, max: nat, k: nat) returns (stop: nat)
    requires r <= BRANCHES && 1 <= k <= BRANCHES && Begun(o, r, max, k)
    ensures k <= stop <= BRANCHES && Begun(o, r, max, stop)
    ensures stop < BRANCHES ==> |Ring(o, r, stop)| >= max
    ensures CollectFrom(o, r, max, k) == RoundResult(o, r, max, stop)
    decreases BRANCHES - k
  {
    stop := k;
    if |Ring(o, r, k)| >= max {
      RoundFills(o, r, max, k);
    } else if k < BRANCHES {
      stop := CollectFromEnds(o, r, max, k + 1);
    }
  }

  lemma RoundFills<T>(o: Offers<T>, r: nat, max: nat, k: nat)
    requires r <= BRANCHES && 1 <= k <= BRANCHES && Begun(o, r, max, k)
    requires |Ring(o, r, k)| >= max
    ensures CollectFrom(o, r, max, k) == RoundResult(o, r, max, k)
  {
    var up, down := Ring(o, r, k - 1) + Upper(o, r, k), Lower(o, r, k);
    if |up| < max {
      PushSplit(up, down, max);
    }
  }

  /** The result is that of the last round begun; only at the end of the walk may it be too little. */
  lemma CollectEnds<T>(o: Offers<T>, r: nat, max: nat) returns (stop: nat)
    requires r <= BRANCHES
    ensures stop <= BRANCHES && Begun(o, r, max, stop)
    ensures stop < BRANCHES ==> |Ring(o, r, stop)| >= max
    ensures Collect(o, r, max) == RoundResult(o, r, max, stop)
  {
    if |o[r]| >= max {
      stop := 0;
    } else {
      stop := CollectFromEnds(o, r, max, 1);
    }
  }

  lemma StartsWith<T>(before: seq<T>, up: seq<T>, more: seq<T>, max: nat)
    requires |before| < max
    ensures before <= PushThenTest(before + up, max) + more
  {
  }

  lemma RoundStarts<T>(o: Offers<T>, r: nat, max: nat, k: nat, before: seq<T>)
    requires r <= BRANCHES && k > 0 && before == Ring(o, r, k - 1) && |before| < max
    ensures before <= RoundResult(o, r, max, k)
  {
    var middle := PushThenTest(before + Upper(o, r, k), max);
    StartsWith(before, Upper(o, r, k),
               PushThenTest(Lower(o, r, k), if |middle| < max then max - |middle| else 0), max);
  }

  lemma PrefixOfPrefix<T>(a: seq<T>, b: seq<T>, c: seq<T>)
    requires a <= b && b <= c
    ensures a <= c
  {
  }

  lemma RoundReached<T>(o: Offers<T>, r: nat, max: nat, k: nat, stop: nat, start: seq<T>, result: seq<T>)
    requires r <= BRANCHES && 1 <= k <= stop && Begun(o, r, max, stop)
    requires start == Ring(o, r, k - 1) && result == RoundResult(o, r, max, stop)
    ensures start <= result
  {
    var before := Ring(o, r, stop - 1);
    EarlierRing(o, r, k - 1, stop - 1, start, before);
    RoundStarts(o, r, max, stop, before);
    PrefixOfPrefix(start, before, result);
  }

  lemma EarlierRing<T>(o: Offers<T>, r: nat, j: nat, k: nat, start: seq<T>, before: seq<T>)
    requires r <= BRANCHES && j <= k && start == Ring(o, r, j) && before == Ring(o, r, k)
    ensures start <= before
  {
    RingPrefix(o, r, j, k);
  }

  lemma Exhausted<T>(o: Offers<T>, r: nat, max: nat)
    requires r <= BRANCHES
    ensures CollectFrom(o, r, max, BRANCHES + 1) == Ring(o, r, BRANCHES)
  {
  }

  /** What was there when round `k` began stays. */
  lemma CollectFromStarts<T>(o: Offers<T>, r: nat, max: nat, k: nat)
    requires r <= BRANCHES && 1 <= k <= BRANCHES + 1 && Begun(o, r, max, k)
    ensures Ring(o, r, k - 1) <= CollectFrom(o, r, max, k)
  {
    if k <= BRANCHES {
      var stop := CollectFromEnds(o, r, max, k);
      RoundReached(o, r, max, k, stop, Ring(o, r, k - 1), CollectFrom(o, r, max, k));
    } else {
      Exhausted(o, r, max);
    }
  }

  lemma RoundsGrow<T>(o: Offers<T>, r: nat, j: nat, k: nat)
    requires r <= BRANCHES && j <= k
    ensures |Ring(o, r, j)| <= |Ring(o, r, k)|
  {
    RingPrefix(o, r, j, k);
  }

  /** The upper half of round `k` fills the result and the lower half still has something to push. */
  predicate SurplusRound<T>(o: Offers<T>, r: nat, max: nat, k: nat)
    requires r <= BRANCHES
  {
    && 1 <= k <= BRANCHES && Begun(o, r, max, k)
    && |Ring(o, r, k - 1) + Upper(o, r, k)| >= max
    && Lower(o, r, k) != []
  }

  ghost predicate Surplus<T>(o: Offers<T>, r: nat, max: nat)
    requires r <= BRANCHES
  {
    (max == 0 && o[r] != []) || exists k :: SurplusRound(o, r, max, k)
  }

  lemma RoundSize<T>(o: Offers<T>, r: nat, k: nat)
    requires r <= BRANCHES && k > 0
    ensures |Ring(o, r, k - 1) + Upper(o, r, k)| <= |Ring(o, r, k)|
  {
  }

  lemma EarlierTooFew<T>(o: Offers<T>, r: nat, max: nat, stop: nat, k: nat)
    requires r <= BRANCHES && k < stop && Begun(o, r, max, stop)
    ensures |Ring(o, r, k)| < max
  {
    RoundsGrow(o, r, k, stop - 1);
  }

  lemma LaterNotBegun<T>(o: Offers<T>, r: nat, max: nat, stop: nat, k: nat)
    requires r <= BRANCHES && stop < k && |Ring(o, r, stop)| >= max
    ensures |Ring(o, r, k - 1)| >= max && !Begun(o, r, max, k)
  {
    RoundsGrow(o, r, stop, k - 1);
  }

  lemma SurplusRoundIsLast<T>(o: Offers<T>, r: nat, max: nat, stop: nat, k: nat)
    requires r <= BRANCHES && stop <= BRANCHES && Begun(o, r, max, stop)
    requires stop < BRANCHES ==> |Ring(o, r, stop)| >= max
    requires SurplusRound(o, r, max, k)
    ensures k == stop
  {
    if stop < k {
      LaterNotBegun(o, r, max, stop, k);
    } else if k < stop {
      EarlierTooFew(o, r, max, stop, k);
      RoundSize(o, r, k);
    }
  }

  /** Exactly when one entry more than asked for is returned. */
  lemma SurplusExactly<T>(o: Offers<T>, r: nat, max: nat)
    requires r <= BRANCHES
    ensures |Collect(o, r, max)| <= max + 1
    ensures |Collect(o, r, max)| == max + 1 <==> Surplus(o, r, max)
  {
    var stop := CollectEnds(o, r, max);
    if Surplus(o, r, max) && !(max == 0 && o[r] != []) {
      var k :| SurplusRound(o, r, max, k);
      SurplusRoundIsLast(o, r, max, stop, k);
    }
    if |Collect(o, r, max)| == max + 1 && stop > 0 {
      assert SurplusRound(o, r, max, stop);
    }
  }

  /** As long as too little has been found, the search goes on round by round. */
  lemma CollectReaches<T>(o: Offers<T>, r: nat, max: nat, k: nat)
    requires r <= BRANCHES && 1 <= k <= BRANCHES + 1
    requires |Ring(o, r, k - 1)| < max
    ensures Collect(o, r, max) == CollectFrom(o, r, max, k)
  {
    GoesOn(o, r, max, k - 1);
  }

  lemma {:induction false} GoesOn<T>(o: Offers<T>, r: nat, max: nat, j: nat)
    requires r <= BRANCHES && j <= BRANCHES && |Ring(o, r, j)| < max
    ensures Collect(o, r, max) == CollectFrom(o, r, max, j + 1)
    decreases j
  {
    if j == 0 {
      FirstRound(o, r, max);
    } else {
      RoundsGrow(o, r, j - 1, j);
      GoesOn(o, r, max, j - 1);
      NextRound(o, r, max, j);
    }
  }

  lemma FirstRound<T>(o: Offers<T>, r: nat, max: nat)
    requires r <= BRANCHES && |Ring(o, r, 0)| < max
    ensures Collect(o, r, max) == CollectFrom(o, r, max, 1)
  {
  }

  lemma NextRound<T>(o: Offers<T>, r: nat, max: nat, k: nat)
    requires r <= BRANCHES && 1 <= k <= BRANCHES
    requires |Ring(o, r, k)| < max
    ensures CollectFrom(o, r, max, k) == CollectFrom(o, r, max, k + 1)
  {
  }

  /** Once both sides have run out, the remaining rounds add nothing: the loop may stop on its two flags. */
  lemma {:induction false} BothSidesDone<T>(o: Offers<T>, r: nat, max: nat, k: nat)
    requires r <= BRANCHES && 1 <= k <= BRANCHES + 1
    requires r - k < 1 && r + k > BRANCHES && |Ring(o, r, k - 1)| < max
    ensures CollectFrom(o, r, max, k) == Ring(o, r, k - 1)
    decreases BRANCHES + 1 - k
  {
    if k <= BRANCHES {
      assert Ring(o, r, k) == Ring(o, r, k - 1);
      BothSidesDone(o, r, max, k + 1);
    }
  }

  // ---------------------------------------------------------------- what the order contains

  lemma InPrefix<T>(a: seq<T>, b: seq<T>)
    requires a <= b
    ensures forall n :: n in a ==> n in b
  {
    assert b == a + b[|a|..];
  }

  /** Branch `b` is visited in round |b - r|. */
  lemma RingReaches<T>(o: Offers<T>, r: nat, b: nat)
    requires r <= BRANCHES && 1 <= b <= BRANCHES
    ensures forall n :: n in o[b] ==> n in Ring(o, r, Abs(b - r))
  {
  }

  lemma EverythingReaches<T>(o: Offers<T>, r: nat, b: nat)
    requires r <= BRANCHES && 1 <= b <= BRANCHES
    ensures forall n :: n in o[b] ==> n in Everything(o, r)
  {
    RingReaches(o, r, b);
    RingPrefix(o, r, Abs(b - r), BRANCHES);
    InPrefix(Ring(o, r, Abs(b - r)), Everything(o, r));
  }

  /** Everything in round `k` or before comes from a branch at most `k` away. */
  lemma {:induction false} RingSource<T>(o: Offers<T>, r: nat, k: nat, n: T) returns (b: nat)
    requires r <= BRANCHES && n in Ring(o, r, k)
    ensures b <= BRANCHES && r - k <= b <= r + k && n in o[b]
    ensures b == 0 ==> r == 0
  {
    if k == 0 {
      b := r;
    } else if n in Ring(o, r, k - 1) {
      b := RingSource(o, r, k - 1, n);
    } else {
      b := if n in Upper(o, r, k) then r - k else r + k;
    }
  }

  /** What the search left out lies in the last round or beyond. */
  lemma LeftOutBeyond<T>(o: Offers<T>, r: nat, result: seq<T>, stop: nat, b: nat, m: T)
    requires r <= BRANCHES && 1 <= b <= BRANCHES
    requires StoppedAt(o, r, result, stop) && m in o[b] && m !in result
    ensures Abs(b - r) >= stop
  {
    var round := Abs(b - r);
    RingReaches(o, r, b);
    if round < stop {
      RingPrefix(o, r, round, stop - 1);
      InPrefix(Ring(o, r, round), Ring(o, r, stop - 1));
      InPrefix(Ring(o, r, stop - 1), result);
    }
  }
}
