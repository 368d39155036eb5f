/** Node ids and the prefix metric (src/ss_p2p/kademlia/node_id.cpp). */
module NodeIds {

  const K_NODE_ID_LENGTH: nat := 20
  const K_NODE_ID_BITS: nat := 160

  type NodeId = bytes: seq<bv8> | |bytes| == K_NODE_ID_LENGTH witness seq(K_NODE_ID_LENGTH, _ => 0 as bv8)

  predicate ByteBit(b: bv8, k: nat)
    requires k < 8
  {
    (b >> k) & 1 == 1
  }

  /** Bit `i` of an id: bytes in order, the least significant bit of each byte first. */
  predicate Bit(id: NodeId, i: nat)
    requires i < K_NODE_ID_BITS
  {
    ByteBit(id[i / 8], i % 8)
  }

  /** `x` and `y` agree on their first `n` bits. */
  ghost predicate Agree(x: NodeId, y: NodeId, n: nat)
    requires n <= K_NODE_ID_BITS
  {
    forall i :: 0 <= i < n ==> Bit(x, i) == Bit(y, i)
  }

  /** `n` is the length of the longest common prefix of `x` and `y`. */
  ghost predicate IsPrefixLength(x: NodeId, y: NodeId, n: nat) {
    && n <= K_NODE_ID_BITS
    && Agree(x, y, n)
    && (n < K_NODE_ID_BITS ==> Bit(x, n) != Bit(y, n))
  }

  function PrefixFrom(x: NodeId, y: NodeId, i: nat): (n: nat)
    requires i <= K_NODE_ID_BITS
    ensures i <= n <= K_NODE_ID_BITS
    decreases K_NODE_ID_BITS - i
  {
    if i == K_NODE_ID_BITS || Bit(x, i) != Bit(y, i) then i else PrefixFrom(x, y, i + 1)
  }

  function PrefixLength(x: NodeId, y: NodeId): (n: nat)
    ensures n <= K_NODE_ID_BITS
  {
    PrefixFrom(x, y, 0)
  }

  lemma {:induction false} PrefixFromAgrees(x: NodeId, y: NodeId, i: nat)
    requires i <= K_NODE_ID_BITS
    ensures forall j :: i <= j < PrefixFrom(x, y, i) ==> Bit(x, j) == Bit(y, j)
    ensures PrefixFrom(x, y, i) < K_NODE_ID_BITS ==> Bit(x, PrefixFrom(x, y, i)) != Bit(y, PrefixFrom(x, y, i))
    decreases K_NODE_ID_BITS - i
  {
    if i < K_NODE_ID_BITS && Bit(x, i) == Bit(y, i) {
      PrefixFromAgrees(x, y, i + 1);
    }
  }

  /** The recursive count is the longest common prefix, and the only one. */
  lemma PrefixLengthIsLongest(x: NodeId, y: NodeId, n: nat)
    ensures IsPrefixLength(x, y, n) <==> n == PrefixLength(x, y)
  {
    var m := PrefixLength(x, y);
    PrefixFromAgrees(x, y, 0);
    assert IsPrefixLength(x, y, m);
    assert m < K_NODE_ID_BITS ==> Bit(x, m) != Bit(y, m);
    assert n < K_NODE_ID_BITS && IsPrefixLength(x, y, n) ==> Bit(x, n) != Bit(y, n);
  }

  /** The distance the routing table branches on: 160 minus the common prefix. */
  function Distance(x: NodeId, y: NodeId): (d: nat)
    ensures d <= K_NODE_ID_BITS
  {
    K_NODE_ID_BITS - PrefixLength(x, y)
  }

  // ---------------------------------------------------------------- the source's loop

  lemma XorBit(a: bv8, b: bv8, k: nat)
    requires k < 8
    ensures ByteBit(a ^ b, k) <==> ByteBit(a, k) != ByteBit(b, k)
  {
    ShiftXor(a, b, k);
    LowBitXor(a >> k, b >> k);
  }

  lemma ShiftXor(a: bv8, b: bv8, k: nat)
    requires k < 8
    ensures (a ^ b) >> k == (a >> k) ^ (b >> k)
  {
  }

  lemma LowBitXor(a: bv8, b: bv8)
    ensures (a ^ b) & 1 == 1 <==> (a & 1 == 1) != (b & 1 == 1)
  {
  }

  /** One loop fills the xor bytes, the other counts the leading zero bits and breaks at the first one. */
  method CalcNodeXorDistance(nid1: NodeId, nid2: NodeId) returns (prefixZeroCount: nat)
    ensures IsPrefixLength(nid1, nid2, prefixZeroCount)
    ensures prefixZeroCount == PrefixLength(nid1, nid2)
  {
    var xorDistance := new bv8[K_NODE_ID_LENGTH];
    var i := 0;
    while i < K_NODE_ID_LENGTH
      invariant 0 <= i <= K_NODE_ID_LENGTH
      invariant forall j :: 0 <= j < i ==> xorDistance[j] == nid1[j] ^ nid2[j]
    {
      xorDistance[i] := nid1[i] ^ nid2[i];
      i := i + 1;
    }

    prefixZeroCount := 0;
    i := 0;
    while i < K_NODE_ID_LENGTH * 8
      invariant 0 <= i <= K_NODE_ID_BITS
      invariant prefixZeroCount == i
      invariant forall j :: 0 <= j < K_NODE_ID_LENGTH ==> xorDistance[j] == nid1[j] ^ nid2[j]
      invariant Agree(nid1, nid2, i)
    {
      XorBit(nid1[i / 8], nid2[i / 8], i % 8);
      if (xorDistance[i / 8] >> (i % 8)) & 1 == 1 {
        break;
      }
      prefixZeroCount := prefixZeroCount + 1;
      i := i + 1;
    }
    PrefixLengthIsLongest(nid1, nid2, prefixZeroCount);
  }

  // ---------------------------------------------------------------- the metric

  lemma BytesFromBits(a: bv8, b: bv8)
    requires forall k: nat :: k < 8 ==> ByteBit(a, k) == ByteBit(b, k)
    ensures a == b
  {
    assert ByteBit(a, 0) == ByteBit(b, 0);
    assert ByteBit(a, 1) == ByteBit(b, 1);
    assert ByteBit(a, 2) == ByteBit(b, 2);
    assert ByteBit(a, 3) == ByteBit(b, 3);
    assert ByteBit(a, 4) == ByteBit(b, 4);
    assert ByteBit(a, 5) == ByteBit(b, 5);
    assert ByteBit(a, 6) == ByteBit(b, 6);
    assert ByteBit(a, 7) == ByteBit(b, 7);
  }

  /** Ids that agree on all 160 bits are equal, so the full prefix means the same node. */
  lemma PrefixFullIffEqual(x: NodeId, y: NodeId)
    ensures PrefixLength(x, y) == K_NODE_ID_BITS <==> x == y
    ensures Distance(x, y) == 0 <==> x == y
  {
    PrefixLengthIsLongest(x, y, K_NODE_ID_BITS);
    if PrefixLength(x, y) == K_NODE_ID_BITS {
      forall j | 0 <= j < K_NODE_ID_LENGTH ensures x[j] == y[j] {
        forall k: nat | k < 8 ensures ByteBit(x[j], k) == ByteBit(y[j], k) {
          assert Bit(x, 8 * j + k) == Bit(y, 8 * j + k);
        }
        BytesFromBits(x[j], y[j]);
      }
    }
  }

  lemma PrefixSymmetric(x: NodeId, y: NodeId)
    ensures PrefixLength(x, y) == PrefixLength(y, x)
    ensures Distance(x, y) == Distance(y, x)
  {
    PrefixLengthIsLongest(x, y, PrefixLength(x, y));
    PrefixLengthIsLongest(y, x, PrefixLength(x, y));
  }

  /** The strong triangle inequality, with equality when the two sides differ. */
  lemma Ultrametric(x: NodeId, y: NodeId, z: NodeId)
    ensures Distance(x, z) <= if Distance(x, y) < Distance(y, z) then Distance(y, z) else Distance(x, y)
    ensures Distance(x, y) != Distance(y, z) ==>
              Distance(x, z) == if Distance(x, y) < Distance(y, z) then Distance(y, z) else Distance(x, y)
  {
    var p, q, r := PrefixLength(x, y), PrefixLength(y, z), PrefixLength(x, z);
    PrefixLengthIsLongest(x, y, p);
    PrefixLengthIsLongest(y, z, q);
    PrefixLengthIsLongest(x, z, r);
    assert p < K_NODE_ID_BITS ==> Bit(x, p) != Bit(y, p);
    assert q < K_NODE_ID_BITS ==> Bit(y, q) != Bit(z, q);
    assert r < K_NODE_ID_BITS ==> Bit(x, r) != Bit(z, r);
  }

  /** Two ids at the same non-zero distance from a third are strictly closer to each other. */
  lemma SameBranchCloser(self: NodeId, x: NodeId, y: NodeId)
    requires Distance(self, x) == Distance(self, y) != 0
    ensures Distance(x, y) < Distance(self, x)
  {
    var p, r := PrefixLength(self, x), PrefixLength(x, y);
    PrefixLengthIsLongest(self, x, p);
    PrefixLengthIsLongest(self, y, p);
    PrefixLengthIsLongest(x, y, r);
    assert Bit(self, p) != Bit(x, p) && Bit(self, p) != Bit(y, p);
    assert r < K_NODE_ID_BITS ==> Bit(x, r) != Bit(y, r);
  }

  lemma OneBit(j: nat, k: nat)
    requires j < 8 && k < 8
    ensures ByteBit((1 as bv8) << j, k) <==> j == k
  {
    BitOfPower(j, k);
  }

  lemma BitOfPower(j: nat, k: nat)
    requires j < 8 && k < 8
    ensures (((1 as bv8) << j) >> k) & 1 == if j == k then 1 else 0
  {
  }

  lemma FlippedByte(b: bv8, j: nat, k: nat)
    requires j < 8 && k < 8
    ensures ByteBit(b ^ ((1 as bv8) << j), k) == ByteBit(b, k) <==> j != k
  {
    XorBit(b, (1 as bv8) << j, k);
    OneBit(j, k);
  }

  lemma FlippedAt(x: NodeId, y: NodeId, q: nat, j: nat, i: nat)
    requires q < K_NODE_ID_LENGTH && j < 8 && i <= 8 * q + j && y == x[q := x[q] ^ ((1 as bv8) << j)]
    ensures Bit(x, i) == Bit(y, i) <==> i != 8 * q + j
  {
    if i < 8 * q {
      assert i / 8 < q;
    } else {
      assert i / 8 == q && i % 8 == i - 8 * q;
      FlippedByte(x[q], j, i % 8);
    }
  }

  /** Two ids that differ in one bit are as far apart as that bit is significant: bytes in order, and within a byte
      from the least significant bit on. */
  lemma FlippedBit(x: NodeId, q: nat, j: nat)
    requires q < K_NODE_ID_LENGTH && j < 8
    ensures Distance(x, x[q := x[q] ^ ((1 as bv8) << j)]) == 160 - 8 * q - j
  {
    var y: NodeId := x[q := x[q] ^ ((1 as bv8) << j)];
    forall i: nat | i <= 8 * q + j ensures Bit(x, i) == Bit(y, i) <==> i != 8 * q + j {
      FlippedAt(x, y, q, j, i);
    }
    assert IsPrefixLength(x, y, 8 * q + j);
    PrefixLengthIsLongest(x, y, 8 * q + j);
  }

  // ---------------------------------------------------------------- how many ids fit in a ball

  function Pow2(n: nat): (p: nat)
    ensures p >= 1
  {
    if n == 0 then 1 else 2 * Pow2(n - 1)
  }

  /** The ids pairwise share their first `160 - n` bits. */
  ghost predicate Ball(ids: set<NodeId>, n: nat)
    requires n <= K_NODE_ID_BITS
  {
    forall x, y :: x in ids && y in ids ==> Agree(x, y, K_NODE_ID_BITS - n)
  }

  lemma PointBall(ids: set<NodeId>)
    requires Ball(ids, 0)
    ensures |ids| <= 1
  {
    forall x, y | x in ids && y in ids ensures x == y {
      assert IsPrefixLength(x, y, K_NODE_ID_BITS);
      PrefixLengthIsLongest(x, y, K_NODE_ID_BITS);
      PrefixFullIffEqual(x, y);
    }
    AtMostOne(ids);
  }

  function WithBit(ids: set<NodeId>, i: nat): set<NodeId>
    requires i < K_NODE_ID_BITS
  {
    set x | x in ids && Bit(x, i)
  }

  /** The ids of a ball with the next bit set make a smaller ball, and so do the others. */
  lemma HalfBalls(ids: set<NodeId>, n: nat)
    requires 0 < n <= K_NODE_ID_BITS && Ball(ids, n)
    ensures Ball(WithBit(ids, K_NODE_ID_BITS - n), n - 1)
    ensures Ball(ids - WithBit(ids, K_NODE_ID_BITS - n), n - 1)
  {
    var ones := WithBit(ids, K_NODE_ID_BITS - n);
    forall x, y | x in ids && y in ids && (x in ones <==> y in ones)
      ensures Agree(x, y, K_NODE_ID_BITS - (n - 1))
    {
      assert Agree(x, y, K_NODE_ID_BITS - n);
    }
  }

  lemma SplitSize<T>(s: set<T>, half: set<T>)
    requires half <= s
    ensures |s| == |half| + |s - half|
  {
    assert s == half + (s - half);
  }

  lemma Halve(ids: set<NodeId>, n: nat) returns (ones: set<NodeId>, zeros: set<NodeId>)
    requires 0 < n <= K_NODE_ID_BITS && Ball(ids, n)
    ensures Ball(ones, n - 1) && Ball(zeros, n - 1) && |ids| == |ones| + |zeros|
  {
    HalfBalls(ids, n);
    ones := WithBit(ids, K_NODE_ID_BITS - n);
    zeros := ids - ones;
    SplitSize(ids, ones);
  }

  /** Ids that pairwise share their first `160 - n` bits number at most 2^n. */
  lemma {:induction false} BallSize(ids: set<NodeId>, n: nat)
    requires n <= K_NODE_ID_BITS && Ball(ids, n)
    ensures |ids| <= Pow2(n)
    decreases n
  {
    if n == 0 {
      PointBall(ids);
    } else {
      var ones, zeros := Halve(ids, n);
      BallSize(ones, n - 1);
      BallSize(zeros, n - 1);
    }
  }

  lemma AtMostOne<T>(s: set<T>)
    requires forall x, y :: x in s && y in s ==> x == y
    ensures |s| <= 1
  {
    if s != {} {
      var x :| x in s;
      assert s == {x};
    }
  }

  /** At distance exactly `b >= 1` from an id there are at most 2^(b-1) ids. */
  lemma BranchSize(self: NodeId, ids: set<NodeId>, b: nat)
    requires 1 <= b <= K_NODE_ID_BITS
    requires forall x :: x in ids ==> Distance(self, x) == b
    ensures |ids| <= Pow2(b - 1)
  {
    forall x, y | x in ids && y in ids ensures Agree(x, y, K_NODE_ID_BITS - (b - 1)) {
      SameBranchCloser(self, x, y);
      PrefixLengthIsLongest(x, y, PrefixLength(x, y));
    }
    assert Ball(ids, b - 1);
    BallSize(ids, b - 1);
  }
}
