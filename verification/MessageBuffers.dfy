/** One peer's queue of received messages, and its expiry
    (src/ss_p2p/message_pool.cpp, include/ss_p2p/message_pool.hpp). */
module MessageBuffers {
  import opened Utils
  import opened Nodes

  /** 20 minutes, in seconds. */
  const MESSAGE_LIFETIME := 20 * 60

  type Body = string

  datatype Received = Received(id: nat, body: Body, time: int)

  datatype PopFlag = Dequeue | Peek

  // ---------------------------------------------------------------- expiry of one queue

  ghost predicate Sorted(q: seq<Received>) {
    forall i, j :: 0 <= i < j < |q| ==> q[i].time <= q[j].time
  }

  /** Nothing that arrived by `base` stands behind something that arrived later. */
  ghost predicate Partitioned(q: seq<Received>, base: int) {
    forall i, j :: 0 <= i < j < |q| && q[j].time <= base ==> q[i].time <= base
  }

  ghost predicate IsUpperBound(q: seq<Received>, base: int, k: nat) {
    && k <= |q|
    && (forall i :: 0 <= i < k ==> q[i].time <= base)
    && (forall i :: k <= i < |q| ==> base < q[i].time)
  }

  /** The messages later than `base`, in order. */
  function Young(q: seq<Received>, base: int): (r: seq<Received>)
    ensures |r| <= |q|
  {
    if q == [] then []
    else Young(q[..|q| - 1], base) + if base < q[|q| - 1].time then [q[|q| - 1]] else []
  }

  lemma {:induction false} YoungMembers(q: seq<Received>, base: int)
    ensures forall m :: m in Young(q, base) <==> m in q && base < m.time
    decreases |q|
  {
    if q != [] {
      YoungMembers(q[..|q| - 1], base);
      assert q == q[..|q| - 1] + [q[|q| - 1]];
    }
  }

  lemma YoungLast(q: seq<Received>, m: Received, base: int)
    ensures Young(q + [m], base) == Young(q, base) + if base < m.time then [m] else []
  {
    assert (q + [m])[..|q + [m]| - 1] == q;
  }

  lemma {:induction false} YoungConcat(a: seq<Received>, b: seq<Received>, base: int)
    ensures Young(a + b, base) == Young(a, base) + Young(b, base)
    decreases |b|
  {
    if b == [] {
      assert a + b == a;
    } else {
      var last := b[|b| - 1];
      YoungConcat(a, b[..|b| - 1], base);
      assert (a + b)[..|a + b| - 1] == a + b[..|b| - 1];
      ConcatAssociates(Young(a, base), Young(b[..|b| - 1], base), if base < last.time then [last] else []);
    }
  }

  lemma {:induction false} AllYoung(q: seq<Received>, base: int)
    requires forall i :: 0 <= i < |q| ==> base < q[i].time
    ensures Young(q, base) == q
    decreases |q|
  {
    if q != [] {
      var front := q[..|q| - 1];
      assert forall i :: 0 <= i < |front| ==> front[i] == q[i];
      AllYoung(front, base);
      assert q == front + [q[|q| - 1]];
    }
  }

  lemma NoneYoung(q: seq<Received>, base: int)
    ensures Young(q, base) == [] <==> forall m :: m in q ==> m.time <= base
  {
    YoungMembers(q, base);
    if Young(q, base) != [] {
      assert Young(q, base)[0] in Young(q, base);
    }
  }

  /** Dropping the first `k` messages leaves exactly the young ones if and only if `k` is the upper bound. */
  lemma DropIsExpiryExactly(q: seq<Received>, base: int, k: nat)
    requires k <= |q|
    ensures q[k..] == Young(q, base) <==> IsUpperBound(q, base, k)
  {
    assert q == q[..k] + q[k..];
    SplitAtBound(q[..k], q[k..], base);
    if IsUpperBound(q, base, k) {
    } else if forall i :: 0 <= i < k ==> q[i].time <= base {
      var i :| k <= i < |q| && q[i].time <= base;
      assert q[i] in q[k..];
    } else {
      var i :| 0 <= i < k && base < q[i].time;
      assert q[i] in q[..k];
    }
  }

  lemma SplitAtBound(a: seq<Received>, b: seq<Received>, base: int)
    ensures b == Young(a + b, base) <==> (forall m :: m in a ==> m.time <= base) && forall m :: m in b ==> base < m.time
  {
    YoungConcat(a, b, base);
    YoungMembers(a + b, base);
    NoneYoung(a, base);
    if forall m :: m in b ==> base < m.time {
      AllYoung(b, base);
    }
  }

  /** So a queue can be expired by dropping a prefix if and only if it is partitioned, as a sorted one is. */
  lemma PrefixExpiryExactly(q: seq<Received>, base: int)
    ensures (exists k: nat :: k <= |q| && IsUpperBound(q, base, k)) <==> Partitioned(q, base)
    ensures Sorted(q) ==> Partitioned(q, base)
  {
    if Partitioned(q, base) {
      var k: nat := 0;
      while k < |q| && q[k].time <= base
        invariant k <= |q| && forall i :: 0 <= i < k ==> q[i].time <= base
      {
        k := k + 1;
      }
      assert IsUpperBound(q, base, k);
    }
  }

  /** The library's binary search: halve the range that may still hold the bound. */
  method UpperBound(q: seq<Received>, base: int) returns (first: nat)
    requires Partitioned(q, base)
    ensures IsUpperBound(q, base, first)
  {
    first := 0;
    var len: nat := |q|;
    while len > 0
      invariant first + len <= |q|
      invariant forall i :: 0 <= i < first ==> q[i].time <= base
      invariant forall i :: first + len <= i < |q| ==> base < q[i].time
    {
      var half := len / 2;
      var middle := first + half;
      if base < q[middle].time {
        len := half;
      } else {
        first := middle + 1;
        len := len - half - 1;
      }
    }
  }

  class PeerMessageBuffer {
    const bindingEp: Endpoint
    var msgQueue: seq<Received>
    var lastReceivedAt: int
    var lastBindedAt: int

    constructor (ep: Endpoint)
      ensures bindingEp == ep && msgQueue == [] && lastReceivedAt == 0 && lastBindedAt == 0
    {
      bindingEp := ep;
      msgQueue, lastReceivedAt, lastBindedAt := [], 0, 0;
    }

    constructor Copy(from: PeerMessageBuffer)
      ensures bindingEp == from.bindingEp && msgQueue == from.msgQueue
      ensures lastReceivedAt == from.lastReceivedAt && lastBindedAt == from.lastBindedAt
    {
      bindingEp := from.bindingEp;
      msgQueue, lastReceivedAt, lastBindedAt := from.msgQueue, from.lastReceivedAt, from.lastBindedAt;
    }

    /** The clock is read twice: for the message and for the buffer. */
    method Push(body: Body, id: nat, now: int, later: int)
      modifies this
      ensures msgQueue == old(msgQueue) + [Received(id, body, now)]
      ensures lastReceivedAt == later && lastBindedAt == old(lastBindedAt)
    {
      msgQueue := msgQueue + [Received(id, body, now)];
      lastReceivedAt := later;
    }

    method Pop(idx: nat, flag: PopFlag) returns (ret: Option<Received>)
      modifies this`msgQueue
      ensures ret == if idx < |old(msgQueue)| then Some(old(msgQueue)[idx]) else None
      ensures msgQueue == if idx < |old(msgQueue)| && flag == Dequeue then Erased(old(msgQueue), idx) else old(msgQueue)
    {
      if |msgQueue| == 0 { return None; }
      if |msgQueue| <= idx { return None; }
      ret := Some(msgQueue[idx]);
      if flag == Dequeue {
        msgQueue := msgQueue[..idx] + msgQueue[idx + 1..];
      }
    }

    /** Finds the last message with this id; dequeuing one that is not there is undefined. */
    method PopById(id: nat, flag: PopFlag) returns (ret: Option<Received>)
      requires flag == Dequeue && msgQueue != [] ==> exists m :: m in msgQueue && m.id == id
      modifies this`msgQueue
      ensures ret.None? ==> msgQueue == old(msgQueue) && forall m :: m in old(msgQueue) ==> m.id != id
      ensures ret.Some? ==>
                exists i: nat :: i < |old(msgQueue)| && IsLastWithId(old(msgQueue), id, i)
                  && ret.value == old(msgQueue)[i]
                  && msgQueue == if flag == Dequeue then Erased(old(msgQueue), i) else old(msgQueue)
    {
      if |msgQueue| == 0 { return None; }
      var at := -1;
      for i := 0 to |msgQueue|
        invariant -1 <= at < i
        invariant at == -1 ==> forall j :: 0 <= j < i ==> msgQueue[j].id != id
        invariant at >= 0 ==> msgQueue[at].id == id && forall j :: at < j < i ==> msgQueue[j].id != id
        invariant msgQueue == old(msgQueue)
      {
        if msgQueue[i].id == id { at := i; }
      }
      if at == -1 { return None; }
      assert IsLastWithId(msgQueue, id, at);
      ret := Some(msgQueue[at]);
      if flag == Dequeue {
        msgQueue := Erased(msgQueue, at);
      }
    }

    /** The earliest message later than `since` (or than the last binding, for 0); it stays queued whatever the flag. */
    method PopSince(since: int, flag: PopFlag) returns (ret: Option<Received>)
      requires Partitioned(msgQueue, if since == 0 then lastBindedAt else since)
      ensures var young := Young(msgQueue, if since == 0 then lastBindedAt else since);
              ret == if young == [] then None else Some(young[0])
    {
      var base := if since == 0 then lastBindedAt else since;
      var k := UpperBound(msgQueue, base);
      DropIsExpiryExactly(msgQueue, base, k);
      if k < |msgQueue| { return Some(msgQueue[k]); }
      ret := None;
    }

    /** The range between two reverse iterators, given by the positions of their bases. */
    method DropReversed(begin: nat, end: nat)
      requires end <= begin <= |msgQueue|
      modifies this`msgQueue
      ensures msgQueue == old(msgQueue)[..end] + old(msgQueue)[begin..]
    {
      msgQueue := msgQueue[..end] + msgQueue[begin..];
    }

    /** One entry of a refresh: what is 1200 seconds old or older goes, the rest keeps its order. */
    method Expire(now: int)
      requires Partitioned(msgQueue, now - MESSAGE_LIFETIME)
      modifies this`msgQueue
      ensures msgQueue == Young(old(msgQueue), now - 1200)
    {
      var lower := UpperBound(msgQueue, now - MESSAGE_LIFETIME);
      DropIsExpiryExactly(msgQueue, now - MESSAGE_LIFETIME, lower);
      DropReversed(lower, 0);
    }
  }

  ghost predicate IsLastWithId(q: seq<Received>, id: nat, i: nat)
    requires i < |q|
  {
    q[i].id == id && forall j :: i < j < |q| ==> q[j].id != id
  }

  // ---------------------------------------------------------------- runs of one buffer

  datatype QueueOp = Push(m: Received) | Take(i: nat) | Expire(now: int)

  function QueueStep(q: seq<Received>, op: QueueOp): seq<Received> {
    match op
    case Push(m) => q + [m]
    case Take(i) => if i < |q| then Erased(q, i) else q
    case Expire(now) => Young(q, now - MESSAGE_LIFETIME)
  }

  function RunQueue(ops: seq<QueueOp>): seq<Received> {
    if ops == [] then [] else QueueStep(RunQueue(ops[..|ops| - 1]), ops[|ops| - 1])
  }

  lemma RunOneMore(ops: seq<QueueOp>, op: QueueOp)
    ensures RunQueue(ops + [op]) == QueueStep(RunQueue(ops), op)
  {
    assert (ops + [op])[..|ops + [op]| - 1] == ops;
  }

  /** The latest clock reading; 0 before the first. */
  function Clock(ops: seq<QueueOp>): int {
    if ops == [] then 0
    else match ops[|ops| - 1]
      case Push(m) => m.time
      case Take(_) => Clock(ops[..|ops| - 1])
      case Expire(now) => now
  }

  /** The clock never goes back. */
  ghost predicate Timely(ops: seq<QueueOp>) {
    ops == [] || (Timely(ops[..|ops| - 1]) && Clock(ops[..|ops| - 1]) <= Clock(ops))
  }

  function PushedBy(op: QueueOp): seq<Received> {
    if op.Push? then [op.m] else []
  }

  function Pushed(ops: seq<QueueOp>): seq<Received> {
    if ops == [] then []
    else Pushed(ops[..|ops| - 1]) + PushedBy(ops[|ops| - 1])
  }

  function TakenAt(q: seq<Received>, op: QueueOp): seq<Received> {
    if op.Take? && op.i < |q| then [q[op.i]] else []
  }

  function Taken(ops: seq<QueueOp>): seq<Received> {
    if ops == [] then []
    else Taken(ops[..|ops| - 1]) + TakenAt(RunQueue(ops[..|ops| - 1]), ops[|ops| - 1])
  }

  function Old(q: seq<Received>, base: int): (r: seq<Received>)
    ensures forall m :: m in r ==> m.time <= base
  {
    if q == [] then []
    else Old(q[..|q| - 1], base) + if q[|q| - 1].time <= base then [q[|q| - 1]] else []
  }

  function ExpiredAt(q: seq<Received>, op: QueueOp): seq<Received> {
    if op.Expire? then Old(q, op.now - MESSAGE_LIFETIME) else []
  }

  function Expired(ops: seq<QueueOp>): seq<Received> {
    if ops == [] then []
    else Expired(ops[..|ops| - 1]) + ExpiredAt(RunQueue(ops[..|ops| - 1]), ops[|ops| - 1])
  }

  lemma CountLast(q: seq<Received>, m: Received)
    ensures multiset(q + [m]) == multiset(q) + multiset{m}
  {
  }

  lemma {:induction false} YoungAndOld(q: seq<Received>, base: int)
    ensures multiset(q) == multiset(Young(q, base)) + multiset(Old(q, base))
    decreases |q|
  {
    if q != [] {
      var front, last := q[..|q| - 1], q[|q| - 1];
      YoungAndOld(front, base);
      assert q == front + [last];
      CountLast(front, last);
      if base < last.time {
        CountLast(Young(front, base), last);
        assert Old(q, base) == Old(front, base);
      } else {
        CountLast(Old(front, base), last);
        assert Young(q, base) == Young(front, base);
      }
    }
  }

  lemma {:induction false} YoungSorted(q: seq<Received>, base: int)
    requires Sorted(q)
    ensures Sorted(Young(q, base))
    decreases |q|
  {
    if q != [] {
      var front := q[..|q| - 1];
      YoungSorted(front, base);
      YoungMembers(front, base);
    }
  }

  /** Every timely run keeps the queue sorted by arrival, nothing in it from the future. */
  lemma {:induction false} RunsStaySorted(ops: seq<QueueOp>)
    requires Timely(ops)
    ensures Sorted(RunQueue(ops))
    ensures forall m :: m in RunQueue(ops) ==> m.time <= Clock(ops)
    decreases |ops|
  {
    if ops != [] {
      RunsStaySorted(ops[..|ops| - 1]);
      StepStaysSorted(RunQueue(ops[..|ops| - 1]), ops[|ops| - 1], Clock(ops));
    }
  }

  lemma ErasedSorted(q: seq<Received>, i: nat)
    requires Sorted(q) && i < |q|
    ensures Sorted(Erased(q, i)) && forall m :: m in Erased(q, i) ==> m in q
  {
    assert forall j :: 0 <= j < |q| - 1 ==> Erased(q, i)[j] == q[if j < i then j else j + 1];
  }

  lemma StepStaysSorted(q: seq<Received>, op: QueueOp, clock: int)
    requires Sorted(q) && (forall m :: m in q ==> m.time <= clock) && (op.Push? ==> op.m.time == clock)
    ensures Sorted(QueueStep(q, op)) && forall m :: m in QueueStep(q, op) ==> m.time <= clock
  {
    match op
    case Push(_) =>
    case Take(i) => if i < |q| { ErasedSorted(q, i); }
    case Expire(now) =>
      YoungSorted(q, now - MESSAGE_LIFETIME);
      YoungMembers(q, now - MESSAGE_LIFETIME);
  }

  lemma StepAccounts(q: seq<Received>, op: QueueOp)
    requires !op.Push?
    ensures multiset(q) == multiset(QueueStep(q, op)) + multiset(TakenAt(q, op)) + multiset(ExpiredAt(q, op))
  {
    if op.Expire? {
      YoungAndOld(q, op.now - MESSAGE_LIFETIME);
    } else if op.i < |q| {
      assert q == q[..op.i] + [q[op.i]] + q[op.i + 1..];
    }
  }

  /** Nothing is lost or made up: over every run what was pushed is what is queued, was taken, or expired. */
  lemma {:induction false} Accounted(ops: seq<QueueOp>)
    ensures multiset(Pushed(ops)) == multiset(RunQueue(ops)) + multiset(Taken(ops)) + multiset(Expired(ops))
    decreases |ops|
  {
    if ops != [] {
      var front, op := ops[..|ops| - 1], ops[|ops| - 1];
      Accounted(front);
      if !op.Push? {
        StepAccounts(RunQueue(front), op);
      }
    }
  }

  lemma {:induction false} ExpiredAreOld(ops: seq<QueueOp>)
    requires Timely(ops)
    ensures forall m :: m in Expired(ops) ==> m.time <= Clock(ops) - MESSAGE_LIFETIME
    decreases |ops|
  {
    if ops != [] {
      ExpiredAreOld(ops[..|ops| - 1]);
    }
  }

  /** A message younger than 1200 seconds is still queued unless somebody took it. */
  lemma YoungMessagesKept(ops: seq<QueueOp>, m: Received)
    requires Timely(ops) && m in Pushed(ops) && Clock(ops) - m.time < 1200
    ensures m in RunQueue(ops) || m in Taken(ops)
  {
    Accounted(ops);
    ExpiredAreOld(ops);
    assert m in multiset(Pushed(ops));
    assert m !in multiset(Expired(ops));
  }

  // ---------------------------------------------------------------- a queue nobody takes from

  ghost predicate NoTakes(ops: seq<QueueOp>) {
    forall op :: op in ops ==> !op.Take?
  }

  /** What the latest refresh dropped: everything up to this time. */
  function Horizon(ops: seq<QueueOp>): Option<int> {
    if ops == [] then None else HorizonAfter(Horizon(ops[..|ops| - 1]), ops[|ops| - 1])
  }

  function HorizonAfter(h: Option<int>, op: QueueOp): Option<int> {
    if op.Expire? then Some(op.now - MESSAGE_LIFETIME) else h
  }

  function Since(q: seq<Received>, h: Option<int>): seq<Received> {
    match h
    case None => q
    case Some(base) => Young(q, base)
  }

  lemma {:induction false} HorizonBehindClock(ops: seq<QueueOp>)
    requires Timely(ops)
    ensures Horizon(ops).Some? ==> Horizon(ops).value <= Clock(ops) - MESSAGE_LIFETIME
    decreases |ops|
  {
    if ops != [] {
      HorizonBehindClock(ops[..|ops| - 1]);
    }
  }

  lemma {:induction false} YoungTwice(q: seq<Received>, a: int, b: int)
    requires a <= b
    ensures Young(Young(q, a), b) == Young(q, b)
    decreases |q|
  {
    if q != [] {
      var front, last := q[..|q| - 1], q[|q| - 1];
      YoungTwice(front, a, b);
      if a < last.time {
        YoungLast(Young(front, a), last, b);
      } else {
        assert Young(q, a) == Young(front, a) && Young(q, b) == Young(front, b);
      }
    }
  }

  /** However often a queue was refreshed, it holds exactly the messages younger than the last refresh asks. */
  lemma {:induction false} QueueIsRecent(ops: seq<QueueOp>)
    requires Timely(ops) && NoTakes(ops)
    ensures RunQueue(ops) == Since(Pushed(ops), Horizon(ops))
    decreases |ops|
  {
    if ops != [] {
      var front, op := ops[..|ops| - 1], ops[|ops| - 1];
      assert op in ops && forall o :: o in front ==> o in ops;
      QueueIsRecent(front);
      HorizonBehindClock(front);
      RecentStep(Pushed(front), Horizon(front), op);
    }
  }

  lemma RecentStep(pushed: seq<Received>, h: Option<int>, op: QueueOp)
    requires !op.Take?
    requires op.Push? ==> h.Some? ==> h.value < op.m.time
    requires op.Expire? ==> h.Some? ==> h.value <= op.now - MESSAGE_LIFETIME
    ensures QueueStep(Since(pushed, h), op) == Since(pushed + PushedBy(op), HorizonAfter(h, op))
  {
    match op
    case Push(m) => if h.Some? { YoungLast(pushed, m, h.value); }
    case Expire(now) =>
      assert pushed + [] == pushed;
      if h.Some? {
        YoungTwice(pushed, h.value, now - MESSAGE_LIFETIME);
      }
  }
}
