/** The pool of message buffers, one a peer (src/ss_p2p/message_pool.cpp). */
module MessagePools {
  import opened Utils
  import opened Nodes
  import opened MessageBuffers

  type PeerId = nat

  /** A peer's id: a fixed function of its endpoint. */
  type PeerIdOf = Endpoint -> PeerId

  datatype Entry = Entry(ep: Endpoint, queue: seq<Received>)

  /** Position of the entry of peer `p`, or `|entries|`. */
  function FindEntry(peerIdOf: PeerIdOf, entries: seq<Entry>, p: PeerId): (i: nat)
    ensures i <= |entries|
    ensures i < |entries| ==> peerIdOf(entries[i].ep) == p
    ensures forall j :: 0 <= j < i ==> peerIdOf(entries[j].ep) != p
  {
    FirstIndex(entries, (e: Entry) => peerIdOf(e.ep) == p)
  }

  function QueueOf(peerIdOf: PeerIdOf, entries: seq<Entry>, p: PeerId): seq<Received> {
    var i := FindEntry(peerIdOf, entries, p);
    if i < |entries| then entries[i].queue else []
  }

  function StoreIn(peerIdOf: PeerIdOf, entries: seq<Entry>, ep: Endpoint, m: Received): seq<Entry> {
    var i := FindEntry(peerIdOf, entries, peerIdOf(ep));
    if i < |entries| then entries[i := Entry(entries[i].ep, entries[i].queue + [m])] else entries + [Entry(ep, [m])]
  }

  lemma StoreInTwoSteps(peerIdOf: PeerIdOf, entries: seq<Entry>, ep: Endpoint, m: Received)
    ensures var i := FindEntry(peerIdOf, entries, peerIdOf(ep));
            var filed := if i < |entries| then entries else entries + [Entry(ep, [])];
            StoreIn(peerIdOf, entries, ep, m) == filed[i := Entry(filed[i].ep, filed[i].queue + [m])]
  {
    if FindEntry(peerIdOf, entries, peerIdOf(ep)) == |entries| {
      assert [] + [m] == [m];
      assert (entries + [Entry(ep, [])])[|entries| := Entry(ep, [m])] == entries + [Entry(ep, [m])];
    }
  }

  function Refreshed(e: Entry, now: int): Entry {
    Entry(e.ep, Young(e.queue, now - MESSAGE_LIFETIME))
  }

  /** Every entry is expired by the clock as read when its turn comes. */
  function RefreshAll(peerIdOf: PeerIdOf, entries: seq<Entry>, clock: PeerId -> int): (r: seq<Entry>)
    ensures |r| == |entries|
    ensures forall i :: 0 <= i < |r| ==> r[i] == Refreshed(entries[i], clock(peerIdOf(entries[i].ep)))
  {
    seq(|entries|, i requires 0 <= i < |entries| => Refreshed(entries[i], clock(peerIdOf(entries[i].ep))))
  }

  datatype PoolOp = Store(ep: Endpoint, m: Received) | Refresh(clock: PeerId -> int)

  function PoolStep(peerIdOf: PeerIdOf, entries: seq<Entry>, op: PoolOp): seq<Entry> {
    match op
    case Store(ep, m) => StoreIn(peerIdOf, entries, ep, m)
    case Refresh(clock) => RefreshAll(peerIdOf, entries, clock)
  }

  ghost function RunPool(peerIdOf: PeerIdOf, ops: seq<PoolOp>): seq<Entry> {
    if ops == [] then [] else PoolStep(peerIdOf, RunPool(peerIdOf, ops[..|ops| - 1]), ops[|ops| - 1])
  }

  /** What a run does to the queue of one peer. */
  ghost function OpsOf(peerIdOf: PeerIdOf, ops: seq<PoolOp>, p: PeerId): seq<QueueOp> {
    if ops == [] then [] else OpsWith(peerIdOf, OpsOf(peerIdOf, ops[..|ops| - 1], p), ops[|ops| - 1], p)
  }

  ghost function OpsWith(peerIdOf: PeerIdOf, before: seq<QueueOp>, op: PoolOp, p: PeerId): seq<QueueOp> {
    match op
    case Store(ep, m) => if peerIdOf(ep) == p then before + [Push(m)] else before
    case Refresh(clock) => if before == [] then before else before + [Expire(clock(p))]
  }

  lemma StoreTouchesOnePeer(peerIdOf: PeerIdOf, entries: seq<Entry>, ep: Endpoint, m: Received, p: PeerId)
    ensures var after := StoreIn(peerIdOf, entries, ep, m);
            var before := QueueOf(peerIdOf, entries, p);
            && QueueOf(peerIdOf, after, p) == (if peerIdOf(ep) == p then before + [m] else before)
            && (FindEntry(peerIdOf, after, p) < |after| <==>
                  FindEntry(peerIdOf, entries, p) < |entries| || peerIdOf(ep) == p)
  {
    var after := StoreIn(peerIdOf, entries, ep, m);
    var i, k := FindEntry(peerIdOf, entries, p), FindEntry(peerIdOf, after, p);
    assert forall j :: 0 <= j < |entries| ==> after[j].ep == entries[j].ep;
    if i < |entries| {
      assert peerIdOf(after[i].ep) == p;
    }
    if i == |entries| && peerIdOf(ep) == p {
      assert peerIdOf(after[i].ep) == p;
    }
    assert k < |entries| ==> peerIdOf(entries[k].ep) == p;
  }

  lemma RefreshExpiresEachPeer(peerIdOf: PeerIdOf, entries: seq<Entry>, clock: PeerId -> int, p: PeerId)
    ensures var after := RefreshAll(peerIdOf, entries, clock);
            && QueueOf(peerIdOf, after, p) == Young(QueueOf(peerIdOf, entries, p), clock(p) - MESSAGE_LIFETIME)
            && (FindEntry(peerIdOf, after, p) < |after| <==> FindEntry(peerIdOf, entries, p) < |entries|)
  {
    var after := RefreshAll(peerIdOf, entries, clock);
    SameEndpoints(peerIdOf, entries, after, p);
  }

  lemma SameEndpoints(peerIdOf: PeerIdOf, a: seq<Entry>, b: seq<Entry>, p: PeerId)
    requires |a| == |b| && forall i :: 0 <= i < |a| ==> a[i].ep == b[i].ep
    ensures FindEntry(peerIdOf, a, p) == FindEntry(peerIdOf, b, p)
  {
    var i, k := FindEntry(peerIdOf, a, p), FindEntry(peerIdOf, b, p);
    assert i < |a| ==> peerIdOf(b[i].ep) == p;
    assert k < |b| ==> peerIdOf(a[k].ep) == p;
  }

  ghost predicate Mirrors(peerIdOf: PeerIdOf, entries: seq<Entry>, mine: seq<QueueOp>, p: PeerId) {
    && QueueOf(peerIdOf, entries, p) == RunQueue(mine)
    && (FindEntry(peerIdOf, entries, p) < |entries| <==> mine != [])
    && NoTakes(mine)
  }

  lemma StepMirrored(peerIdOf: PeerIdOf, entries: seq<Entry>, mine: seq<QueueOp>, op: PoolOp, p: PeerId)
    requires Mirrors(peerIdOf, entries, mine, p)
    ensures Mirrors(peerIdOf, PoolStep(peerIdOf, entries, op), OpsWith(peerIdOf, mine, op, p), p)
  {
    match op
    case Store(ep, m) => StoreMirrored(peerIdOf, entries, mine, ep, m, p);
    case Refresh(clock) => RefreshMirrored(peerIdOf, entries, mine, clock, p);
  }

  lemma StoreMirrored(peerIdOf: PeerIdOf, entries: seq<Entry>, mine: seq<QueueOp>, ep: Endpoint, m: Received, p: PeerId)
    requires Mirrors(peerIdOf, entries, mine, p)
    ensures var now := if peerIdOf(ep) == p then mine + [Push(m)] else mine;
            Mirrors(peerIdOf, StoreIn(peerIdOf, entries, ep, m), now, p)
  {
    StoreTouchesOnePeer(peerIdOf, entries, ep, m, p);
    if peerIdOf(ep) == p {
      OneMoreMirrored(peerIdOf, entries, StoreIn(peerIdOf, entries, ep, m), mine, Push(m), p);
    }
  }

  lemma RefreshMirrored(peerIdOf: PeerIdOf, entries: seq<Entry>, mine: seq<QueueOp>, clock: PeerId -> int, p: PeerId)
    requires Mirrors(peerIdOf, entries, mine, p)
    ensures var now := if mine == [] then mine else mine + [Expire(clock(p))];
            Mirrors(peerIdOf, RefreshAll(peerIdOf, entries, clock), now, p)
  {
    RefreshExpiresEachPeer(peerIdOf, entries, clock, p);
    if mine != [] {
      OneMoreMirrored(peerIdOf, entries, RefreshAll(peerIdOf, entries, clock), mine, Expire(clock(p)), p);
    }
  }

  lemma OneMoreMirrored(peerIdOf: PeerIdOf, entries: seq<Entry>, after: seq<Entry>, mine: seq<QueueOp>,
      op: QueueOp, p: PeerId)
    requires Mirrors(peerIdOf, entries, mine, p) && !op.Take?
    requires QueueOf(peerIdOf, after, p) == QueueStep(QueueOf(peerIdOf, entries, p), op)
    requires FindEntry(peerIdOf, after, p) < |after|
    ensures Mirrors(peerIdOf, after, mine + [op], p)
  {
    RunOneMore(mine, op);
  }

  /** One peer's queue is the run of its own operations; no other peer's messages reach it. */
  lemma {:induction false} PeersAreSeparate(peerIdOf: PeerIdOf, ops: seq<PoolOp>, p: PeerId)
    ensures Mirrors(peerIdOf, RunPool(peerIdOf, ops), OpsOf(peerIdOf, ops, p), p)
    decreases |ops|
  {
    if ops != [] {
      PeersAreSeparate(peerIdOf, ops[..|ops| - 1], p);
      var front := ops[..|ops| - 1];
      StepMirrored(peerIdOf, RunPool(peerIdOf, front), OpsOf(peerIdOf, front, p), ops[|ops| - 1], p);
    }
  }

  /** Over every run in which the clock as seen by a peer's entry never goes back: its queue is sorted, and
      holds exactly the messages stored for that peer, in order, that the latest refresh found young enough. */
  lemma PoolHoldsRecent(peerIdOf: PeerIdOf, ops: seq<PoolOp>, p: PeerId)
    requires Timely(OpsOf(peerIdOf, ops, p))
    ensures var mine := OpsOf(peerIdOf, ops, p);
            && Sorted(QueueOf(peerIdOf, RunPool(peerIdOf, ops), p))
            && QueueOf(peerIdOf, RunPool(peerIdOf, ops), p) == Since(Pushed(mine), Horizon(mine))
  {
    PeersAreSeparate(peerIdOf, ops, p);
    QueueIsRecent(OpsOf(peerIdOf, ops, p));
    RunsStaySorted(OpsOf(peerIdOf, ops, p));
  }

  /** Message `m` was stored for `p` by operation `k`, and every later refresh found it less than 1200 seconds old. */
  ghost predicate StoredAndYoung(peerIdOf: PeerIdOf, ops: seq<PoolOp>, p: PeerId, m: Received, k: nat)
    requires k < |ops|
  {
    && ops[k].Store? && ops[k].m == m && peerIdOf(ops[k].ep) == p
    && forall j :: k < j < |ops| && ops[j].Refresh? ==> ops[j].clock(p) - m.time < 1200
  }

  /** Over every run, whatever the clocks do: a peer's queue holds exactly the messages that were stored for it and
      that no refresh since found 1200 seconds old or older. */
  lemma {:induction false} StoredUntilExpired(peerIdOf: PeerIdOf, ops: seq<PoolOp>, p: PeerId, m: Received)
    ensures m in QueueOf(peerIdOf, RunPool(peerIdOf, ops), p) <==>
              exists k: nat :: k < |ops| && StoredAndYoung(peerIdOf, ops, p, m, k)
    decreases |ops|
  {
    if ops != [] {
      var front, op := ops[..|ops| - 1], ops[|ops| - 1];
      StoredUntilExpired(peerIdOf, front, p, m);
      StepStored(peerIdOf, RunPool(peerIdOf, front), op, p, m);
      OneMoreOp(peerIdOf, front, op, p, m);
      assert ops == front + [op];
    }
  }

  lemma StepStored(peerIdOf: PeerIdOf, entries: seq<Entry>, op: PoolOp, p: PeerId, m: Received)
    ensures m in QueueOf(peerIdOf, PoolStep(peerIdOf, entries, op), p) <==>
              || (m in QueueOf(peerIdOf, entries, p) && (op.Refresh? ==> op.clock(p) - m.time < 1200))
              || (op.Store? && op.m == m && peerIdOf(op.ep) == p)
  {
    match op
    case Store(ep, x) => StoreTouchesOnePeer(peerIdOf, entries, ep, x, p);
    case Refresh(clock) =>
      RefreshExpiresEachPeer(peerIdOf, entries, clock, p);
      YoungMembers(QueueOf(peerIdOf, entries, p), clock(p) - MESSAGE_LIFETIME);
  }

  lemma OneMoreOp(peerIdOf: PeerIdOf, front: seq<PoolOp>, op: PoolOp, p: PeerId, m: Received)
    ensures (exists k: nat :: k < |front + [op]| && StoredAndYoung(peerIdOf, front + [op], p, m, k)) <==>
              || ((exists k: nat :: k < |front| && StoredAndYoung(peerIdOf, front, p, m, k)) &&
                    (op.Refresh? ==> op.clock(p) - m.time < 1200))
              || (op.Store? && op.m == m && peerIdOf(op.ep) == p)
  {
    var ops := front + [op];
    if k: nat :| k < |front| && StoredAndYoung(peerIdOf, front, p, m, k) {
      if op.Store? || op.clock(p) - m.time < 1200 {
        assert StoredAndYoung(peerIdOf, ops, p, m, k);
      }
    }
    if op.Store? && op.m == m && peerIdOf(op.ep) == p {
      assert StoredAndYoung(peerIdOf, ops, p, m, |front|);
    }
    if k: nat :| k < |ops| && StoredAndYoung(peerIdOf, ops, p, m, k) {
      if k < |front| {
        assert forall j :: k < j < |front| ==> front[j] == ops[j];
        assert ops[|front|] == op;
        assert StoredAndYoung(peerIdOf, front, p, m, k);
      }
    }
  }

  ghost predicate DistinctPeers(peerIdOf: PeerIdOf, entries: seq<Entry>) {
    forall i, j :: 0 <= i < j < |entries| ==> peerIdOf(entries[i].ep) != peerIdOf(entries[j].ep)
  }

  lemma {:induction false} OneEntryPerPeer(peerIdOf: PeerIdOf, ops: seq<PoolOp>)
    ensures DistinctPeers(peerIdOf, RunPool(peerIdOf, ops))
    decreases |ops|
  {
    if ops != [] {
      OneEntryPerPeer(peerIdOf, ops[..|ops| - 1]);
      StepKeepsDistinct(peerIdOf, RunPool(peerIdOf, ops[..|ops| - 1]), ops[|ops| - 1]);
    }
  }

  lemma StepKeepsDistinct(peerIdOf: PeerIdOf, entries: seq<Entry>, op: PoolOp)
    requires DistinctPeers(peerIdOf, entries)
    ensures DistinctPeers(peerIdOf, PoolStep(peerIdOf, entries, op))
  {
  }

  /** The binary search's own precondition, for every entry. */
  ghost predicate AllExpirable(peerIdOf: PeerIdOf, entries: seq<Entry>, clock: PeerId -> int) {
    forall i :: 0 <= i < |entries| ==> Partitioned(entries[i].queue, clock(peerIdOf(entries[i].ep)) - MESSAGE_LIFETIME)
  }

  /** While no entry saw the clock go back, every refresh may search, whatever its own readings. */
  lemma TimelyPoolsExpire(peerIdOf: PeerIdOf, ops: seq<PoolOp>, clock: PeerId -> int)
    requires forall p :: Timely(OpsOf(peerIdOf, ops, p))
    ensures AllExpirable(peerIdOf, RunPool(peerIdOf, ops), clock)
  {
    var entries := RunPool(peerIdOf, ops);
    OneEntryPerPeer(peerIdOf, ops);
    forall i | 0 <= i < |entries|
      ensures Partitioned(entries[i].queue, clock(peerIdOf(entries[i].ep)) - MESSAGE_LIFETIME)
    {
      var p := peerIdOf(entries[i].ep);
      PoolHoldsRecent(peerIdOf, ops, p);
      assert FindEntry(peerIdOf, entries, p) == i;
      PrefixExpiryExactly(entries[i].queue, clock(p) - MESSAGE_LIFETIME);
    }
  }

  ghost function EntriesOf(buffers: seq<PeerMessageBuffer>): (entries: seq<Entry>)
    reads buffers
    ensures |entries| == |buffers|
    ensures forall i :: 0 <= i < |buffers| ==> entries[i] == Entry(buffers[i].bindingEp, buffers[i].msgQueue)
  {
    seq(|buffers|, i requires 0 <= i < |buffers| reads buffers => Entry(buffers[i].bindingEp, buffers[i].msgQueue))
  }

  class MessagePool {
    const peerIdOf: PeerIdOf
    var pool: seq<PeerMessageBuffer>
    var hubActive: bool
    var delivered: seq<(Endpoint, Received)>    // what the hub's handler was given

    constructor (peerIdOf: PeerIdOf)
      ensures this.peerIdOf == peerIdOf && Valid() && Contents() == [] && !hubActive && delivered == []
    {
      this.peerIdOf := peerIdOf;
      pool, hubActive, delivered := [], false, [];
    }

    ghost predicate Valid()
      reads `pool
    {
      forall i, j :: 0 <= i < j < |pool| ==>
          pool[i] != pool[j] && peerIdOf(pool[i].bindingEp) != peerIdOf(pool[j].bindingEp)
    }

    ghost function Contents(): seq<Entry>
      reads `pool, pool
    {
      EntriesOf(pool)
    }

    method Find(p: PeerId) returns (i: nat)
      ensures i == FindEntry(peerIdOf, Contents(), p)
    {
      i := 0;
      while i < |pool| && peerIdOf(pool[i].bindingEp) != p
        invariant i <= FindEntry(peerIdOf, Contents(), p)
      {
        i := i + 1;
      }
    }

    /** Files the message under its sender; an active hub is handed a copy of it, which leaves it stored. */
    method Store(body: Body, ep: Endpoint, id: nat, now: int, later: int)
      requires Valid()
      modifies this, pool
      ensures Valid() && forall b :: b in pool ==> b in old(pool) || fresh(b)
      ensures hubActive == old(hubActive)
      ensures Contents() == StoreIn(peerIdOf, old(Contents()), ep, Received(id, body, now))
      ensures delivered == old(delivered) + if hubActive then [(ep, Received(id, body, now))] else []
    {
      var i := File(body, ep, id, now, later);
      Announce(pool[i], id, ep);
    }

    method Announce(entry: PeerMessageBuffer, id: nat, ep: Endpoint)
      requires entry.msgQueue != [] && entry.msgQueue[|entry.msgQueue| - 1].id == id
      modifies this`delivered
      ensures delivered == old(delivered) + if hubActive then [(ep, entry.msgQueue[|entry.msgQueue| - 1])] else []
    {
      if hubActive {
        Deliver(entry, id, ep);
      }
    }

    method File(body: Body, ep: Endpoint, id: nat, now: int, later: int) returns (i: nat)
      requires Valid()
      modifies this`pool, pool
      ensures Valid() && forall b :: b in pool ==> b in old(pool) || fresh(b)
      ensures Contents() == StoreIn(peerIdOf, old(Contents()), ep, Received(id, body, now))
      ensures i < |pool| && pool[i].msgQueue != []
      ensures pool[i].msgQueue[|pool[i].msgQueue| - 1] == Received(id, body, now)
    {
      ghost var before := Contents();
      i := Find(peerIdOf(ep));
      if i == |pool| {
        AllocateNewEntry(ep);
      }
      ghost var filed := Contents();
      PushTo(i, body, id, now, later);
      StoreInTwoSteps(peerIdOf, before, ep, Received(id, body, now));
      assert filed == if i < |before| then before else before + [Entry(ep, [])];
    }

    method AllocateNewEntry(ep: Endpoint)
      requires Valid() && FindEntry(peerIdOf, Contents(), peerIdOf(ep)) == |pool|
      modifies this`pool
      ensures Valid() && |pool| == |old(pool)| + 1 && pool[..|old(pool)|] == old(pool) && fresh(pool[|old(pool)|])
      ensures Contents() == old(Contents()) + [Entry(ep, [])]
    {
      assert forall j :: 0 <= j < |pool| ==> peerIdOf(Contents()[j].ep) != peerIdOf(ep);
      var entry := new PeerMessageBuffer(ep);
      pool := pool + [entry];
    }

    method PushTo(i: nat, body: Body, id: nat, now: int, later: int)
      requires Valid() && i < |pool|
      modifies pool[i]
      ensures Valid()
      ensures var queue := old(pool[i].msgQueue) + [Received(id, body, now)];
              Contents() == old(Contents())[i := Entry(pool[i].bindingEp, queue)]
    {
      pool[i].Push(body, id, now, later);
    }

    method Deliver(entry: PeerMessageBuffer, id: nat, ep: Endpoint)
      requires entry.msgQueue != [] && entry.msgQueue[|entry.msgQueue| - 1].id == id
      modifies this`delivered
      ensures delivered == old(delivered) + [(ep, entry.msgQueue[|entry.msgQueue| - 1])]
    {
      var temp := new PeerMessageBuffer.Copy(entry);
      var m := temp.PopById(id, Dequeue);
      match m
      case None =>
      case Some(received) => delivered := delivered + [(ep, received)];
    }

    method RefreshTick(clock: PeerId -> int)
      requires Valid()
      requires AllExpirable(peerIdOf, Contents(), clock)
      modifies pool
      ensures Valid() && Contents() == RefreshAll(peerIdOf, old(Contents()), clock)
    {
      ghost var before, after := Contents(), RefreshAll(peerIdOf, Contents(), clock);
      for i: nat := 0 to |pool|
        invariant Valid() && |before| == |after| == |pool|
        invariant forall j :: 0 <= j < i ==> Contents()[j] == after[j]
        invariant forall j :: i <= j < |pool| ==> Contents()[j] == before[j]
      {
        RefreshEntry(i, clock);
      }
      assert Contents() == after;
    }

    method RefreshEntry(i: nat, clock: PeerId -> int)
      requires Valid() && i < |pool|
      requires Partitioned(Contents()[i].queue, clock(peerIdOf(Contents()[i].ep)) - MESSAGE_LIFETIME)
      modifies pool[i]
      ensures Valid()
      ensures Contents() == old(Contents())[i := Refreshed(old(Contents())[i], clock(peerIdOf(old(Contents())[i].ep)))]
    {
      pool[i].Expire(clock(peerIdOf(pool[i].bindingEp)));
    }
  }
}
