/** How a flood spreads: where the first copies go, and what a node that cannot reach the destination sends on
    (src/ss_p2p/ice_agent/ice_observer.cpp, signaling_server.cpp). */
module FloodSpread {
  import opened Utils
  import opened Nodes
  import opened Tables
  import opened Collecting
  import opened Controllers
  import opened Signaling
  import opened Flood

  lemma RecipientsOfAddressed(to: seq<Endpoint>, m: Signal)
    ensures Recipients(Addressed(to, m)) == to
  {
  }

  /** Sent for `root` by a node with this table, none of it to `skipped`: three copies, or to as many nodes as there
      are, and perhaps one more; no node left out is in a slot nearer the root's. */
  ghost predicate SpreadFor(idOf: IdOf, v: View, skipped: seq<Endpoint>, root: Endpoint, tos: seq<Endpoint>) {
    var eligible := |IdsBeside(idOf, v.table, skipped)|;
    var wanted := if eligible < 3 then eligible else 3;
    && wanted <= |tos| <= 4
    && (forall ep :: ep in tos ==> HasEndpoint(v.table, ep) && ep !in skipped)
    && (GoodTable(v.selfId, v.table) && idOf(root) != v.selfId ==> |tos| <= wanted + 1 && NoRepeats(tos))
    && (GoodTable(v.selfId, v.table) ==>
          forall ep, m :: ep in tos && StoredBeside(idOf, v.table, skipped, m) && m.ep !in tos ==>
            SlotsApart(idOf, v.selfId, root, ep) <= SlotsApart(idOf, v.selfId, root, m.ep))
  }

  lemma CollectedSpread(idOf: IdOf, v: View, root: Endpoint, skipped: seq<Endpoint>)
    requires WellMade(idOf, v.table)
    ensures SpreadFor(idOf, v, skipped, root, CollectEndpoints(idOf, v.selfId, v.table, root, FORWARD_COUNT, skipped))
  {
    CollectEndpointsSound(idOf, v.selfId, v.table, root, FORWARD_COUNT, skipped);
    CollectEndpointsCount(idOf, v.selfId, v.table, root, FORWARD_COUNT, skipped);
    if GoodTable(v.selfId, v.table) {
      CollectEndpointsRepeatExactlyWhen(idOf, v.selfId, v.table, root, FORWARD_COUNT, skipped);
      var tos := CollectEndpoints(idOf, v.selfId, v.table, root, FORWARD_COUNT, skipped);
      forall ep, m | ep in tos && StoredBeside(idOf, v.table, skipped, m) && m.ep !in tos
        ensures SlotsApart(idOf, v.selfId, root, ep) <= SlotsApart(idOf, v.selfId, root, m.ep)
      {
        CollectEndpointsNearRoot(idOf, v.selfId, v.table, root, FORWARD_COUNT, skipped, ep, m);
      }
    }
  }

  // ---------------------------------------------------------------- the first copies

  /** The first copies carry the request with an empty relay list, to three stored nodes, or all there are, and
      perhaps one more. */
  lemma LaunchSpreads(c: Quest, v: View, n: Net)
    requires LaunchedFrom(c, v, n)
    ensures SpreadFor(c.idOf, v, [], c.dest, Recipients(n.flying))
    ensures forall q :: q in n.flying ==>
              && q.msg.sub == Request && q.msg.relays == [] && q.msg.ttl == 5
              && q.msg.src == c.src && q.msg.dest == c.dest && q.msg.obs == c.obs
  {
    CollectedSpread(c.idOf, v, c.dest, []);
    RecipientsOfAddressed(CollectEndpoints(c.idOf, v.selfId, v.table, c.dest, FORWARD_COUNT, []),
                          FirstSignal(c.src, c.dest, c.obs));
  }

  /** They go where the destination would be stored: a node left out lies in no slot nearer the destination's than
      any node that is sent one. So none in the destination's own slot is left out for one outside it. */
  lemma LaunchNearDestination(c: Quest, v: View, n: Net, q: Packet, m: KNode)
    requires LaunchedFrom(c, v, n) && GoodTable(v.selfId, v.table)
    requires q in n.flying && Stored(v.table, m) && m.ep !in Recipients(n.flying)
    ensures SlotsApart(c.idOf, v.selfId, c.dest, q.to) <= SlotsApart(c.idOf, v.selfId, c.dest, m.ep)
    ensures SlotOf(v.selfId, m.id) == SlotOf(v.selfId, c.idOf(c.dest)) ==>
              SlotOf(v.selfId, c.idOf(q.to)) == SlotOf(v.selfId, c.idOf(c.dest))
  {
    var targets := CollectEndpoints(c.idOf, v.selfId, v.table, c.dest, FORWARD_COUNT, []);
    RecipientsOfAddressed(targets, FirstSignal(c.src, c.dest, c.obs));
    var k :| 0 <= k < |n.flying| && n.flying[k] == q;
    assert targets[k] == q.to;
    CollectEndpointsNearRoot(c.idOf, v.selfId, v.table, c.dest, FORWARD_COUNT, [], q.to, m);
  }

  // ---------------------------------------------------------------- what is passed on

  /** A node knows an endpoint when it stores its id: in a well placed table, exactly then. */
  lemma KnowsWhatIsStored(idOf: IdOf, v: View, ep: Endpoint)
    ensures Knows(idOf, v, ep) ==> exists m :: Stored(v.table, m) && m.id == idOf(ep)
    ensures GoodTable(v.selfId, v.table) && (exists m :: Stored(v.table, m) && m.id == idOf(ep)) ==> Knows(idOf, v, ep)
  {
    var s := SlotOf(v.selfId, idOf(ep));
    ContainsIff(v.table[s], idOf(ep));
    assert forall m :: m in v.table[s] ==> Stored(v.table, m);
    if GoodTable(v.selfId, v.table) && exists m :: Stored(v.table, m) && m.id == idOf(ep) {
      var m :| Stored(v.table, m) && m.id == idOf(ep);
      var x: nat :| x < K_BUCKET_COUNT && m in v.table[x];
      assert GoodBucket(v.selfId, v.table[x], x);
    }
  }

  /** `p` as it leaves the node that received it, for these recipients. */
  ghost predicate PassedOn(p: Packet, tos: seq<Endpoint>, q: Packet) {
    && q.msg.sub == Relay && q.msg.src == p.msg.src && q.msg.dest == p.msg.dest && q.msg.obs == p.msg.obs
    && q.msg.relays == p.msg.relays + [p.to] + tos && q.msg.ttl == 5
  }

  lemma StepSpreads(c: Quest, now: Net, i: nat, v: View, newId: nat) returns (copies: seq<Packet>)
    requires NetInv(c, now) && Enabled(c, now, Deliver(i, v, newId))
    requires now.flying[i].to != c.src && now.flying[i].to != c.dest && !Knows(c.idOf, v, c.dest)
    ensures var p := now.flying[i];
            && Delivered(c, now, i, v, newId).flying == Erased(now.flying, i) + copies
            && SpreadFor(c.idOf, v, p.msg.relays + [p.to], c.dest, Recipients(copies))
            && forall q :: q in copies ==> PassedOn(p, Recipients(copies), q)
  {
    var p := now.flying[i];
    assert p in now.flying;
    DispatchBySource(c, now, p);
    var targets := ForwardTo(c.idOf, v, p.to, p.msg);
    copies := Addressed(targets, Flooded(c.idOf, v, p.to, p.msg));
    RecipientsOfAddressed(targets, Flooded(c.idOf, v, p.to, p.msg));
    CollectedSpread(c.idOf, v, c.dest, p.msg.relays + [p.to]);
  }

  /** In every run from a launch, a node that gets a copy, is neither the source nor the destination and does not
      store the destination, replaces it by copies to three of its nodes off the relay list, or all there are, and
      perhaps one more; each copy lists all whom the request has reached or is on its way to from here. */
  lemma FloodSpreads(c: Quest, n: Net, events: seq<Event>, i: nat, v: View, newId: nat) returns (copies: seq<Packet>)
    requires GoodQuest(c) && Launched(c, n) && Possible(c, n, events)
    requires Enabled(c, After(c, n, events), Deliver(i, v, newId))
    requires After(c, n, events).flying[i].to != c.src && After(c, n, events).flying[i].to != c.dest
    requires forall m :: Stored(v.table, m) ==> m.id != c.idOf(c.dest)
    ensures var now := After(c, n, events);
            var p := now.flying[i];
            && Next(c, now, Deliver(i, v, newId)).flying == Erased(now.flying, i) + copies
            && SpreadFor(c.idOf, v, p.msg.relays + [p.to], c.dest, Recipients(copies))
            && forall q :: q in copies ==> PassedOn(p, Recipients(copies), q)
  {
    RunKeepsInv(c, n, events);
    KnowsWhatIsStored(c.idOf, v, c.dest);
    copies := StepSpreads(c, After(c, n, events), i, v, newId);
  }

  /** One that stores the destination replaces it by a single copy straight there, and the destination by a response
      to the source. */
  lemma StoredIsRelayed(c: Quest, n: Net, events: seq<Event>, i: nat, v: View, newId: nat)
    requires GoodQuest(c) && Launched(c, n) && Possible(c, n, events)
    requires Enabled(c, After(c, n, events), Deliver(i, v, newId))
    requires After(c, n, events).flying[i].to != c.src
    requires GoodTable(v.selfId, v.table) && exists m :: Stored(v.table, m) && m.id == c.idOf(c.dest)
    ensures var now := After(c, n, events);
            var p := now.flying[i];
            Next(c, now, Deliver(i, v, newId)).flying == Erased(now.flying, i) +
              [if p.to == c.dest then Packet(c.src, p.msg.(sub := Response))
               else Packet(c.dest, p.msg.(sub := Relay, relays := p.msg.relays + [p.to]))]
  {
    RunKeepsInv(c, n, events);
    var now := After(c, n, events);
    assert now.flying[i] in now.flying;
    DispatchBySource(c, now, now.flying[i]);
    KnowsWhatIsStored(c.idOf, v, c.dest);
  }

  /** Whatever a server is handed it files one observer under the new id: the destination to await what comes after
      its response, every other node because it passed the request on. */
  lemma ServersStoreOne(c: Quest, n: Net, events: seq<Event>, i: nat, v: View, newId: nat)
    requires GoodQuest(c) && Launched(c, n) && Possible(c, n, events)
    requires Enabled(c, After(c, n, events), Deliver(i, v, newId))
    requires After(c, n, events).flying[i].to != c.src || Holder(c) !in After(c, n, events).observers
    ensures var now := After(c, n, events);
            var to := now.flying[i].to;
            Next(c, now, Deliver(i, v, newId)).observers ==
              now.observers + {Observer(to, if to == c.dest then ResponseRole else RelayRole, newId)}
  {
    RunKeepsInv(c, n, events);
    var now := After(c, n, events);
    assert now.flying[i] in now.flying;
    DispatchBySource(c, now, now.flying[i]);
  }

  /** What the TTL decides, for any message and node: with nothing left of it the message dies and leaves no observer;
      else, from a node that does not store the destination, it spreads. */
  lemma TtlDecides(idOf: IdOf, v: View, me: Endpoint, m: Signal, id: nat)
    requires WellMade(idOf, v.table) && m.dest != me && forall n :: Stored(v.table, n) ==> n.id != idOf(m.dest)
    ensures m.ttl <= 0 ==> ServerSends(idOf, v, me, m) == [] && ServerStores(idOf, v, me, m, id) == {}
    ensures m.ttl >= 1 ==> SpreadFor(idOf, v, m.relays + [me], m.dest, Recipients(ServerSends(idOf, v, me, m)))
    ensures m.ttl >= 1 ==> ServerStores(idOf, v, me, m, id) == {Observer(me, RelayRole, id)}
  {
    KnowsWhatIsStored(idOf, v, m.dest);
    CollectedSpread(idOf, v, m.dest, m.relays + [me]);
    RecipientsOfAddressed(ForwardTo(idOf, v, me, m), Flooded(idOf, v, me, m));
  }
}
