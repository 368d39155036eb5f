/** Exactly when a flood ends once the source's request observer may leave storage, as it does when it expires: then
    what reaches the source is handed to its own server (src/ss_p2p/ice_agent/ice_agent.cpp, signaling_server.cpp). */
module FloodEnds {
  import opened Nodes
  import opened Utils
  import opened Tables
  import opened Controllers
  import opened Signaling
  import opened Flood

  /** Messages of the request in flight, in any number and at any stage; no stranger holds its id. */
  ghost predicate Ongoing(c: Quest, n: Net) {
    && (forall p :: p in n.flying ==> Carries(c, p))
    && forall o :: o in n.observers && o.id == c.obs ==> o == Holder(c)
  }

  ghost predicate Carries(c: Quest, p: Packet) {
    p.msg.obs == c.obs && p.msg.src == c.src && p.msg.dest == c.dest && p.to in c.universe
  }

  lemma LaunchedIsOngoing(c: Quest, n: Net)
    requires GoodQuest(c) && Launched(c, n)
    ensures Ongoing(c, n)
  {
    LaunchedInv(c, n);
  }

  // ---------------------------------------------------------------- what still ends

  /** The source's server neither is the destination nor knows it. */
  predicate DeadEnd(c: Quest, v: View) {
    c.src != c.dest && !Knows(c.idOf, v, c.dest)
  }

  lemma RoomKept(c: Quest, me: Endpoint, m: Signal)
    ensures Room(c, Relayed(me, m)) <= Room(c, m)
  {
    SubsetSize(c.universe - Members(Relayed(me, m).relays), c.universe - Members(m.relays));
  }

  /** Without the observer too, what a node sends weighs less than what it received, the source in a dead end. */
  lemma ServerSendsFall(c: Quest, v: View, p: Packet)
    requires GoodView(c, v) && Carries(c, p) && (p.to == c.src ==> DeadEnd(c, v))
    ensures Total(c, false, ServerSends(c.idOf, v, p.to, p.msg)) < Weight(c, false, p)
  {
    if p.to == c.dest {
      TotalOne(c, false, Packet(c.src, p.msg.(sub := Response)));
    } else if Knows(c.idOf, v, c.dest) {
      TotalOne(c, false, Packet(c.dest, Relayed(p.to, p.msg)));
      RoomKept(c, p.to, p.msg);
      Pow5Monotone(Room(c, Relayed(p.to, p.msg)), Room(c, p.msg));
    } else {
      FloodWeighsLess(c, false, v, p.to, p.msg);
    }
  }

  lemma ServerSendsCarry(c: Quest, v: View, p: Packet)
    requires GoodQuest(c) && GoodView(c, v) && Carries(c, p)
    ensures forall q :: q in ServerSends(c.idOf, v, p.to, p.msg) ==> Carries(c, q)
  {
    ForwardFacts(c, v, p.to, p.msg);
    var targets := ForwardTo(c.idOf, v, p.to, p.msg);
    forall q | q in Addressed(targets, Flooded(c.idOf, v, p.to, p.msg)) ensures Carries(c, q) {
      var k :| 0 <= k < |targets| && q == Packet(targets[k], Flooded(c.idOf, v, p.to, p.msg));
      assert targets[k] in targets;
    }
  }

  /** A step that does not hand a message to the source's server except in a dead end. */
  ghost predicate Calm(c: Quest, n: Net, e: Event)
    requires Enabled(c, n, e)
  {
    e.Deliver? && n.flying[e.i].to == c.src && Holder(c) !in n.observers ==> DeadEnd(c, e.view)
  }

  ghost function Remaining(c: Quest, n: Net): nat {
    Total(c, false, n.flying) + n.request.pending + if Holder(c) in n.observers then 1 else 0
  }

  lemma StepKeepsOngoing(c: Quest, n: Net, e: Event)
    requires GoodQuest(c) && Ongoing(c, n) && Enabled(c, n, e)
    ensures Ongoing(c, Next(c, n, e))
  {
    match e
    case Deliver(i, v, newId) =>
      assert n.flying[i] in n.flying;
      DropMembers(n.flying, i);
      ServerSendsCarry(c, v, n.flying[i]);
    case Lose(i) => DropMembers(n.flying, i);
    case TraversalDone =>
    case Expire =>
  }

  lemma CalmStepFalls(c: Quest, n: Net, e: Event)
    requires GoodQuest(c) && Ongoing(c, n) && Enabled(c, n, e) && Calm(c, n, e)
    ensures Remaining(c, Next(c, n, e)) < Remaining(c, n)
  {
    match e
    case Deliver(i, v, newId) => CalmDeliveryFalls(c, n, i, v, newId);
    case Lose(i) => TotalDrop(c, false, n.flying, i);
    case TraversalDone =>
    case Expire =>
  }

  lemma CalmDeliveryFalls(c: Quest, n: Net, i: nat, v: View, newId: nat)
    requires GoodQuest(c) && Ongoing(c, n) && Enabled(c, n, Deliver(i, v, newId)) && Calm(c, n, Deliver(i, v, newId))
    ensures Remaining(c, Delivered(c, n, i, v, newId)) < Remaining(c, n)
  {
    var p := n.flying[i];
    assert p in n.flying;
    TotalDrop(c, false, n.flying, i);
    DispatchBySource(c, n, p);
    if !(p.to == c.src && Holder(c) in n.observers) {
      ServerSendsFall(c, v, p);
      ServerDeliveryFalls(c, n, i, v, newId);
    }
  }

  lemma ServerDeliveryFalls(c: Quest, n: Net, i: nat, v: View, newId: nat)
    requires i < |n.flying| && Dispatch(n.observers, n.flying[i].to, n.flying[i].msg.obs) == ToServer
    requires newId != c.obs
    requires var p := n.flying[i];
             && Total(c, false, n.flying) == Total(c, false, Erased(n.flying, i)) + Weight(c, false, p)
             && Total(c, false, ServerSends(c.idOf, v, p.to, p.msg)) < Weight(c, false, p)
    ensures Remaining(c, Delivered(c, n, i, v, newId)) < Remaining(c, n)
  {
    var p := n.flying[i];
    TotalConcat(c, false, Erased(n.flying, i), ServerSends(c.idOf, v, p.to, p.msg));
  }

  ghost predicate CalmRun(c: Quest, n: Net, events: seq<Event>)
    requires Possible(c, n, events)
    decreases |events|
  {
    events == [] ||
    (CalmRun(c, n, events[..|events| - 1]) && Calm(c, After(c, n, events[..|events| - 1]), events[|events| - 1]))
  }

  /** Whether and whenever the observer leaves, and whatever the tables do: a run in which the source's server is
      handed messages in dead ends alone is bounded by what was in flight. */
  lemma {:induction false} CalmRunsEnd(c: Quest, n: Net, events: seq<Event>)
    requires GoodQuest(c) && Ongoing(c, n) && Possible(c, n, events) && CalmRun(c, n, events)
    ensures Ongoing(c, After(c, n, events))
    ensures |events| + Remaining(c, After(c, n, events)) <= Remaining(c, n)
    decreases |events|
  {
    if events != [] {
      var front, e := events[..|events| - 1], events[|events| - 1];
      CalmRunsEnd(c, n, front);
      StepKeepsOngoing(c, After(c, n, front), e);
      CalmStepFalls(c, After(c, n, front), e);
    }
  }

  lemma LaunchedWeighs(c: Quest, ps: seq<Packet>)
    requires |ps| <= 4
    ensures Total(c, false, ps) <= 48 * Pow5(|c.universe|) + 8
  {
    var w := 12 * Pow5(|c.universe|) + 2;
    forall p | p in ps ensures Weight(c, false, p) <= w {
      SubsetSize(c.universe - Members(p.msg.relays), c.universe);
      Pow5Monotone(Room(c, p.msg), |c.universe|);
    }
    TotalBound(c, false, ps, w);
    AtMostFourTimes(|ps|, w);
  }

  /** From a launch such a run has at most 48 * 5^|universe| + 9 steps. */
  lemma CalmFloodTerminates(c: Quest, n: Net, events: seq<Event>)
    requires GoodQuest(c) && Launched(c, n) && Possible(c, n, events) && CalmRun(c, n, events)
    ensures |events| <= 48 * Pow5(|c.universe|) + 9
  {
    LaunchedInv(c, n);
    CalmRunsEnd(c, n, events);
    LaunchedWeighs(c, n.flying);
  }

  // ---------------------------------------------------------------- what never ends

  /** Every message delivered to the source finds this table there. */
  ghost predicate SourceSees(c: Quest, n: Net, v: View, events: seq<Event>)
    requires Possible(c, n, events)
    decreases |events|
  {
    events == [] ||
    var front, e := events[..|events| - 1], events[|events| - 1];
    && SourceSees(c, n, v, front)
    && (e.Deliver? && After(c, n, front).flying[e.i].to == c.src ==> e.view == v)
  }

  lemma OneMore(c: Quest, n: Net, v: View, events: seq<Event>, e: Event)
    requires Possible(c, n, events) && SourceSees(c, n, v, events) && Enabled(c, After(c, n, events), e)
    requires e.Deliver? && After(c, n, events).flying[e.i].to == c.src ==> e.view == v
    ensures Possible(c, n, events + [e]) && After(c, n, events + [e]) == Next(c, After(c, n, events), e)
    ensures SourceSees(c, n, v, events + [e])
  {
    assert (events + [e])[..|events + [e]| - 1] == events;
  }

  /** Something is in flight, and the source's observer is gone. */
  ghost predicate Orphaned(c: Quest, n: Net) {
    Ongoing(c, n) && Holder(c) !in n.observers && n.flying != []
  }

  lemma {:induction false} UnusedId(observers: set<Observer>, other: nat) returns (id: nat)
    ensures id > other && forall o :: o in observers ==> o.id < id
  {
    if observers == {} {
      id := other + 1;
    } else {
      var o :| o in observers;
      id := UnusedId(observers - {o}, other);
      if id <= o.id {
        id := o.id + 1;
      }
    }
  }

  /** Some good table holds the destination. */
  lemma KnowingView(c: Quest) returns (w: View)
    requires GoodQuest(c)
    ensures GoodView(c, w) && Knows(c.idOf, w, c.dest)
  {
    var id := c.idOf(c.dest);
    var n := KNode(c.dest, id);
    w := View(id, EMPTY_TABLE[SlotOf(id, id) := [n]]);
    forall ep | HasEndpoint(w.table, ep) ensures ep in c.universe {
      var s, k :| 0 <= s < K_BUCKET_COUNT && k in w.table[s] && k.ep == ep;
      assert k == n;
    }
    ContainsIff([n], id);
    assert n in [n];
  }

  /** Delivering the last message in flight puts what the receiving server sends in its place. */
  lemma LastDelivered(c: Quest, n: Net, v: View, id: nat)
    requires GoodQuest(c) && Orphaned(c, n) && GoodView(c, v)
    requires id != c.obs && forall o :: o in n.observers ==> o.id != id
    ensures var e, p := Deliver(|n.flying| - 1, v, id), n.flying[|n.flying| - 1];
            && Enabled(c, n, e)
            && Next(c, n, e).flying == n.flying[..|n.flying| - 1] + ServerSends(c.idOf, v, p.to, p.msg)
            && Ongoing(c, Next(c, n, e)) && Holder(c) !in Next(c, n, e).observers
  {
    var e, p := Deliver(|n.flying| - 1, v, id), n.flying[|n.flying| - 1];
    assert p in n.flying;
    DispatchBySource(c, n, p);
    StepKeepsOngoing(c, n, e);
    assert Erased(n.flying, |n.flying| - 1) == n.flying[..|n.flying| - 1];
  }

  /** Outside dead ends an orphaned request can always make one more step and stay so: the destination answers, a
      node that knows it passes on, and the source does one or the other. */
  lemma OrphanGoesOn(c: Quest, n: Net, v: View) returns (e: Event)
    requires GoodQuest(c) && Orphaned(c, n) && GoodView(c, v) && !DeadEnd(c, v)
    ensures e.Deliver? && Enabled(c, n, e) && (n.flying[e.i].to == c.src ==> e.view == v)
    ensures Orphaned(c, Next(c, n, e))
  {
    var p := n.flying[|n.flying| - 1];
    assert p in n.flying;
    var id := UnusedId(n.observers, c.obs);
    var w := v;
    if p.to != c.src {
      w := KnowingView(c);
    }
    e := Deliver(|n.flying| - 1, w, id);
    LastDelivered(c, n, w, id);
    assert |ServerSends(c.idOf, w, p.to, p.msg)| == 1;
  }

  /** From any state with something in flight, unless the source is in a dead end, there are runs of every length that
      lose nothing: the observer leaves, if it has not, and the request goes round. */
  lemma {:induction false} EndlessWithoutObserver(c: Quest, n: Net, v: View, steps: nat) returns (events: seq<Event>)
    requires GoodQuest(c) && Ongoing(c, n) && n.flying != [] && GoodView(c, v) && !DeadEnd(c, v)
    ensures |events| >= steps && Possible(c, n, events) && SourceSees(c, n, v, events) && Lossless(events)
    ensures Orphaned(c, After(c, n, events))
    decreases steps
  {
    events := [];
    if steps > 0 {
      events := EndlessWithoutObserver(c, n, v, steps - 1);
      var e := OrphanGoesOn(c, After(c, n, events), v);
      OneMore(c, n, v, events, e);
      events := events + [e];
    } else if Holder(c) in n.observers {
      OneMore(c, n, v, [], Expire);
      assert [] + [Expire] == [Expire];
      events := [Expire];
    }
  }

  // ---------------------------------------------------------------- the exact condition

  ghost predicate BoundedBy(c: Quest, n: Net, v: View, bound: nat) {
    forall events :: Possible(c, n, events) && SourceSees(c, n, v, events) ==> |events| <= bound
  }

  lemma {:induction false} QuietOrDeadEnd(c: Quest, n: Net, v: View, events: seq<Event>)
    requires GoodQuest(c) && Possible(c, n, events) && SourceSees(c, n, v, events)
    requires n.flying == [] || DeadEnd(c, v)
    ensures CalmRun(c, n, events)
    ensures n.flying == [] ==> After(c, n, events).flying == []
    decreases |events|
  {
    if events != [] {
      QuietOrDeadEnd(c, n, v, events[..|events| - 1]);
    }
  }

  /** From every state of a request, launched or under way, with its observer or without: its runs, in which nodes
      come and go in all tables but the source's and the observer may leave at any time, are bounded if and only if
      nothing is in flight or the source is neither the destination nor holds it in its table. */
  lemma FloodEndsExactly(c: Quest, n: Net, v: View)
    requires GoodQuest(c) && Ongoing(c, n) && GoodView(c, v)
    ensures (exists bound :: BoundedBy(c, n, v, bound)) <==> n.flying == [] || DeadEnd(c, v)
  {
    if n.flying == [] || DeadEnd(c, v) {
      forall events | Possible(c, n, events) && SourceSees(c, n, v, events)
        ensures |events| <= Remaining(c, n)
      {
        QuietOrDeadEnd(c, n, v, events);
        CalmRunsEnd(c, n, events);
      }
      assert BoundedBy(c, n, v, Remaining(c, n));
    } else {
      forall bound: nat ensures !BoundedBy(c, n, v, bound) {
        var events := EndlessWithoutObserver(c, n, v, bound + 1);
      }
    }
  }
}
