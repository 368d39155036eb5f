/** The signaling flood as a protocol: packets of one request in flight between nodes whose tables may
    change from step to step, delivered in any order or lost. */
module Flood {
  import opened Utils
  import opened Nodes
  import opened Controllers
  import opened Signaling

  /** One request: who asks for whom, under which observer id, among which endpoints. */
  datatype Quest = Quest(idOf: IdOf, src: Endpoint, dest: Endpoint, obs: nat, universe: set<Endpoint>)

  ghost predicate GoodQuest(c: Quest) {
    c.src in c.universe && c.dest in c.universe
  }

  /** Any table made from endpoints of the universe: it need not be well placed, nor the same twice. */
  ghost predicate GoodView(c: Quest, v: View) {
    && WellMade(c.idOf, v.table)
    && forall ep :: HasEndpoint(v.table, ep) ==> ep in c.universe
  }

  datatype Net = Net(flying: seq<Packet>, observers: set<Observer>, request: RequestState, reached: bool)

  datatype Event =
    | Deliver(i: nat, view: View, newId: nat)
    | Lose(i: nat)
    | TraversalDone
    | Expire

  /** The source's request observer. */
  function Holder(c: Quest): Observer {
    Observer(c.src, RequestRole, c.obs)
  }

  /** The source, whose table was `v`, has launched the request; whatever other observers exist carry other ids. */
  ghost predicate LaunchedFrom(c: Quest, v: View, n: Net) {
    && GoodView(c, v) && n.flying == LaunchSends(c.idOf, v, c.src, c.dest, c.obs)
    && Holder(c) in n.observers
    && (forall o :: o in n.observers && o.id == c.obs ==> o == Holder(c))
    && n.request == RequestState(false, 0, 0) && !n.reached
  }

  ghost predicate Launched(c: Quest, n: Net) {
    exists v :: LaunchedFrom(c, v, n)
  }

  ghost predicate Enabled(c: Quest, n: Net, e: Event) {
    match e
    case Deliver(i, v, newId) =>
      && i < |n.flying| && GoodView(c, v)
      && newId != c.obs && forall o :: o in n.observers ==> o.id != newId
    case Lose(i) => i < |n.flying|
    case TraversalDone => n.request.pending > 0
    case Expire => Holder(c) in n.observers
  }

  /** A packet reaches the node it is addressed to, which dispatches it by observer id. */
  function Delivered(c: Quest, n: Net, i: nat, v: View, newId: nat): Net
    requires i < |n.flying|
  {
    var p := n.flying[i];
    var rest := Erased(n.flying, i);
    match Dispatch(n.observers, p.to, p.msg.obs)
    case Absorbed => n.(flying := rest)
    case ToRequest =>
      n.(flying := rest, request := SourceHandles(n.request, p.to, p.msg), reached := n.reached || p.to == p.msg.dest)
    case ToServer =>
      n.(flying := rest + ServerSends(c.idOf, v, p.to, p.msg),
         observers := n.observers + ServerStores(c.idOf, v, p.to, p.msg, newId),
         reached := n.reached || p.to == p.msg.dest)
  }

  function Next(c: Quest, n: Net, e: Event): Net
    requires Enabled(c, n, e)
  {
    match e
    case Deliver(i, v, newId) => Delivered(c, n, i, v, newId)
    case Lose(i) => n.(flying := Erased(n.flying, i))
    case TraversalDone => n.(request := n.request.(done := true, pending := n.request.pending - 1))
    case Expire => n.(observers := n.observers - {Holder(c)})
  }

  ghost predicate Possible(c: Quest, n: Net, events: seq<Event>)
    decreases |events|, 0
  {
    events == [] ||
    (Possible(c, n, events[..|events| - 1]) && Enabled(c, After(c, n, events[..|events| - 1]), events[|events| - 1]))
  }

  ghost function After(c: Quest, n: Net, events: seq<Event>): Net
    requires Possible(c, n, events)
    decreases |events|, 1
  {
    if events == [] then n else Next(c, After(c, n, events[..|events| - 1]), events[|events| - 1])
  }

  // ---------------------------------------------------------------- what every packet satisfies

  /** The TTL is still what it was at the source, a response goes to the source, and a relayed copy on its
      way to anyone but the destination is addressed to someone already on its relay list. */
  ghost predicate GoodPacket(c: Quest, p: Packet) {
    && p.msg.obs == c.obs && p.msg.src == c.src && p.msg.dest == c.dest
    && p.msg.ttl == SIGNALING_TTL
    && p.to in c.universe
    && (p.msg.sub == Response ==> p.to == c.src)
    && (p.msg.sub == Relay && p.to != c.dest ==> p.to in p.msg.relays)
  }

  lemma ForwardFacts(c: Quest, v: View, me: Endpoint, m: Signal)
    requires GoodView(c, v) && m.dest == c.dest
    ensures var targets := ForwardTo(c.idOf, v, me, m);
            && |targets| <= FORWARD_COUNT + 1
            && forall ep :: ep in targets ==> ep in c.universe && ep !in m.relays && ep != me
  {
    CollectEndpointsSound(c.idOf, v.selfId, v.table, m.dest, FORWARD_COUNT, m.relays + [me]);
  }

  lemma ServerSendsGood(c: Quest, v: View, p: Packet)
    requires GoodQuest(c) && GoodView(c, v) && GoodPacket(c, p)
    ensures forall q :: q in ServerSends(c.idOf, v, p.to, p.msg) ==> GoodPacket(c, q)
    ensures forall q :: q in ServerSends(c.idOf, v, p.to, p.msg) && q.msg.sub == Response ==> p.to == c.dest
    ensures p.to == c.dest ==> ServerSends(c.idOf, v, p.to, p.msg) == [Packet(c.src, p.msg.(sub := Response))]
  {
    ForwardFacts(c, v, p.to, p.msg);
    var targets := ForwardTo(c.idOf, v, p.to, p.msg);
    forall q | q in Addressed(targets, Flooded(c.idOf, v, p.to, p.msg)) ensures GoodPacket(c, q) {
      var k :| 0 <= k < |targets| && q == Packet(targets[k], Flooded(c.idOf, v, p.to, p.msg));
      assert targets[k] in targets;
    }
  }

  ghost predicate NetInv(c: Quest, n: Net) {
    && (forall o :: o in n.observers && o.id == c.obs ==> o == Holder(c))
    && (forall p :: p in n.flying ==> GoodPacket(c, p))
    && (forall p :: p in n.flying && p.msg.sub == Response ==> n.reached)
    && (n.request.payloads > 0 ==> n.reached)
    && (n.request.done || n.request.pending > 0 ==> n.request.payloads > 0)
  }

  lemma LaunchedInv(c: Quest, n: Net)
    requires GoodQuest(c) && Launched(c, n)
    ensures NetInv(c, n)
    ensures |n.flying| <= FORWARD_COUNT + 1
  {
    var v :| LaunchedFrom(c, v, n);
    CollectEndpointsSound(c.idOf, v.selfId, v.table, c.dest, FORWARD_COUNT, []);
    var targets := CollectEndpoints(c.idOf, v.selfId, v.table, c.dest, FORWARD_COUNT, []);
    forall p | p in n.flying ensures GoodPacket(c, p) && p.msg.sub == Request {
      var k :| 0 <= k < |targets| && p == Packet(targets[k], FirstSignal(c.src, c.dest, c.obs));
      assert targets[k] in targets;
    }
  }

  /** The request's id is held by the source alone, so it absorbs its own request, while its observer is stored, and
      nobody else does. */
  lemma DispatchBySource(c: Quest, n: Net, p: Packet)
    requires (forall o :: o in n.observers && o.id == c.obs ==> o == Holder(c)) && p.msg.obs == c.obs
    ensures Dispatch(n.observers, p.to, p.msg.obs) ==
            if p.to == c.src && Holder(c) in n.observers then ToRequest else ToServer
  {
  }

  lemma DropMembers<T>(s: seq<T>, i: nat)
    requires i < |s|
    ensures forall x :: x in Erased(s, i) ==> x in s
  {
  }

  lemma DeliverKeepsInv(c: Quest, n: Net, i: nat, v: View, newId: nat)
    requires GoodQuest(c) && NetInv(c, n) && Enabled(c, n, Deliver(i, v, newId))
    ensures NetInv(c, Delivered(c, n, i, v, newId))
  {
    var p := n.flying[i];
    assert p in n.flying;
    DispatchBySource(c, n, p);
    DropMembers(n.flying, i);
    ServerSendsGood(c, v, p);
  }

  lemma StepKeepsInv(c: Quest, n: Net, e: Event)
    requires GoodQuest(c) && NetInv(c, n) && Enabled(c, n, e)
    ensures NetInv(c, Next(c, n, e))
  {
    match e
    case Deliver(i, v, newId) => DeliverKeepsInv(c, n, i, v, newId);
    case Lose(i) => DropMembers(n.flying, i);
    case TraversalDone =>
    case Expire =>
  }

  /** Over every run: a response in flight or a payload sent means the destination handled the request. */
  lemma {:induction false} RunKeepsInv(c: Quest, n: Net, events: seq<Event>)
    requires GoodQuest(c) && Launched(c, n) && Possible(c, n, events)
    ensures NetInv(c, After(c, n, events))
    decreases |events|
  {
    if events == [] {
      LaunchedInv(c, n);
    } else {
      RunKeepsInv(c, n, events[..|events| - 1]);
      StepKeepsInv(c, After(c, n, events[..|events| - 1]), events[|events| - 1]);
    }
  }

  /** Some step delivered a copy to the destination: its server handled it or, for a request to oneself, its
      observer did. */
  ghost predicate DestinationHandled(c: Quest, n: Net, events: seq<Event>)
    requires Possible(c, n, events)
    decreases |events|
  {
    events != [] &&
    var front, last := events[..|events| - 1], events[|events| - 1];
    || DestinationHandled(c, n, front)
    || (last.Deliver? && After(c, n, front).flying[last.i].to == c.dest)
  }

  lemma StepReaches(c: Quest, n: Net, e: Event)
    requires NetInv(c, n) && Enabled(c, n, e)
    ensures Next(c, n, e).reached <==> n.reached || (e.Deliver? && n.flying[e.i].to == c.dest)
  {
    if e.Deliver? {
      assert n.flying[e.i] in n.flying;
      DispatchBySource(c, n, n.flying[e.i]);
    }
  }

  lemma {:induction false} ReachedIffHandled(c: Quest, n: Net, events: seq<Event>)
    requires GoodQuest(c) && Launched(c, n) && Possible(c, n, events)
    ensures After(c, n, events).reached <==> DestinationHandled(c, n, events)
    decreases |events|
  {
    if events != [] {
      var front := events[..|events| - 1];
      ReachedIffHandled(c, n, front);
      RunKeepsInv(c, n, front);
      StepReaches(c, After(c, n, front), events[|events| - 1]);
    }
  }

  /** No response without the destination: over every run, a response in flight, or a payload sent, means a copy
      of the request was delivered to the destination before. */
  lemma ResponseNeedsDestination(c: Quest, n: Net, events: seq<Event>)
    requires GoodQuest(c) && Launched(c, n) && Possible(c, n, events)
    requires || After(c, n, events).request.payloads > 0
             || exists p :: p in After(c, n, events).flying && p.msg.sub == Response
    ensures DestinationHandled(c, n, events)
  {
    RunKeepsInv(c, n, events);
    ReachedIffHandled(c, n, events);
  }

  lemma DoneStays(c: Quest, n: Net, e: Event)
    requires Enabled(c, n, e) && n.request.done
    ensures Next(c, n, e).request.done && Next(c, n, e).request.payloads == n.request.payloads
  {
  }

  /** Once a payload send has completed, nothing that happens later makes the source send its payload again. */
  lemma {:induction false} DoneStopsPaying(c: Quest, n: Net, events: seq<Event>, k: nat)
    requires Possible(c, n, events) && k < |events| && events[k] == TraversalDone
    requires Possible(c, n, events[..k + 1])
    ensures After(c, n, events).request.done
    ensures After(c, n, events).request.payloads == After(c, n, events[..k + 1]).request.payloads
    decreases |events|
  {
    if k + 1 == |events| {
      assert events[..k + 1] == events;
    } else {
      var front := events[..|events| - 1];
      assert front[..k + 1] == events[..k + 1];
      DoneStopsPaying(c, n, front, k);
      DoneStays(c, After(c, n, front), events[|events| - 1]);
    }
  }

  /** The steps at which a payload send completed. */
  ghost function Completions(events: seq<Event>): set<nat> {
    set k | 0 <= k < |events| && events[k] == TraversalDone
  }

  lemma OneMoreCompletion(front: seq<Event>, last: Event)
    ensures |Completions(front + [last])| == |Completions(front)| + if last == TraversalDone then 1 else 0
    ensures Completions(front + [last]) != {} <==> Completions(front) != {} || last == TraversalDone
  {
    assert Completions(front + [last]) == Completions(front) + if last == TraversalDone then {|front|} else {};
  }

  ghost predicate PaymentsAre(r: RequestState, completed: set<nat>) {
    r.payloads == r.pending + |completed| && (r.done <==> completed != {})
  }

  lemma StepPays(c: Quest, n: Net, e: Event, before: set<nat>, after: set<nat>)
    requires Enabled(c, n, e) && PaymentsAre(n.request, before)
    requires |after| == |before| + (if e == TraversalDone then 1 else 0)
    requires after != {} <==> before != {} || e == TraversalDone
    ensures PaymentsAre(Next(c, n, e).request, after)
  {
  }

  lemma {:induction false} PaymentsKept(c: Quest, n: Net, events: seq<Event>)
    requires n.request == RequestState(false, 0, 0) && Possible(c, n, events)
    ensures PaymentsAre(After(c, n, events).request, Completions(events))
    decreases |events|
  {
    if events != [] {
      var front, last := events[..|events| - 1], events[|events| - 1];
      PaymentsKept(c, n, front);
      OneMoreCompletion(front, last);
      assert events == front + [last];
      StepPays(c, After(c, n, front), last, Completions(front), Completions(events));
    }
  }

  /** Over every run: each payload sent has completed or still will, and the traversal is done once one has. */
  lemma PayloadsAccounted(c: Quest, n: Net, events: seq<Event>)
    requires Launched(c, n) && Possible(c, n, events)
    ensures var r := After(c, n, events).request;
            r.payloads == r.pending + |Completions(events)| && (r.done <==> Completions(events) != {})
  {
    PaymentsKept(c, n, events);
  }

  /** In every run a step sends one payload or none: one exactly if it delivers a response, or a copy of a request to
      oneself, to the source while its observer is stored and no payload send has completed. */
  lemma SourcePaysExactly(c: Quest, n: Net, events: seq<Event>, e: Event)
    requires GoodQuest(c) && Launched(c, n) && Possible(c, n, events) && Enabled(c, After(c, n, events), e)
    ensures var now := After(c, n, events);
            Next(c, now, e).request.payloads == now.request.payloads +
              if && e.Deliver? && now.flying[e.i].to == c.src && Holder(c) in now.observers
                 && TraversalDone !in events && (now.flying[e.i].msg.sub == Response || c.src == c.dest)
              then 1 else 0
  {
    RunKeepsInv(c, n, events);
    PayloadsAccounted(c, n, events);
    NoneCompleted(events);
    if e.Deliver? {
      assert After(c, n, events).flying[e.i] in After(c, n, events).flying;
      DispatchBySource(c, After(c, n, events), After(c, n, events).flying[e.i]);
    }
  }

  lemma NoneCompleted(events: seq<Event>)
    ensures Completions(events) == {} <==> TraversalDone !in events
  {
    if TraversalDone in events {
      var k :| 0 <= k < |events| && events[k] == TraversalDone;
      assert k in Completions(events);
    }
  }

  // ---------------------------------------------------------------- termination

  function Pow5(n: nat): (p: nat)
    ensures p >= 1
  {
    if n == 0 then 1 else 5 * Pow5(n - 1)
  }

  lemma {:induction false} Pow5Monotone(a: nat, b: nat)
    requires a <= b
    ensures Pow5(a) <= Pow5(b)
    decreases b
  {
    if a < b {
      Pow5Monotone(a, b - 1);
    }
  }

  ghost function Members(s: seq<Endpoint>): set<Endpoint> {
    set x | x in s
  }

  /** How many more endpoints the flood of this packet could still reach. */
  ghost function Room(c: Quest, m: Signal): nat {
    |c.universe - Members(m.relays)|
  }

  /** What a packet can still cause: with the source's observer stored, a response or a copy to the destination leads
      to a bounded end; without it, only what is not yet on the relay list bounds them. */
  ghost function Weight(c: Quest, kept: bool, p: Packet): nat {
    if kept then
      if p.msg.sub == Response then 2 else if p.to == c.dest then 3 else 4 * Pow5(Room(c, p.msg))
    else
      12 * Pow5(Room(c, p.msg)) + if p.to == c.src then 0 else if p.to == c.dest then 1 else 2
  }

  ghost function Total(c: Quest, kept: bool, ps: seq<Packet>): nat {
    if ps == [] then 0 else Weight(c, kept, ps[0]) + Total(c, kept, ps[1..])
  }

  ghost function Measure(c: Quest, n: Net): nat {
    Total(c, true, n.flying) + n.request.pending
  }

  lemma {:induction false} TotalConcat(c: Quest, kept: bool, a: seq<Packet>, b: seq<Packet>)
    ensures Total(c, kept, a + b) == Total(c, kept, a) + Total(c, kept, b)
  {
    if a == [] {
      assert a + b == b;
    } else {
      TotalConcat(c, kept, a[1..], b);
      assert (a + b)[1..] == a[1..] + b;
    }
  }

  lemma TotalDrop(c: Quest, kept: bool, ps: seq<Packet>, i: nat)
    requires i < |ps|
    ensures Total(c, kept, ps) == Total(c, kept, Erased(ps, i)) + Weight(c, kept, ps[i])
  {
    assert ps == ps[..i] + ([ps[i]] + ps[i + 1..]);
    TotalConcat(c, kept, ps[..i], [ps[i]] + ps[i + 1..]);
    TotalConcat(c, kept, [ps[i]], ps[i + 1..]);
    TotalConcat(c, kept, ps[..i], ps[i + 1..]);
  }

  lemma {:induction false} TotalBound(c: Quest, kept: bool, ps: seq<Packet>, w: nat)
    requires forall p :: p in ps ==> Weight(c, kept, p) <= w
    ensures Total(c, kept, ps) <= |ps| * w
  {
    if ps != [] {
      TotalBound(c, kept, ps[1..], w);
      OneMoreTime(|ps| - 1, w);
    }
  }

  /** Each round of forwarding puts at least one more endpoint of the universe on the relay list. */
  lemma FloodingShrinksRoom(c: Quest, v: View, me: Endpoint, m: Signal)
    requires GoodView(c, v) && m.dest == c.dest
    requires ForwardTo(c.idOf, v, me, m) != []
    ensures Room(c, Flooded(c.idOf, v, me, m)) < Room(c, m)
  {
    ForwardFacts(c, v, me, m);
    var ep := ForwardTo(c.idOf, v, me, m)[0];
    assert ep in ForwardTo(c.idOf, v, me, m);
    var before, after := c.universe - Members(m.relays), c.universe - Members(Flooded(c.idOf, v, me, m).relays);
    assert ep in before && ep !in after;
    assert after <= before - {ep};
    SubsetSize(after, before - {ep});
  }

  /** The heaviest a copy with this much room can be. */
  function Heaviest(kept: bool, room: nat): nat {
    if kept then 4 * Pow5(room) else 12 * Pow5(room) + 2
  }

  lemma CopiesWeigh(c: Quest, kept: bool, to: seq<Endpoint>, m: Signal, w: nat)
    requires Heaviest(kept, Room(c, m)) <= w
    ensures Total(c, kept, Addressed(to, m)) <= |to| * w
  {
    var copies := Addressed(to, m);
    forall p | p in copies ensures Weight(c, kept, p) <= w {
      assert p.msg == m;
    }
    TotalBound(c, kept, copies, w);
  }

  /** Four copies with less room weigh less than one message with more. */
  lemma CopiesWeighLess(c: Quest, kept: bool, to: seq<Endpoint>, m: Signal, room: nat)
    requires |to| <= 4 && (to != [] ==> Room(c, m) < room)
    ensures Total(c, kept, Addressed(to, m)) < if kept then 4 * Pow5(room) else 12 * Pow5(room)
  {
    if to != [] {
      Pow5Monotone(Room(c, m), room - 1);
      var w := Heaviest(kept, room - 1);
      CopiesWeigh(c, kept, to, m, w);
      AtMostFourTimes(|to|, w);
    }
  }

  lemma FloodWeighsLess(c: Quest, kept: bool, v: View, me: Endpoint, m: Signal)
    requires GoodView(c, v) && m.dest == c.dest
    ensures Total(c, kept, Addressed(ForwardTo(c.idOf, v, me, m), Flooded(c.idOf, v, me, m))) <
            if kept then 4 * Pow5(Room(c, m)) else 12 * Pow5(Room(c, m))
  {
    ForwardFacts(c, v, me, m);
    if ForwardTo(c.idOf, v, me, m) != [] {
      FloodingShrinksRoom(c, v, me, m);
    }
    CopiesWeighLess(c, kept, ForwardTo(c.idOf, v, me, m), Flooded(c.idOf, v, me, m), Room(c, m));
  }

  lemma OneMoreTime(k: nat, w: nat)
    ensures (k + 1) * w == k * w + w
  {
  }

  lemma AtMostFourTimes(k: nat, w: nat)
    requires k <= 4
    ensures k * w <= 4 * w
  {
  }

  /** What a node sends weighs less than what it received, unless that is a response. */
  lemma ServerSendsWeighLess(c: Quest, v: View, p: Packet)
    requires GoodQuest(c) && GoodView(c, v) && GoodPacket(c, p) && p.msg.sub != Response
    ensures Total(c, true, ServerSends(c.idOf, v, p.to, p.msg)) < Weight(c, true, p)
  {
    if p.to == c.dest {
      ServerSendsGood(c, v, p);
      TotalOne(c, true, Packet(c.src, p.msg.(sub := Response)));
    } else if Knows(c.idOf, v, c.dest) {
      TotalOne(c, true, Packet(c.dest, Relayed(p.to, p.msg)));
    } else {
      FloodWeighsLess(c, true, v, p.to, p.msg);
    }
  }

  lemma TotalOne(c: Quest, kept: bool, p: Packet)
    ensures Total(c, kept, [p]) == Weight(c, kept, p)
  {
    assert [p][1..] == [];
  }

  /** Every step lowers the measure: deliveries, losses and completions alike, while the source's observer is stored. */
  lemma StepDecreases(c: Quest, n: Net, e: Event)
    requires GoodQuest(c) && NetInv(c, n) && Enabled(c, n, e) && Holder(c) in n.observers && !e.Expire?
    ensures Measure(c, Next(c, n, e)) < Measure(c, n)
  {
    match e
    case Deliver(i, v, newId) =>
      var p := n.flying[i];
      assert p in n.flying;
      TotalDrop(c, true, n.flying, i);
      DispatchBySource(c, n, p);
      if p.to != c.src {
        ServerSendsWeighLess(c, v, p);
        TotalConcat(c, true, Erased(n.flying, i), ServerSends(c.idOf, v, p.to, p.msg));
      }
    case Lose(i) => TotalDrop(c, true, n.flying, i);
    case TraversalDone =>
    case Expire =>
  }

  /** The source's observer stays in storage. */
  ghost predicate Kept(events: seq<Event>) {
    forall e :: e in events ==> !e.Expire?
  }

  lemma {:induction false} HolderStays(c: Quest, n: Net, events: seq<Event>)
    requires Possible(c, n, events) && Kept(events) && Holder(c) in n.observers
    ensures Holder(c) in After(c, n, events).observers
    decreases |events|
  {
    if events != [] {
      assert events[|events| - 1] in events;
      assert forall e :: e in events[..|events| - 1] ==> e in events;
      HolderStays(c, n, events[..|events| - 1]);
    }
  }

  /** The flood ends although the TTL is never lowered: while the source's observer is stored no run, whatever the
      tables do, has more than 16 * 5^|universe| steps. */
  lemma FloodTerminates(c: Quest, n: Net, events: seq<Event>)
    requires GoodQuest(c) && Launched(c, n) && Possible(c, n, events) && Kept(events)
    ensures |events| <= 16 * Pow5(|c.universe|)
  {
    StepsBounded(c, n, events);
    LaunchedInv(c, n);
    var w := 4 * Pow5(|c.universe|);
    forall p | p in n.flying ensures Weight(c, true, p) <= w {
      SubsetSize(c.universe - Members(p.msg.relays), c.universe);
      Pow5Monotone(Room(c, p.msg), |c.universe|);
    }
    TotalBound(c, true, n.flying, w);
    AtMostFourTimes(|n.flying|, w);
  }

  lemma {:induction false} StepsBounded(c: Quest, n: Net, events: seq<Event>)
    requires GoodQuest(c) && Launched(c, n) && Possible(c, n, events) && Kept(events)
    ensures |events| + Measure(c, After(c, n, events)) <= Measure(c, n)
    decreases |events|
  {
    if events != [] {
      var front := events[..|events| - 1];
      assert events[|events| - 1] in events && forall e :: e in front ==> e in events;
      StepsBounded(c, n, front);
      RunKeepsInv(c, n, front);
      HolderStays(c, n, front);
      StepDecreases(c, After(c, n, front), events[|events| - 1]);
    }
  }

  // ---------------------------------------------------------------- forwarding chains

  /** `q` is a copy of `p` sent on by the node that received `p`, and neither is for the destination. */
  ghost predicate Hop(c: Quest, v: View, p: Packet, q: Packet) {
    && GoodView(c, v) && p.msg.dest == c.dest
    && p.to != c.dest && q.to != c.dest
    && q in ServerSends(c.idOf, v, p.to, p.msg)
  }

  /** Each packet was flooded by the node that received the one before. */
  ghost predicate Chain(c: Quest, ps: seq<Packet>, views: seq<View>) {
    && |ps| == |views| + 1
    && ps[0].to in c.universe
    && forall k :: 0 <= k < |views| ==> Hop(c, views[k], ps[k], ps[k + 1])
  }

  lemma HopFacts(c: Quest, v: View, p: Packet, q: Packet)
    requires Hop(c, v, p, q)
    ensures q.to in c.universe && q.to !in p.msg.relays && q.to != p.to
    ensures q.to in q.msg.relays && p.to in q.msg.relays
    ensures forall ep :: ep in p.msg.relays ==> ep in q.msg.relays
  {
    ForwardFacts(c, v, p.to, p.msg);
    var targets := ForwardTo(c.idOf, v, p.to, p.msg);
    var k :| 0 <= k < |targets| && q == Packet(targets[k], Flooded(c.idOf, v, p.to, p.msg));
    assert targets[k] in targets;
  }

  /** The nodes a chain has passed through are on the relay list its last packet carries. */
  lemma {:induction false} ChainRecorded(c: Quest, ps: seq<Packet>, views: seq<View>, i: nat, j: nat)
    requires Chain(c, ps, views) && i < j < |ps|
    ensures ps[i].to in ps[j].msg.relays
    decreases j
  {
    assert Hop(c, views[j - 1], ps[j - 1], ps[j]);
    HopFacts(c, views[j - 1], ps[j - 1], ps[j]);
    if i < j - 1 {
      ChainRecorded(c, ps, views, i, j - 1);
    }
  }

  /** No node is flooded to twice along a chain, and each was recorded in the copy it received. */
  lemma ChainsAreSimple(c: Quest, ps: seq<Packet>, views: seq<View>, i: nat, j: nat)
    requires Chain(c, ps, views) && i < j < |ps|
    ensures ps[i].to != ps[j].to
    ensures ps[j].to in ps[j].msg.relays
  {
    assert Hop(c, views[j - 1], ps[j - 1], ps[j]);
    HopFacts(c, views[j - 1], ps[j - 1], ps[j]);
    if i < j - 1 {
      ChainRecorded(c, ps, views, i, j - 1);
    }
  }

  function Recipients(ps: seq<Packet>): (tos: seq<Endpoint>)
    ensures |tos| == |ps|
    ensures forall k :: 0 <= k < |ps| ==> tos[k] == ps[k].to
  {
    seq(|ps|, k requires 0 <= k < |ps| => ps[k].to)
  }

  /** So a chain is no longer than there are endpoints. */
  lemma ChainsAreShort(c: Quest, ps: seq<Packet>, views: seq<View>)
    requires Chain(c, ps, views)
    ensures |ps| <= |c.universe|
  {
    var tos := Recipients(ps);
    forall i, j | 0 <= i < j < |tos| ensures tos[i] != tos[j] {
      ChainsAreSimple(c, ps, views, i, j);
    }
    forall ep | ep in Members(tos) ensures ep in c.universe {
      var k :| 0 <= k < |tos| && tos[k] == ep;
      if k > 0 {
        assert Hop(c, views[k - 1], ps[k - 1], ps[k]);
        HopFacts(c, views[k - 1], ps[k - 1], ps[k]);
      }
    }
    DistinctCount(tos);
    SubsetSize(Members(tos), c.universe);
  }

  lemma {:induction false} DistinctCount(s: seq<Endpoint>)
    requires NoRepeats(s)
    ensures |Members(s)| == |s|
  {
    if s != [] {
      DistinctCount(s[1..]);
      assert Members(s) == {s[0]} + Members(s[1..]);
    }
  }

  // ---------------------------------------------------------------- delivery

  /** A copy is on its way to the destination or has been there and, while the source's observer is stored,
      something on its way will make the source send its payload or has done so. */
  ghost predicate UnderWay(c: Quest, n: Net) {
    && (n.reached || exists p :: p in n.flying && p.to == c.dest)
    && (Holder(c) in n.observers ==> n.request.payloads > 0 || exists p :: p in n.flying && Decisive(c, p))
  }

  ghost predicate Decisive(c: Quest, p: Packet) {
    p.msg.sub == Response || p.to == c.dest
  }

  lemma KeepFlying(ps: seq<Packet>, i: nat, p: Packet, more: seq<Packet>)
    requires i < |ps| && p in ps && p != ps[i]
    ensures p in Erased(ps, i) + more
  {
    var k :| 0 <= k < |ps| && ps[k] == p;
    assert ps == ps[..i] + [ps[i]] + ps[i + 1..];
  }

  /** Delivering a decisive packet, or any packet to a node that knows the destination, leaves the request under way. */
  lemma DeliveryStartsIt(c: Quest, n: Net, i: nat, v: View, newId: nat)
    requires GoodQuest(c) && NetInv(c, n) && Enabled(c, n, Deliver(i, v, newId))
    requires Decisive(c, n.flying[i]) || (n.flying[i].to != c.src && Knows(c.idOf, v, c.dest))
    ensures UnderWay(c, Delivered(c, n, i, v, newId))
  {
    var p := n.flying[i];
    assert p in n.flying;
    DispatchBySource(c, n, p);
    ServerSendsGood(c, v, p);
    var after := Delivered(c, n, i, v, newId);
    if p.to != c.src {
      var q := ServerSends(c.idOf, v, p.to, p.msg)[0];
      assert q in after.flying && Decisive(c, q);
    }
  }

  /** A packet in flight is delivered, or still there after another one is. */
  lemma StillFlying(c: Quest, n: Net, i: nat, v: View, newId: nat, p: Packet)
    requires Enabled(c, n, Deliver(i, v, newId)) && p in n.flying && p != n.flying[i]
    ensures p in Delivered(c, n, i, v, newId).flying
  {
    KeepFlying(n.flying, i, p, ServerSends(c.idOf, v, n.flying[i].to, n.flying[i].msg));
    KeepFlying(n.flying, i, p, []);
    assert Erased(n.flying, i) + [] == Erased(n.flying, i);
  }

  lemma DeliveryKeepsReaching(c: Quest, n: Net, i: nat, v: View, newId: nat)
    requires NetInv(c, n) && Enabled(c, n, Deliver(i, v, newId))
    requires n.reached || exists p :: p in n.flying && p.to == c.dest
    ensures var after := Delivered(c, n, i, v, newId);
            after.reached || exists p :: p in after.flying && p.to == c.dest
  {
    StepReaches(c, n, Deliver(i, v, newId));
    if !n.reached && n.flying[i].to != c.dest {
      var p :| p in n.flying && p.to == c.dest;
      StillFlying(c, n, i, v, newId, p);
    }
  }

  lemma StepKeepsUnderWay(c: Quest, n: Net, e: Event)
    requires GoodQuest(c) && NetInv(c, n) && Enabled(c, n, e) && !e.Lose?
    requires UnderWay(c, n)
    ensures UnderWay(c, Next(c, n, e))
  {
    if e.Deliver? {
      DeliveryKeepsReaching(c, n, e.i, e.view, e.newId);
      if Holder(c) in n.observers && n.request.payloads == 0 {
        var p :| p in n.flying && Decisive(c, p);
        if n.flying[e.i] == p {
          DeliveryStartsIt(c, n, e.i, e.view, e.newId);
        } else {
          StillFlying(c, n, e.i, e.view, e.newId, p);
        }
      }
    }
  }

  ghost predicate Lossless(events: seq<Event>) {
    forall e :: e in events ==> !e.Lose?
  }

  lemma {:induction false} StaysUnderWay(c: Quest, n: Net, events: seq<Event>, k: nat)
    requires GoodQuest(c) && Launched(c, n) && Possible(c, n, events) && Lossless(events)
    requires k <= |events| && Possible(c, n, events[..k]) && UnderWay(c, After(c, n, events[..k]))
    ensures UnderWay(c, After(c, n, events))
    decreases |events|
  {
    if k == |events| {
      assert events[..k] == events;
    } else {
      var front := events[..|events| - 1];
      assert front[..k] == events[..k];
      assert Lossless(front) by {
        forall e | e in front ensures !e.Lose? { assert e in events; }
      }
      StaysUnderWay(c, n, front, k);
      RunKeepsInv(c, n, front);
      assert events[|events| - 1] in events;
      StepKeepsUnderWay(c, After(c, n, front), events[|events| - 1]);
    }
  }

  lemma {:induction false} PossiblePrefix(c: Quest, n: Net, events: seq<Event>, k: nat)
    requires Possible(c, n, events) && k <= |events|
    ensures Possible(c, n, events[..k])
    ensures k < |events| ==> Enabled(c, After(c, n, events[..k]), events[k])
    ensures k < |events| ==>
              && Possible(c, n, events[..k + 1])
              && After(c, n, events[..k + 1]) == Next(c, After(c, n, events[..k]), events[k])
    decreases |events|
  {
    if k == |events| {
      assert events[..k] == events;
    } else if k == |events| - 1 {
      assert events[..k + 1] == events;
    } else {
      var front := events[..|events| - 1];
      PossiblePrefix(c, n, front, k);
      assert front[..k] == events[..k] && front[..k + 1] == events[..k + 1];
    }
  }

  /** In a run that loses nothing, once any node but the source receives a copy while its table holds the
      destination, then by the time nothing is in flight the destination has handled the request and, if its observer
      is still stored, the source has sent its payload. */
  lemma LosslessDelivery(c: Quest, n: Net, events: seq<Event>, k: nat)
    requires GoodQuest(c) && Launched(c, n) && Possible(c, n, events) && Lossless(events)
    requires After(c, n, events).flying == []
    requires k < |events| && events[k].Deliver?
    requires Possible(c, n, events[..k]) && events[k].i < |After(c, n, events[..k]).flying|
    requires var to := After(c, n, events[..k]).flying[events[k].i].to;
             to == c.dest || (to != c.src && Knows(c.idOf, events[k].view, c.dest))
    ensures DestinationHandled(c, n, events)
    ensures Holder(c) in After(c, n, events).observers ==> After(c, n, events).request.payloads > 0
  {
    PossiblePrefix(c, n, events, k);
    RunKeepsInv(c, n, events[..k]);
    DeliveryStartsIt(c, After(c, n, events[..k]), events[k].i, events[k].view, events[k].newId);
    StaysUnderWay(c, n, events, k + 1);
    RunKeepsInv(c, n, events);
    ReachedIffHandled(c, n, events);
  }
}
