/** The order of a refresh round's survivors when, as on the source's single io thread, posted callbacks run first
    in, first out (src/ss_p2p/node_controller.cpp, src/ss_p2p/kademlia/connection_maintainer.cpp). */
module RefreshOrder {
  import opened Utils
  import opened NodeIds
  import opened Nodes
  import opened Tables
  import opened Refresh
  import opened RefreshRound

  /** The io context always runs the callback posted first. */
  ghost predicate FirstInFirstOut(events: seq<Event>) {
    forall e :: e in events ==> e.RunTask? ==> e.j == 0
  }

  /** Index of the last event in which ping `i` processed a pong, or -1. */
  function LastPong(events: seq<Event>, i: nat): (k: int)
    ensures -1 <= k < |events|
    decreases |events|
  {
    if events == [] then -1
    else if events[|events| - 1] == PongArrives(i) then |events| - 1
    else LastPong(events[..|events| - 1], i)
  }

  /** Every callback in the order it was posted, run or not. */
  function Log(r: Round): seq<TableOp> {
    r.done + r.posted
  }

  function TouchOf(self: NodeId, log: seq<TableOp>, p: PingState): int {
    LastTouch(self, log, p.slot, p.node.id)
  }

  /** The log touches the pinged nodes in the order of their last pongs. */
  ghost predicate LogInOrder(self: NodeId, pings: seq<PingState>, log: seq<TableOp>, events: seq<Event>) {
    && (forall i :: 0 <= i < |pings| ==> (LastPong(events, i) == -1 <==> TouchOf(self, log, pings[i]) == -1))
    && forall i, j :: 0 <= i < |pings| && 0 <= j < |pings| ==>
         (LastPong(events, i) < LastPong(events, j) <==> TouchOf(self, log, pings[i]) < TouchOf(self, log, pings[j]))
  }

  lemma TouchAfter(self: NodeId, log: seq<TableOp>, op: TableOp, p: PingState)
    ensures TouchOf(self, log + [op], p) ==
            if Touches(self, op, p.slot, p.node.id) then |log| else TouchOf(self, log, p)
  {
    assert (log + [op])[..|log|] == log;
  }

  lemma PongAfter(events: seq<Event>, e: Event, i: nat)
    ensures LastPong(events + [e], i) == if e == PongArrives(i) then |events| else LastPong(events, i)
  {
    assert (events + [e])[..|events|] == events;
  }

  /** Another operation than a pong leaves the order as it is. */
  lemma OthersKeepLog(self: NodeId, pings: seq<PingState>, log: seq<TableOp>, more: seq<TableOp>,
      events: seq<Event>, e: Event)
    requires LogInOrder(self, pings, log, events) && !e.PongArrives?
    requires more == [] || (|more| == 1 && more[0].Timeout?)
    ensures LogInOrder(self, pings, log + more, events + [e])
  {
    forall i | 0 <= i < |pings|
      ensures LastPong(events + [e], i) == LastPong(events, i)
      ensures TouchOf(self, log + more, pings[i]) == TouchOf(self, log, pings[i])
    {
      PongAfter(events, e, i);
      if more == [] {
        assert log + more == log;
      } else {
        assert more == [more[0]];
        TouchAfter(self, log, more[0], pings[i]);
      }
    }
  }

  /** A pong puts its node last in both orders. */
  lemma PongKeepsLog(self: NodeId, pings: seq<PingState>, log: seq<TableOp>, events: seq<Event>, k: nat)
    requires LogInOrder(self, pings, log, events) && DistinctPings(pings) && k < |pings|
    ensures LogInOrder(self, pings, log + [PongOf(pings[k])], events + [PongArrives(k)])
  {
    forall i | 0 <= i < |pings|
      ensures LastPong(events + [PongArrives(k)], i) == if i == k then |events| else LastPong(events, i)
      ensures TouchOf(self, log + [PongOf(pings[k])], pings[i]) ==
              if i == k then |log| else TouchOf(self, log, pings[i])
    {
      PongAfter(events, PongArrives(k), i);
      TouchAfter(self, log, PongOf(pings[k]), pings[i]);
    }
  }

  function PostsOf(r: Round, e: Event): seq<TableOp>
    requires Enabled(r, e)
  {
    match e
    case PongArrives(i) => PongPosts(r.pings[i])
    case TimerCompletes(i) => TimerPosts(r.pings[i])
    case _ => []
  }

  /** Run first in, first out, callbacks join the log when posted and stay where they are when run. */
  lemma LogOnlyGrows(self: NodeId, r: Round, e: Event)
    requires Enabled(r, e) && !e.Arrival? && (e.RunTask? ==> e.j == 0)
    ensures Log(Next(self, r, e)) == Log(r) + PostsOf(r, e)
  {
    if e.RunTask? {
      FirstMovesOver(r.done, r.posted);
    } else {
      ConcatAssociates(r.done, r.posted, PostsOf(r, e));
    }
  }

  lemma FirstMovesOver<T>(done: seq<T>, posted: seq<T>)
    requires posted != []
    ensures (done + [posted[0]]) + (posted[..0] + posted[1..]) == done + posted + []
  {
    assert posted == [posted[0]] + posted[1..];
  }

  lemma StepKeepsLog(self: NodeId, pings: seq<PingState>, r: Round, events: seq<Event>, e: Event)
    requires Enabled(r, e) && !e.Arrival? && (e.RunTask? ==> e.j == 0)
    requires DistinctPings(pings) && SameAsked(r.pings, pings) && LogInOrder(self, pings, Log(r), events)
    ensures LogInOrder(self, pings, Log(Next(self, r, e)), events + [e])
  {
    LogOnlyGrows(self, r, e);
    if e.PongArrives? {
      PongKeepsLog(self, pings, Log(r), events, e.i);
      assert PostsOf(r, e) == [PongOf(pings[e.i])];
    } else {
      OthersKeepLog(self, pings, Log(r), PostsOf(r, e), events, e);
    }
  }

  lemma {:induction false} LogStaysInOrder(self: NodeId, t: Table, events: seq<Event>)
    requires GoodTable(self, t) && Possible(self, t, events) && NoArrivals(events) && FirstInFirstOut(events)
    ensures LogInOrder(self, WalkPings(t, K_BUCKET_COUNT), Log(After(self, t, events)), events)
    decreases |events|
  {
    if events != [] {
      var front, e := events[..|events| - 1], events[|events| - 1];
      assert events == front + [e];
      assert e in events && forall x :: x in front ==> x in events;
      LogStaysInOrder(self, t, front);
      EveryRoundSettled(self, t, front);
      PingsDistinct(self, t);
      StepKeepsLog(self, WalkPings(t, K_BUCKET_COUNT), After(self, t, front), front, e);
    }
  }

  /** With callbacks run first in, first out, the survivors of a resolved round stand in the order in which their
      last pongs arrived; `i` and `j` are the pings of the nodes at positions `a` and `b`. */
  lemma SurvivorsInPongOrder(self: NodeId, t: Table, events: seq<Event>, s: nat, a: nat, b: nat)
    returns (i: nat, j: nat)
    requires GoodTable(self, t) && Possible(self, t, events) && NoArrivals(events) && Resolved(After(self, t, events))
    requires FirstInFirstOut(events)
    requires s < K_BUCKET_COUNT && a < b < |After(self, t, events).table[s]|
    ensures i < |WalkPings(t, K_BUCKET_COUNT)| && Asked(t, i, s, After(self, t, events).table[s][a].id)
    ensures j < |WalkPings(t, K_BUCKET_COUNT)| && Asked(t, j, s, After(self, t, events).table[s][b].id)
    ensures 0 <= LastPong(events, i) < LastPong(events, j)
  {
    var r := After(self, t, events);
    RoundOrder(self, t, events, s, a, b);
    LogStaysInOrder(self, t, events);
    assert Log(r) == r.done;
    i := SurvivorAsked(self, t, events, s, r.table[s][a]);
    j := SurvivorAsked(self, t, events, s, r.table[s][b]);
  }

  lemma SurvivorAsked(self: NodeId, t: Table, events: seq<Event>, s: nat, n: KNode) returns (i: nat)
    requires GoodTable(self, t) && Possible(self, t, events) && NoArrivals(events)
    requires s < K_BUCKET_COUNT && n in After(self, t, events).table[s]
    ensures i < |WalkPings(t, K_BUCKET_COUNT)| && Asked(t, i, s, n.id)
  {
    EveryRoundSettled(self, t, events);
    NoArrivalsNoUpdates(self, t, events);
    ContainsIff(After(self, t, events).table[s], n.id);
    SurvivorsOfRun(self, t, After(self, t, events).done, s, n.id);
    i := EachNodeAskedOnce(self, t, s, n.id);
  }
}
