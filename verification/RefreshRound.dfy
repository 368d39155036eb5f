/** Every interleaving of a refresh round: pongs (late, duplicate or never), timer completions, and the
    posted callbacks run in any order (src/ss_p2p/kademlia/connection_maintainer.cpp, k_observer.cpp). */
module RefreshRound {
  import opened NodeIds
  import opened Nodes
  import opened Tables
  import opened Refresh

  datatype Event =
    | PongArrives(i: nat)        // the observer of ping `i` processes a pong
    | TimerCompletes(i: nat)     // its timer fires, or its cancelled wait is called back
    | RunTask(j: nat)            // the io context runs a posted callback, any of them
    | Arrival(node: KNode)       // another peer's ping files a node

  datatype Round = Round(table: Table, pings: seq<PingState>, posted: seq<TableOp>, done: seq<TableOp>)

  function Start(t: Table): Round {
    Round(t, WalkPings(t, K_BUCKET_COUNT), [], [])
  }

  /** A timer has one completion to deliver; pongs may come at any time. */
  predicate Enabled(r: Round, e: Event) {
    match e
    case PongArrives(i) => i < |r.pings|
    case TimerCompletes(i) => i < |r.pings| && r.pings[i].timerPending
    case RunTask(j) => j < |r.posted|
    case Arrival(_) => true
  }

  function Next(self: NodeId, r: Round, e: Event): Round
    requires Enabled(r, e)
  {
    match e
    case PongArrives(i) => r.(pings := r.pings[i := AfterPong(r.pings[i])], posted := r.posted + PongPosts(r.pings[i]))
    case TimerCompletes(i) =>
      r.(pings := r.pings[i := AfterTimer(r.pings[i])], posted := r.posted + TimerPosts(r.pings[i]))
    case RunTask(j) =>
      r.(table := Apply(self, r.table, r.posted[j]),
         posted := r.posted[..j] + r.posted[j + 1..],
         done := r.done + [r.posted[j]])
    case Arrival(n) => r.(table := Apply(self, r.table, Update(n)), done := r.done + [Update(n)])
  }

  /** Each event is enabled in the state the earlier ones lead to. */
  predicate Possible(self: NodeId, t: Table, events: seq<Event>)
    decreases |events|, 0
  {
    events == [] ||
    (Possible(self, t, events[..|events| - 1]) && Enabled(After(self, t, events[..|events| - 1]), events[|events| - 1]))
  }

  /** The state a round that began with table `t` is in after these events. */
  function After(self: NodeId, t: Table, events: seq<Event>): Round
    requires Possible(self, t, events)
    decreases |events|, 1
  {
    if events == [] then Start(t) else Next(self, After(self, t, events[..|events| - 1]), events[|events| - 1])
  }

  // ---------------------------------------------------------------- what every reachable state keeps

  function TimeoutOf(p: PingState): TableOp {
    Timeout(p.slot, p.node)
  }

  function PongOf(p: PingState): TableOp {
    Pong(p.slot, p.node)
  }

  /** Every callback ever posted, run or still waiting. */
  ghost function Issued(r: Round): multiset<TableOp> {
    multiset(r.posted) + multiset(r.done)
  }

  /** The accounts of one ping: its timeout handler was posted once if it expired and never otherwise,
      and its pong handler was posted exactly if a pong was processed. */
  ghost predicate Settled(p: PingState, issued: multiset<TableOp>) {
    && issued[TimeoutOf(p)] == (if p.expired then 1 else 0)
    && (issued[PongOf(p)] > 0 <==> p.pongArrived)
    && (p.expired ==> !p.timerPending)
    && (!p.timerPending ==> p.expired || p.pongArrived)
  }

  ghost predicate DistinctPings(pings: seq<PingState>) {
    forall i, j :: 0 <= i < j < |pings| ==> pings[i].node.id != pings[j].node.id
  }

  predicate IsCallbackOf(p: PingState, op: TableOp) {
    op == TimeoutOf(p) || op == PongOf(p)
  }

  ghost predicate SomePingOf(pings: seq<PingState>, op: TableOp) {
    exists i :: 0 <= i < |pings| && IsCallbackOf(pings[i], op)
  }

  ghost predicate SameAsked(pings: seq<PingState>, start: seq<PingState>) {
    && |pings| == |start|
    && forall i :: 0 <= i < |pings| ==> pings[i].slot == start[i].slot && pings[i].node == start[i].node
  }

  ghost predicate RoundInv(self: NodeId, t: Table, r: Round) {
    && r.table == Run(self, t, r.done)
    && SameAsked(r.pings, WalkPings(t, K_BUCKET_COUNT))
    && (forall i :: 0 <= i < |r.pings| ==> Settled(r.pings[i], Issued(r)))
    && (forall op :: op in Issued(r) ==> op.Update? || SomePingOf(r.pings, op))
    && (forall op :: op in r.posted ==> !op.Update?)
  }

  lemma PingsDistinct(self: NodeId, t: Table)
    requires GoodTable(self, t)
    ensures DistinctPings(WalkPings(t, K_BUCKET_COUNT))
  {
    var all := AllNodes(t, K_BUCKET_COUNT);
    WalkPingsMatch(t, K_BUCKET_COUNT);
    AllNodesDistinct(self, t, K_BUCKET_COUNT);
    forall i | 0 <= i < |all| ensures WalkPings(t, K_BUCKET_COUNT)[i].node == all[i] {
      assert Asks(WalkPings(t, K_BUCKET_COUNT)[i], WalkPings(t, K_BUCKET_COUNT)[i].slot, all[i]);
    }
  }

  lemma StartInv(self: NodeId, t: Table)
    ensures RoundInv(self, t, Start(t))
  {
    WalkPingsMatch(t, K_BUCKET_COUNT);
    forall i | 0 <= i < |WalkPings(t, K_BUCKET_COUNT)|
      ensures Settled(WalkPings(t, K_BUCKET_COUNT)[i], Issued(Start(t)))
    {
      var p := WalkPings(t, K_BUCKET_COUNT)[i];
      assert Asks(p, p.slot, AllNodes(t, K_BUCKET_COUNT)[i]);
    }
  }

  /** What a pong or a timer completion makes of a ping, and what it posts. */
  ghost predicate IsSignal(p: PingState, after: PingState, posts: seq<TableOp>) {
    || (after == AfterPong(p) && posts == PongPosts(p))
    || (after == AfterTimer(p) && posts == TimerPosts(p) && p.timerPending)
  }

  /** Signals of ping `i` post callbacks of ping `i` and settle it; the others stay settled. */
  lemma SignalKeepsSettled(pings: seq<PingState>, issued: multiset<TableOp>, i: nat, after: PingState,
                           posts: seq<TableOp>, next: seq<PingState>)
    requires DistinctPings(pings) && i < |pings| && next == pings[i := after]
    requires forall k :: 0 <= k < |pings| ==> Settled(pings[k], issued)
    requires IsSignal(pings[i], after, posts)
    ensures forall k :: 0 <= k < |next| ==> Settled(next[k], issued + multiset(posts))
  {
    var p := pings[i];
    forall k | 0 <= k < |next| ensures Settled(next[k], issued + multiset(posts)) {
      assert Settled(pings[k], issued);
      if k != i {
        assert pings[k].node.id != p.node.id;
        assert TimeoutOf(pings[k]) !in multiset(posts) && PongOf(pings[k]) !in multiset(posts);
      }
    }
  }

  /** A signal leaves every callback attributed to a ping. */
  lemma SignalKeepsAttributed(pings: seq<PingState>, issued: multiset<TableOp>, i: nat, after: PingState,
                              posts: seq<TableOp>, next: seq<PingState>)
    requires i < |pings| && next == pings[i := after] && IsSignal(pings[i], after, posts)
    requires forall op :: op in issued ==> op.Update? || SomePingOf(pings, op)
    ensures forall op :: op in issued + multiset(posts) ==> op.Update? || SomePingOf(next, op)
    ensures forall op :: op in posts ==> !op.Update?
  {
    forall op | op in issued + multiset(posts) && !op.Update? ensures SomePingOf(next, op) {
      if op in issued {
        var k :| 0 <= k < |pings| && IsCallbackOf(pings[k], op);
        assert IsCallbackOf(next[k], op);
      } else {
        assert IsCallbackOf(next[i], op);
      }
    }
  }

  lemma SignalKeepsAsked(pings: seq<PingState>, start: seq<PingState>, i: nat, after: PingState, posts: seq<TableOp>)
    requires SameAsked(pings, start) && i < |pings| && IsSignal(pings[i], after, posts)
    ensures SameAsked(pings[i := after], start)
  {
  }

  lemma SignalKeepsInv(self: NodeId, t: Table, r: Round, i: nat, after: PingState, posts: seq<TableOp>)
    requires GoodTable(self, t) && RoundInv(self, t, r) && i < |r.pings|
    requires IsSignal(r.pings[i], after, posts)
    ensures RoundInv(self, t, r.(pings := r.pings[i := after], posted := r.posted + posts))
  {
    var q := r.(pings := r.pings[i := after], posted := r.posted + posts);
    PingsDistinct(self, t);
    AskedKeepsDistinct(r.pings, WalkPings(t, K_BUCKET_COUNT));
    SignalKeepsSettled(r.pings, Issued(r), i, after, posts, q.pings);
    SignalKeepsAttributed(r.pings, Issued(r), i, after, posts, q.pings);
    SignalKeepsAsked(r.pings, WalkPings(t, K_BUCKET_COUNT), i, after, posts);
    assert Issued(q) == Issued(r) + multiset(posts);
  }

  lemma AskedKeepsDistinct(pings: seq<PingState>, start: seq<PingState>)
    requires SameAsked(pings, start) && DistinctPings(start)
    ensures DistinctPings(pings)
  {
  }

  lemma RunStep(self: NodeId, t: Table, done: seq<TableOp>, op: TableOp)
    ensures Run(self, t, done + [op]) == Apply(self, Run(self, t, done), op)
  {
    assert (done + [op])[..|done|] == done;
  }

  lemma TaskKeepsIssued(posted: seq<TableOp>, done: seq<TableOp>, j: nat)
    requires j < |posted|
    ensures multiset(posted[..j] + posted[j + 1..]) + multiset(done + [posted[j]]) == multiset(posted) + multiset(done)
  {
    assert posted == posted[..j] + [posted[j]] + posted[j + 1..];
  }

  lemma TaskKeepsInv(self: NodeId, t: Table, r: Round, j: nat)
    requires RoundInv(self, t, r) && j < |r.posted|
    ensures RoundInv(self, t, Next(self, r, RunTask(j)))
  {
    var q := Next(self, r, RunTask(j));
    RunStep(self, t, r.done, r.posted[j]);
    TaskKeepsIssued(r.posted, r.done, j);
    assert Issued(q) == Issued(r);
  }

  lemma ArrivalKeepsInv(self: NodeId, t: Table, r: Round, n: KNode)
    requires RoundInv(self, t, r)
    ensures RoundInv(self, t, Next(self, r, Arrival(n)))
  {
    var q := Next(self, r, Arrival(n));
    RunStep(self, t, r.done, Update(n));
    assert Issued(q) == Issued(r) + multiset{Update(n)};
    forall i | 0 <= i < |q.pings| ensures Settled(q.pings[i], Issued(q)) {
      assert Settled(r.pings[i], Issued(r));
    }
  }

  /** The invariant of every interleaving, arrivals included: each timeout handler is posted at most
      once, and never for a ping whose pong was processed first. */
  lemma {:induction false} EveryRoundSettled(self: NodeId, t: Table, events: seq<Event>)
    requires GoodTable(self, t) && Possible(self, t, events)
    ensures RoundInv(self, t, After(self, t, events))
    decreases |events|
  {
    if events == [] {
      StartInv(self, t);
    } else {
      var e := events[|events| - 1];
      var q := After(self, t, events[..|events| - 1]);
      EveryRoundSettled(self, t, events[..|events| - 1]);
      match e
      case PongArrives(i) => SignalKeepsInv(self, t, q, i, AfterPong(q.pings[i]), PongPosts(q.pings[i]));
      case TimerCompletes(i) => SignalKeepsInv(self, t, q, i, AfterTimer(q.pings[i]), TimerPosts(q.pings[i]));
      case RunTask(j) => TaskKeepsInv(self, t, q, j);
      case Arrival(n) => ArrivalKeepsInv(self, t, q, n);
    }
  }

  // ---------------------------------------------------------------- which signal came first

  datatype Signal = Neither | PongFirst | TimerFirst

  function FirstSignal(events: seq<Event>, i: nat): Signal
    decreases |events|
  {
    if events == [] then Neither
    else
      var before := FirstSignal(events[..|events| - 1], i);
      if before != Neither then before
      else if events[|events| - 1] == PongArrives(i) then PongFirst
      else if events[|events| - 1] == TimerCompletes(i) then TimerFirst
      else Neither
  }

  /** A ping expires exactly if its timer completes before any pong is processed. */
  lemma {:induction false} ExpiredIffTimerFirst(self: NodeId, t: Table, events: seq<Event>, i: nat)
    requires Possible(self, t, events) && i < |WalkPings(t, K_BUCKET_COUNT)|
    ensures var pings := After(self, t, events).pings;
            && |pings| == |WalkPings(t, K_BUCKET_COUNT)|
            && (pings[i].expired <==> FirstSignal(events, i) == TimerFirst)
            && (pings[i].timerPending && !pings[i].pongArrived <==> FirstSignal(events, i) == Neither)
    decreases |events|
  {
    if events == [] {
      WalkPingsMatch(t, K_BUCKET_COUNT);
      var p := WalkPings(t, K_BUCKET_COUNT)[i];
      assert Asks(p, p.slot, AllNodes(t, K_BUCKET_COUNT)[i]);
    } else {
      var e := events[|events| - 1];
      var q := After(self, t, events[..|events| - 1]);
      ExpiredIffTimerFirst(self, t, events[..|events| - 1], i);
    }
  }

  // ---------------------------------------------------------------- the outcome of a round

  ghost predicate Resolved(r: Round) {
    r.posted == [] && forall i :: 0 <= i < |r.pings| ==> !r.pings[i].timerPending
  }

  ghost predicate NoArrivals(events: seq<Event>) {
    forall e :: e in events ==> !e.Arrival?
  }

  lemma {:induction false} NoArrivalsNoUpdates(self: NodeId, t: Table, events: seq<Event>)
    requires GoodTable(self, t) && Possible(self, t, events) && NoArrivals(events)
    ensures NoUpdates(After(self, t, events).done)
    decreases |events|
  {
    if events != [] {
      var front, e := events[..|events| - 1], events[|events| - 1];
      assert e in events;
      NoArrivalsNoUpdates(self, t, front);
      EveryRoundSettled(self, t, front);
    }
  }

  /** At the end of a round, in every interleaving: a node is in its bucket exactly if a pong of its ping
      was processed before its timer completed, and it was touched by one of its own pongs. */
  lemma RoundOutcome(self: NodeId, t: Table, events: seq<Event>, s: nat, id: NodeId)
    requires GoodTable(self, t) && Possible(self, t, events) && NoArrivals(events) && Resolved(After(self, t, events))
    requires s < K_BUCKET_COUNT
    ensures Contains(After(self, t, events).table[s], id) <==>
              exists i :: 0 <= i < |WalkPings(t, K_BUCKET_COUNT)|
                && Asked(t, i, s, id) && FirstSignal(events, i) == PongFirst
    ensures Contains(After(self, t, events).table[s], id) ==> LastTouch(self, After(self, t, events).done, s, id) >= 0
  {
    if Contains(t[s], id) {
      var i := StoredOutcome(self, t, events, s, id);
      assert Asked(t, i, s, id);
    } else {
      EveryRoundSettled(self, t, events);
      NoArrivalsNoUpdates(self, t, events);
      SurvivorsOfRun(self, t, After(self, t, events).done, s, id);
      forall i | 0 <= i < |WalkPings(t, K_BUCKET_COUNT)| ensures !Asked(t, i, s, id) {
        OnlyStoredAsked(t, s, id, i);
      }
    }
  }

  /** A stored node is asked by one ping, and survives exactly if that ping's pong came first. */
  lemma StoredOutcome(self: NodeId, t: Table, events: seq<Event>, s: nat, id: NodeId) returns (i: nat)
    requires GoodTable(self, t) && Possible(self, t, events) && NoArrivals(events) && Resolved(After(self, t, events))
    requires s < K_BUCKET_COUNT && Contains(t[s], id)
    ensures i < |WalkPings(t, K_BUCKET_COUNT)| && Asked(t, i, s, id)
    ensures forall j :: 0 <= j < |WalkPings(t, K_BUCKET_COUNT)| && j != i ==> !Asked(t, j, s, id)
    ensures Contains(After(self, t, events).table[s], id) <==> FirstSignal(events, i) == PongFirst
    ensures Contains(After(self, t, events).table[s], id) ==> LastTouch(self, After(self, t, events).done, s, id) >= 0
  {
    var r := After(self, t, events);
    EveryRoundSettled(self, t, events);
    NoArrivalsNoUpdates(self, t, events);
    SurvivorsOfRun(self, t, r.done, s, id);
    i := EachNodeAskedOnce(self, t, s, id);
    ExpiredIffTimerFirst(self, t, events, i);
    TimedOutIffExpired(self, t, r, s, id, i);
    if !r.pings[i].expired {
      PongTouches(self, t, r, i);
    }
  }

  lemma PongTouches(self: NodeId, t: Table, r: Round, i: nat)
    requires RoundInv(self, t, r) && r.posted == [] && i < |r.pings|
    requires !r.pings[i].timerPending && !r.pings[i].expired && r.pings[i].slot < K_BUCKET_COUNT
    ensures LastTouch(self, r.done, r.pings[i].slot, r.pings[i].node.id) >= 0
  {
    assert Settled(r.pings[i], Issued(r));
    assert PongOf(r.pings[i]) in Issued(r);
    TouchedAtLeastOnce(self, r.done, r.pings[i].slot, r.pings[i].node.id, PongOf(r.pings[i]));
  }

  lemma OnlyStoredAsked(t: Table, s: nat, id: NodeId, i: nat)
    requires s < K_BUCKET_COUNT && !Contains(t[s], id) && i < |WalkPings(t, K_BUCKET_COUNT)|
    ensures !Asked(t, i, s, id)
  {
    WalkPingsMatch(t, K_BUCKET_COUNT);
    ContainsIff(t[s], id);
  }

  ghost predicate Asked(t: Table, i: nat, s: nat, id: NodeId)
    requires i < |WalkPings(t, K_BUCKET_COUNT)|
  {
    WalkPings(t, K_BUCKET_COUNT)[i].slot == s && WalkPings(t, K_BUCKET_COUNT)[i].node.id == id
  }

  lemma TimedOutIffExpired(self: NodeId, t: Table, r: Round, s: nat, id: NodeId, i: nat)
    requires RoundInv(self, t, r) && r.posted == [] && i < |r.pings| && Asked(t, i, s, id)
    requires forall j :: 0 <= j < |r.pings| && j != i ==> r.pings[j].node.id != id
    ensures TimedOut(r.done, s, id) <==> r.pings[i].expired
  {
    assert Settled(r.pings[i], Issued(r));
    if TimedOut(r.done, s, id) {
      var op :| op in r.done && op.Timeout? && op.slot == s && op.node.id == id;
      assert op in Issued(r);
      assert SomePingOf(r.pings, op);
    }
    if r.pings[i].expired {
      assert TimeoutOf(r.pings[i]) in Issued(r);
      assert TimeoutOf(r.pings[i]) in r.done;
    }
  }

  /** The survivors of a bucket stand in the order in which their last pong callbacks ran. */
  lemma RoundOrder(self: NodeId, t: Table, events: seq<Event>, s: nat, a: nat, b: nat)
    requires GoodTable(self, t) && Possible(self, t, events) && NoArrivals(events) && Resolved(After(self, t, events))
    requires s < K_BUCKET_COUNT && a < b < |After(self, t, events).table[s]|
    ensures var r := After(self, t, events);
            0 <= LastTouch(self, r.done, s, r.table[s][a].id) < LastTouch(self, r.done, s, r.table[s][b].id)
  {
    var r := After(self, t, events);
    EveryRoundSettled(self, t, events);
    RecencyOrder(self, t, r.done, s);
    ContainsIff(r.table[s], r.table[s][a].id);
    RoundOutcome(self, t, events, s, r.table[s][a].id);
  }

  /** No pong, callback or timer brings a node back: only an arrival files one. */
  lemma GoneStaysGone(self: NodeId, t: Table, events: seq<Event>, e: Event, s: nat, id: NodeId)
    requires GoodTable(self, t) && Possible(self, t, events) && Enabled(After(self, t, events), e)
    requires s < K_BUCKET_COUNT && !Contains(After(self, t, events).table[s], id)
    ensures Contains(Next(self, After(self, t, events), e).table[s], id) ==>
              e.Arrival? && e.node.id == id && SlotOf(self, id) == s && |After(self, t, events).table[s]| < 4
  {
    var r := After(self, t, events);
    EveryRoundSettled(self, t, events);
    RunKeepsGood(self, t, r.done);
    if e.RunTask? || e.Arrival? {
      var op := if e.RunTask? then r.posted[e.j] else Update(e.node);
      ApplyAt(self, r.table, op, s);
      BucketMembership(self, s, r.table[s], op, id);
    }
  }
}
