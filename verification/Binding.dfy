/** Global endpoint discovery: the binding request, its vote, and the object that holds the result
    (src/ss_p2p/ice_agent/ice_observer.cpp, stun_server.cpp). */
module Binding {
  import opened Utils
  import opened Nodes

  datatype SrState = Done | Pending | NotFound

  /** What the reserved object holds. */
  datatype Sr = Sr(state: SrState, ep: Endpoint, isAsync: bool)

  const NO_ENDPOINT := Endpoint(0, 0)

  /** A requested node and its answer so far. */
  datatype Answer = Answer(node: Endpoint, reported: Option<Endpoint>)

  datatype Consensus = ConsensusDone(ep: Endpoint) | OnHandling | ErrorDone

  // ---------------------------------------------------------------- the vote

  function AnswerCount(rs: seq<Answer>): (n: nat)
    ensures n <= |rs|
  {
    if rs == [] then 0
    else AnswerCount(rs[..|rs| - 1]) + if rs[|rs| - 1].reported.Some? then 1 else 0
  }

  predicate IsPublic(a: Answer) {
    a.reported.Some? && !a.reported.value.IsLoopback()
  }

  /** The reported endpoints that are not loopback addresses, in request order. */
  function PublicAnswers(rs: seq<Answer>): (eps: seq<Endpoint>)
    ensures |eps| <= AnswerCount(rs)
    ensures forall ep :: ep in eps ==> !ep.IsLoopback() && exists a :: a in rs && a.reported == Some(ep)
  {
    if rs == [] then []
    else
      var last := rs[|rs| - 1];
      assert last in rs;
      PublicAnswers(rs[..|rs| - 1]) + if IsPublic(last) then [last.reported.value] else []
  }

  /** A winner has at least as many votes as anyone; the sort leaves the choice among ties open. */
  ghost predicate IsWinner(eps: seq<Endpoint>, ep: Endpoint) {
    ep in eps && forall x :: multiset(eps)[x] <= multiset(eps)[ep]
  }

  function Max(a: int, b: int): int {
    if a < b then b else a
  }

  /** At least two fifths of the requested nodes have answered. */
  predicate Quorum(rs: seq<Answer>) {
    5 * AnswerCount(rs) >= 2 * |rs|
  }

  predicate EnoughPublic(rs: seq<Answer>) {
    |PublicAnswers(rs)| >= Max(AnswerCount(rs) / 3, 1)
  }

  ghost predicate Allows(rs: seq<Answer>, isForce: bool, o: Consensus) {
    if !Quorum(rs) || (!isForce && !EnoughPublic(rs)) then o == OnHandling
    else if PublicAnswers(rs) == [] then o == ErrorDone
    else o.ConsensusDone? && IsWinner(PublicAnswers(rs), o.ep)
  }

  // ---------------------------------------------------------------- the vote, by the requests that were answered

  ghost function AnsweredAt(rs: seq<Answer>): set<nat> {
    set i | 0 <= i < |rs| && rs[i].reported.Some?
  }

  /** The requests answered with an endpoint outside 127.0.0.0/8. */
  ghost function PublicAt(rs: seq<Answer>): set<nat> {
    set i | 0 <= i < |rs| && rs[i].reported.Some? && !(0x7F00_0000 <= rs[i].reported.value.address < 0x8000_0000)
  }

  /** Those of them answered with `x`. */
  ghost function VotesFor(rs: seq<Answer>, x: Endpoint): set<nat> {
    set i | i in PublicAt(rs) && rs[i].reported == Some(x)
  }

  lemma {:induction false} AnsweredSize(rs: seq<Answer>)
    ensures |AnsweredAt(rs)| == AnswerCount(rs)
  {
    if rs != [] {
      var n := |rs| - 1;
      AnsweredSize(rs[..n]);
      assert AnsweredAt(rs) == AnsweredAt(rs[..n]) + if rs[n].reported.Some? then {n} else {};
    }
  }

  lemma PublicStep(rs: seq<Answer>, x: Endpoint)
    requires rs != []
    ensures var n := |rs| - 1;
            && PublicAt(rs) == PublicAt(rs[..n]) + (if IsPublic(rs[n]) then {n} else {})
            && VotesFor(rs, x) == VotesFor(rs[..n], x) +
                                    if IsPublic(rs[n]) && rs[n].reported.value == x then {n} else {}
  {
    var n := |rs| - 1;
    assert forall i :: 0 <= i < n ==> rs[..n][i] == rs[i];
  }

  /** The selected answers are the public ones, each counted as often as it was given. */
  lemma {:induction false} PublicSize(rs: seq<Answer>, x: Endpoint)
    ensures |PublicAt(rs)| == |PublicAnswers(rs)|
    ensures |VotesFor(rs, x)| == multiset(PublicAnswers(rs))[x]
  {
    if rs != [] {
      PublicSize(rs[..|rs| - 1], x);
      PublicStep(rs, x);
    }
  }

  /** Two fifths of the requests answered and, unless forced, at least one public answer and a third of all
      answers, rounded down; then nobody has more votes than the winner. */
  ghost predicate Elected(rs: seq<Answer>, isForce: bool, o: Consensus) {
    var answered, public := |AnsweredAt(rs)|, |PublicAt(rs)|;
    if 5 * answered < 2 * |rs| || (!isForce && !(public >= 1 && 3 * public + 2 >= answered)) then o == OnHandling
    else if public == 0 then o == ErrorDone
    else o.ConsensusDone? && VotesFor(rs, o.ep) != {} && forall x :: |VotesFor(rs, x)| <= |VotesFor(rs, o.ep)|
  }

  lemma WinnerByVotes(rs: seq<Answer>, ep: Endpoint)
    ensures IsWinner(PublicAnswers(rs), ep) <==>
              VotesFor(rs, ep) != {} && forall x :: |VotesFor(rs, x)| <= |VotesFor(rs, ep)|
  {
    var eps := PublicAnswers(rs);
    forall x ensures |VotesFor(rs, x)| == multiset(eps)[x] {
      PublicSize(rs, x);
    }
    assert ep in eps <==> multiset(eps)[ep] > 0;
    assert VotesFor(rs, ep) != {} <==> |VotesFor(rs, ep)| > 0;
  }

  /** What the vote may return, exactly, in terms of which requests were answered with what. */
  lemma ConsensusByIndex(rs: seq<Answer>, isForce: bool, o: Consensus)
    ensures Allows(rs, isForce, o) <==> Elected(rs, isForce, o)
  {
    AnsweredSize(rs);
    PublicSize(rs, NO_ENDPOINT);
    if o.ConsensusDone? {
      WinnerByVotes(rs, o.ep);
    }
  }

  lemma VotesDisjoint(rs: seq<Answer>, a: Endpoint, b: Endpoint)
    requires a != b
    ensures |VotesFor(rs, a)| + |VotesFor(rs, b)| <= |PublicAt(rs)|
  {
    assert VotesFor(rs, a) !! VotesFor(rs, b);
    SubsetSize(VotesFor(rs, a) + VotesFor(rs, b), PublicAt(rs));
  }

  /** Whatever order the sort leaves ties in, an endpoint with more than half of the public answers is the only one
      the vote can return; and it returns one exactly when two fifths of the requests are answered, at least one of
      them with a public endpoint and, rounded down, a third of them. */
  lemma MajorityWins(rs: seq<Answer>, o: Consensus, ep: Endpoint)
    requires Allows(rs, false, o)
    ensures var answered, public := |AnsweredAt(rs)|, |PublicAt(rs)|;
            && (o.ConsensusDone? <==> 5 * answered >= 2 * |rs| && public >= 1 && 3 * public + 2 >= answered)
            && (o.ConsensusDone? && 2 * |VotesFor(rs, ep)| > public ==> o.ep == ep)
  {
    ConsensusByIndex(rs, false, o);
    if o.ConsensusDone? && o.ep != ep {
      VotesDisjoint(rs, ep, o.ep);
    }
  }

  lemma VoteOutcome(rs: seq<Answer>, o: Consensus)
    requires Allows(rs, false, o)
    ensures o.ConsensusDone? <==> Quorum(rs) && EnoughPublic(rs)
    ensures o.OnHandling? <==> !(Quorum(rs) && EnoughPublic(rs))
    ensures o.ConsensusDone? ==> !o.ep.IsLoopback() && exists a :: a in rs && a.reported == Some(o.ep)
  {
  }

  /** Position of the first request to this node, or `|rs|`. */
  function FindRequested(rs: seq<Answer>, node: Endpoint): (i: nat)
    ensures i <= |rs|
    ensures i < |rs| ==> rs[i].node == node
    ensures forall j :: 0 <= j < i ==> rs[j].node != node
  {
    FirstIndex(rs, (a: Answer) => a.node == node)
  }

  /** The first request to `src` takes the answer, replacing an earlier one; strangers are ignored. */
  function WithAnswer(rs: seq<Answer>, src: Endpoint, ep: Endpoint): (r: seq<Answer>)
    ensures |r| == |rs|
    ensures forall j :: 0 <= j < |rs| ==> r[j].node == rs[j].node
  {
    var i := FindRequested(rs, src);
    if i == |rs| then rs else rs[i := Answer(src, Some(ep))]
  }

  // ---------------------------------------------------------------- one request as a state machine

  /** `posts` are the handler calls posted so far; `waiting` says the timer's one completion is to come. */
  datatype BindingState = BindingState(
    answers: seq<Answer>, sr: Sr, called: bool, timedOut: bool, posts: seq<Option<Endpoint>>, waiting: bool)

  function Requested(nodes: seq<Endpoint>): (rs: seq<Answer>)
    ensures |rs| == |nodes|
    ensures forall i :: 0 <= i < |rs| ==> rs[i] == Answer(nodes[i], None)
  {
    seq(|nodes|, i requires 0 <= i < |nodes| => Answer(nodes[i], None))
  }

  function Start(nodes: seq<Endpoint>): BindingState {
    BindingState(Requested(nodes), Sr(NotFound, NO_ENDPOINT, false), false, false, [], true)
  }

  /** Every state but a `done` with an endpoint is stored as not found, pending included. */
  function Written(sr: Sr, s: SrState, ep: Option<Endpoint>): Sr {
    if s == Done && ep.Some? then sr.(state := Done, ep := ep.value) else sr.(state := NotFound)
  }

  function WinnerOf(o: Consensus): Option<Endpoint> {
    if o.ConsensusDone? then Some(o.ep) else None
  }

  function SrAfter(sr: Sr, o: Consensus): Sr {
    var s := match o { case ConsensusDone(_) => Done case ErrorDone => NotFound case OnHandling => Pending };
    Written(sr, s, WinnerOf(o))
  }

  /** The result is written, and the handler posted if the caller asked for one and it has not been. */
  function Conclude(b: BindingState, o: Consensus): BindingState {
    b.(sr := SrAfter(b.sr, o),
       called := b.called || b.sr.isAsync,
       posts := if b.sr.isAsync && !b.called then b.posts + [WinnerOf(o)] else b.posts)
  }

  datatype Event =
    | Reply(src: Endpoint, reported: Option<Endpoint>, o: Consensus)
    | TimerFires(o: Consensus)
    | AsyncGet

  ghost predicate Enabled(b: BindingState, e: Event) {
    match e
    case Reply(src, reported, o) => reported.Some? ==> Allows(WithAnswer(b.answers, src, reported.value), false, o)
    case TimerFires(o) => b.waiting && Allows(b.answers, false, o)
    case AsyncGet => true
  }

  function AfterReply(b: BindingState, src: Endpoint, reported: Option<Endpoint>, o: Consensus): BindingState {
    if reported.None? then b
    else
      var b' := b.(answers := WithAnswer(b.answers, src, reported.value));
      if o.OnHandling? then b' else Conclude(b', o)
  }

  function Next(b: BindingState, e: Event): BindingState {
    match e
    case Reply(src, reported, o) => AfterReply(b, src, reported, o)
    case TimerFires(o) => Conclude(b, o).(timedOut := true, waiting := false)
    case AsyncGet => b.(sr := b.sr.(isAsync := true))
  }

  ghost function After(nodes: seq<Endpoint>, events: seq<Event>): BindingState
    decreases |events|
  {
    if events == [] then Start(nodes) else Next(After(nodes, events[..|events| - 1]), events[|events| - 1])
  }

  ghost predicate Possible(nodes: seq<Endpoint>, events: seq<Event>)
    decreases |events|
  {
    events == [] ||
    (Possible(nodes, events[..|events| - 1]) && Enabled(After(nodes, events[..|events| - 1]), events[|events| - 1]))
  }

  // ---------------------------------------------------------------- the handler

  /** What the handler is given: the outcome of the first conclusive step taken while it is registered. */
  ghost function HandlerCalls(nodes: seq<Endpoint>, events: seq<Event>): (calls: seq<Option<Endpoint>>)
    ensures |calls| <= 1
    decreases |events|
  {
    if events == [] then []
    else
      var front, last := events[..|events| - 1], events[|events| - 1];
      var before := HandlerCalls(nodes, front);
      if before == [] && After(nodes, front).sr.isAsync && Concludes(last) then [WinnerOf(last.o)] else before
  }

  predicate Concludes(e: Event) {
    e.TimerFires? || (e.Reply? && e.reported.Some? && !e.o.OnHandling?)
  }

  /** Over every interleaving the handler is posted at most once: for the first reply that completes the vote, or the
      timer's callback, that finds it registered, with that step's outcome. Registered later, it is never called. */
  lemma {:induction false} HandlerPostedOnce(nodes: seq<Endpoint>, events: seq<Event>)
    requires Possible(nodes, events)
    ensures After(nodes, events).posts == HandlerCalls(nodes, events)
    ensures After(nodes, events).called <==> HandlerCalls(nodes, events) != []
    decreases |events|
  {
    if events != [] {
      HandlerPostedOnce(nodes, events[..|events| - 1]);
    }
  }

  /** Over every run the timer's callback runs at most once, whatever is cancelled, and it alone marks the timeout. */
  lemma {:induction false} TimerOnce(nodes: seq<Endpoint>, events: seq<Event>)
    requires Possible(nodes, events)
    ensures After(nodes, events).timedOut <==> exists e :: e in events && e.TimerFires?
    ensures After(nodes, events).waiting <==> !After(nodes, events).timedOut
    ensures forall i, j :: 0 <= i < j < |events| ==> !(events[i].TimerFires? && events[j].TimerFires?)
    decreases |events|
  {
    if events != [] {
      var front, last := events[..|events| - 1], events[|events| - 1];
      TimerOnce(nodes, front);
      assert events == front + [last];
      assert forall i :: 0 <= i < |front| ==> events[i] == front[i] && front[i] in front;
    }
  }

  // ---------------------------------------------------------------- what the result can be

  /** The endpoints reported so far by requested nodes. */
  ghost function Reports(nodes: seq<Endpoint>, events: seq<Event>): set<Endpoint>
    decreases |events|
  {
    if events == [] then {}
    else Reports(nodes, events[..|events| - 1]) + ReportOf(nodes, events[|events| - 1])
  }

  ghost predicate Genuine(reports: set<Endpoint>, ep: Endpoint) {
    ep in reports && !ep.IsLoopback()
  }

  ghost predicate AskedAre(nodes: seq<Endpoint>, rs: seq<Answer>) {
    |rs| == |nodes| && forall i :: 0 <= i < |rs| ==> rs[i].node == nodes[i]
  }

  ghost predicate AnswersFrom(reports: set<Endpoint>, rs: seq<Answer>) {
    forall a :: a in rs && a.reported.Some? ==> a.reported.value in reports
  }

  ghost predicate ResultInv(reports: set<Endpoint>, b: BindingState) {
    && b.sr.state != Pending
    && (b.sr.state == Done ==> Genuine(reports, b.sr.ep) && Quorum(b.answers))
    && forall p :: p in b.posts && p.Some? ==> Genuine(reports, p.value)
  }

  lemma {:induction false} MoreAnswers(rs: seq<Answer>, i: nat, a: Answer)
    requires i < |rs| && a.reported.Some?
    ensures AnswerCount(rs[i := a]) == AnswerCount(rs) + if rs[i].reported.Some? then 0 else 1
    decreases |rs|
  {
    var front := rs[..|rs| - 1];
    if i < |front| {
      MoreAnswers(front, i, a);
      assert rs[i := a][..|rs| - 1] == front[i := a];
    } else {
      assert rs[i := a][..|rs| - 1] == front;
    }
  }

  /** An answered node never becomes unanswered, so a quorum is never lost. */
  lemma AnswersOnlyGrow(rs: seq<Answer>, src: Endpoint, ep: Endpoint)
    ensures AnswerCount(WithAnswer(rs, src, ep)) >= AnswerCount(rs)
    ensures Quorum(rs) ==> Quorum(WithAnswer(rs, src, ep))
  {
    var i := FindRequested(rs, src);
    if i < |rs| {
      MoreAnswers(rs, i, Answer(src, Some(ep)));
    }
  }

  lemma ReplyFrom(nodes: seq<Endpoint>, reports: set<Endpoint>, rs: seq<Answer>, src: Endpoint, ep: Endpoint)
    requires AskedAre(nodes, rs) && AnswersFrom(reports, rs)
    ensures AnswersFrom(reports + if src in nodes then {ep} else {}, WithAnswer(rs, src, ep))
  {
    var i := FindRequested(rs, src);
    if i < |rs| {
      assert nodes[i] == src;
    }
  }

  ghost predicate RunInv(nodes: seq<Endpoint>, reports: set<Endpoint>, b: BindingState) {
    AskedAre(nodes, b.answers) && AnswersFrom(reports, b.answers) && ResultInv(reports, b)
  }

  lemma ConcludeKeepsResult(nodes: seq<Endpoint>, reports: set<Endpoint>, b: BindingState, o: Consensus)
    requires RunInv(nodes, reports, b) && Allows(b.answers, false, o)
    ensures RunInv(nodes, reports, Conclude(b, o))
  {
    VoteOutcome(b.answers, o);
    var posts := Conclude(b, o).posts;
    assert posts == b.posts || posts == b.posts + [WinnerOf(o)];
  }

  lemma AnswerKeepsResult(nodes: seq<Endpoint>, reports: set<Endpoint>, b: BindingState, src: Endpoint, ep: Endpoint)
    requires RunInv(nodes, reports, b)
    ensures RunInv(nodes, reports + if src in nodes then {ep} else {}, b.(answers := WithAnswer(b.answers, src, ep)))
  {
    AnswersOnlyGrow(b.answers, src, ep);
    ReplyFrom(nodes, reports, b.answers, src, ep);
  }

  ghost function ReportOf(nodes: seq<Endpoint>, e: Event): set<Endpoint> {
    if e.Reply? && e.reported.Some? && e.src in nodes then {e.reported.value} else {}
  }

  lemma StepKeepsResult(nodes: seq<Endpoint>, reports: set<Endpoint>, b: BindingState, e: Event)
    requires RunInv(nodes, reports, b) && Enabled(b, e)
    ensures RunInv(nodes, reports + ReportOf(nodes, e), Next(b, e))
  {
    match e
    case Reply(src, reported, o) =>
      if reported.Some? {
        AnswerKeepsResult(nodes, reports, b, src, reported.value);
        if !o.OnHandling? {
          var b' := b.(answers := WithAnswer(b.answers, src, reported.value));
          ConcludeKeepsResult(nodes, reports + ReportOf(nodes, e), b', o);
        }
      }
    case TimerFires(o) => ConcludeKeepsResult(nodes, reports, b, o);
    case AsyncGet =>
  }

  /** The object never holds `pending`; a done endpoint, and any endpoint handed to the handler, is not a
      loopback address and was reported by a requested node, at least two fifths of which have answered. */
  lemma {:induction false} ResultIsGenuine(nodes: seq<Endpoint>, events: seq<Event>)
    requires Possible(nodes, events)
    ensures RunInv(nodes, Reports(nodes, events), After(nodes, events))
    decreases |events|
  {
    if events != [] {
      var front := events[..|events| - 1];
      ResultIsGenuine(nodes, front);
      StepKeepsResult(nodes, Reports(nodes, front), After(nodes, front), events[|events| - 1]);
    }
  }

  // ---------------------------------------------------------------- whether done lasts

  /** A done result is lost at exactly one kind of step: the timer's callback, run also when the timer was
      cancelled, while fewer public answers stand than the vote needs. */
  lemma DoneLostExactlyWhen(nodes: seq<Endpoint>, events: seq<Event>, e: Event)
    requires Possible(nodes, events) && After(nodes, events).sr.state == Done
    requires Enabled(After(nodes, events), e)
    ensures Next(After(nodes, events), e).sr.state != Done <==>
              e.TimerFires? && !EnoughPublic(After(nodes, events).answers)
  {
    ResultIsGenuine(nodes, events);
    StepFromDone(After(nodes, events), e);
  }

  lemma StepFromDone(b: BindingState, e: Event)
    requires b.sr.state == Done && Quorum(b.answers) && Enabled(b, e)
    ensures Next(b, e).sr.state != Done <==> e.TimerFires? && !EnoughPublic(b.answers)
  {
    match e
    case Reply(src, reported, o) =>
      if reported.Some? {
        VoteOutcome(WithAnswer(b.answers, src, reported.value), o);
      }
    case TimerFires(o) => VoteOutcome(b.answers, o);
    case AsyncGet =>
  }

  lemma OneMore(nodes: seq<Endpoint>, events: seq<Event>, e: Event)
    requires Possible(nodes, events) && Enabled(After(nodes, events), e)
    ensures Possible(nodes, events + [e]) && After(nodes, events + [e]) == Next(After(nodes, events), e)
  {
    assert (events + [e])[..|events|] == events;
  }

  /** It does happen: the only node asked answers with its public view, then with a loopback address, before
      the cancelled timer's callback runs. */
  lemma DoneCanBeLost(node: Endpoint, ep: Endpoint)
    requires !ep.IsLoopback()
    ensures var loop := Endpoint(127 * 0x100_0000 + 1, 0);
            var events := [Reply(node, Some(ep), ConsensusDone(ep)), Reply(node, Some(loop), OnHandling),
                           TimerFires(OnHandling)];
            && Possible([node], events)
            && After([node], events[..2]).sr == Sr(Done, ep, false)
            && After([node], events).sr.state == NotFound
  {
    var loop := Endpoint(127 * 0x100_0000 + 1, 0);
    var e1, e2 := Reply(node, Some(ep), ConsensusDone(ep)), Reply(node, Some(loop), OnHandling);
    var e3 := TimerFires(OnHandling);
    FirstReply(node, ep);
    OneAnswer(node, loop);
    OneMore([node], [e1], e2);
    OneMore([node], [e1, e2], e3);
    assert [e1, e2, e3][..2] == [e1, e2] == [e1] + [e2] && [e1, e2, e3] == [e1, e2] + [e3];
  }

  lemma FirstReply(node: Endpoint, ep: Endpoint)
    requires !ep.IsLoopback()
    ensures var events := [Reply(node, Some(ep), ConsensusDone(ep))];
            && Possible([node], events)
            && After([node], events) ==
                BindingState([Answer(node, Some(ep))], Sr(Done, ep, false), false, false, [], true)
  {
    OneAnswer(node, ep);
    OneMore([node], [], Reply(node, Some(ep), ConsensusDone(ep)));
  }

  lemma OneAnswer(node: Endpoint, ep: Endpoint)
    ensures var rs := [Answer(node, Some(ep))];
            && AnswerCount(rs) == 1
            && PublicAnswers(rs) == (if ep.IsLoopback() then [] else [ep])
            && (!ep.IsLoopback() ==> IsWinner(PublicAnswers(rs), ep))
            && forall a :: WithAnswer([Answer(node, a)], node, ep) == rs
  {
    var rs := [Answer(node, Some(ep))];
    assert rs[..0] == [];
  }

  /** A later reply may change the result after the handler was given the first one; it is not called again. */
  lemma ResultCanChange(node: Endpoint, first: Endpoint, second: Endpoint)
    requires !first.IsLoopback() && !second.IsLoopback()
    ensures var events := [AsyncGet, Reply(node, Some(first), ConsensusDone(first)),
                           Reply(node, Some(second), ConsensusDone(second))];
            && Possible([node], events)
            && After([node], events).sr == Sr(Done, second, true)
            && After([node], events).posts == [Some(first)]
  {
    var e1, e2 := AsyncGet, Reply(node, Some(first), ConsensusDone(first));
    var e3 := Reply(node, Some(second), ConsensusDone(second));
    FirstAsyncReply(node, first);
    OneAnswer(node, second);
    OneMore([node], [e1, e2], e3);
    assert [e1, e2] + [e3] == [e1, e2, e3];
  }

  lemma FirstAsyncReply(node: Endpoint, ep: Endpoint)
    requires !ep.IsLoopback()
    ensures var events := [AsyncGet, Reply(node, Some(ep), ConsensusDone(ep))];
            && Possible([node], events)
            && After([node], events) ==
                 BindingState([Answer(node, Some(ep))], Sr(Done, ep, true), true, false, [Some(ep)], true)
  {
    var e := Reply(node, Some(ep), ConsensusDone(ep));
    OneMore([node], [], AsyncGet);
    assert [] + [AsyncGet] == [AsyncGet];
    OneAnswer(node, ep);
    OneMore([node], [AsyncGet], e);
    assert [AsyncGet] + [e] == [AsyncGet, e];
  }

  /** Exactly when a reply leaves a done result as it is, whatever order the sort leaves ties in: it leaves too few
      public answers for a vote, or none but the present endpoint can win it. */
  lemma ReplyKeepsResultExactly(nodes: seq<Endpoint>, events: seq<Event>, src: Endpoint, ep: Endpoint)
    requires Possible(nodes, events) && After(nodes, events).sr.state == Done
    ensures var b := After(nodes, events);
            var rs := WithAnswer(b.answers, src, ep);
            (forall o :: Allows(rs, false, o) ==> Next(b, Reply(src, Some(ep), o)).sr == b.sr) <==>
              (EnoughPublic(rs) ==> forall x :: IsWinner(PublicAnswers(rs), x) ==> x == b.sr.ep)
  {
    var b := After(nodes, events);
    ResultIsGenuine(nodes, events);
    AnswersOnlyGrow(b.answers, src, ep);
    ReplyToDone(b, src, ep);
  }

  lemma OutcomeOnDone(b: BindingState, src: Endpoint, ep: Endpoint, o: Consensus)
    requires b.sr.state == Done && Allows(WithAnswer(b.answers, src, ep), false, o)
    ensures Next(b, Reply(src, Some(ep), o)).sr == b.sr <==> o.OnHandling? || o.ep == b.sr.ep
  {
    VoteOutcome(WithAnswer(b.answers, src, ep), o);
  }

  lemma ReplyToDone(b: BindingState, src: Endpoint, ep: Endpoint)
    requires b.sr.state == Done && Quorum(WithAnswer(b.answers, src, ep))
    ensures var rs := WithAnswer(b.answers, src, ep);
            (forall o :: Allows(rs, false, o) ==> Next(b, Reply(src, Some(ep), o)).sr == b.sr) <==>
              (EnoughPublic(rs) ==> forall x :: IsWinner(PublicAnswers(rs), x) ==> x == b.sr.ep)
  {
    var rs := WithAnswer(b.answers, src, ep);
    if EnoughPublic(rs) && !(forall x :: IsWinner(PublicAnswers(rs), x) ==> x == b.sr.ep) {
      var x :| IsWinner(PublicAnswers(rs), x) && x != b.sr.ep;
      assert Allows(rs, false, ConsensusDone(x));
      OutcomeOnDone(b, src, ep, ConsensusDone(x));
    } else {
      forall o | Allows(rs, false, o) ensures Next(b, Reply(src, Some(ep), o)).sr == b.sr {
        OutcomeOnDone(b, src, ep, o);
        VoteOutcome(rs, o);
      }
    }
  }

  ghost predicate NoLoopback(nodes: seq<Endpoint>, events: seq<Event>) {
    forall ep :: ep in Reports(nodes, events) ==> !ep.IsLoopback()
  }

  lemma {:induction false} AllPublic(rs: seq<Answer>)
    requires forall a :: a in rs && a.reported.Some? ==> !a.reported.value.IsLoopback()
    ensures |PublicAnswers(rs)| == AnswerCount(rs)
  {
    if rs != [] {
      AllPublic(rs[..|rs| - 1]);
      assert rs[|rs| - 1] in rs;
    }
  }

  /** If no requested node reports a loopback address, a done result is never lost. */
  lemma {:induction false} DoneStaysDone(nodes: seq<Endpoint>, events: seq<Event>, k: nat)
    requires nodes != [] && Possible(nodes, events) && NoLoopback(nodes, events)
    requires k <= |events| && After(nodes, events[..k]).sr.state == Done
    ensures After(nodes, events).sr.state == Done
    decreases |events|
  {
    if k == |events| {
      assert events[..k] == events;
    } else {
      var front, e := events[..|events| - 1], events[|events| - 1];
      assert front[..k] == events[..k];
      DoneStaysDone(nodes, front, k);
      ResultIsGenuine(nodes, front);
      AllPublic(After(nodes, front).answers);
      DoneLostExactlyWhen(nodes, front, e);
    }
  }

  // ---------------------------------------------------------------- asking a node twice

  ghost function Asked(nodes: seq<Endpoint>): set<Endpoint> {
    set x | x in nodes
  }

  /** Only the first request to a node can hold an answer. */
  ghost predicate FirstOnly(rs: seq<Answer>) {
    forall i, j :: 0 <= i < j < |rs| && rs[j].reported.Some? ==> rs[i].node != rs[j].node
  }

  ghost function Answered(rs: seq<Answer>): set<Endpoint> {
    set a | a in rs && a.reported.Some? :: a.node
  }

  lemma {:induction false} AnsweredCount(rs: seq<Answer>)
    requires FirstOnly(rs)
    ensures |Answered(rs)| == AnswerCount(rs)
  {
    if rs != [] {
      var front, last := rs[..|rs| - 1], rs[|rs| - 1];
      assert rs == front + [last];
      AnsweredCount(front);
      if last.reported.Some? {
        assert Answered(rs) == Answered(front) + {last.node};
        assert last.node !in Answered(front);
      } else {
        assert Answered(rs) == Answered(front);
      }
    }
  }

  lemma AnswerKeepsFirstOnly(rs: seq<Answer>, src: Endpoint, ep: Endpoint)
    requires FirstOnly(rs)
    ensures FirstOnly(WithAnswer(rs, src, ep))
  {
  }

  lemma StepKeepsFirstOnly(b: BindingState, e: Event)
    requires FirstOnly(b.answers)
    ensures FirstOnly(Next(b, e).answers)
  {
    if e.Reply? && e.reported.Some? {
      AnswerKeepsFirstOnly(b.answers, e.src, e.reported.value);
    }
  }

  lemma {:induction false} FirstOnlyAlways(nodes: seq<Endpoint>, events: seq<Event>)
    ensures FirstOnly(After(nodes, events).answers)
    decreases |events|
  {
    if events != [] {
      FirstOnlyAlways(nodes, events[..|events| - 1]);
      StepKeepsFirstOnly(After(nodes, events[..|events| - 1]), events[|events| - 1]);
    }
  }

  /** A node listed twice counts twice against the quorum but can answer once: when the distinct nodes are
      fewer than two fifths of the list, no run ever finds the endpoint. */
  lemma RepeatedTargetsNeverDone(nodes: seq<Endpoint>, events: seq<Event>)
    requires Possible(nodes, events)
    requires 5 * |Asked(nodes)| < 2 * |nodes|
    ensures After(nodes, events).sr.state != Done
  {
    var rs := After(nodes, events).answers;
    ResultIsGenuine(nodes, events);
    FirstOnlyAlways(nodes, events);
    AnsweredCount(rs);
    forall x | x in Answered(rs) ensures x in Asked(nodes) {
      var i :| 0 <= i < |rs| && rs[i].node == x;
      assert nodes[i] == x;
    }
    SubsetSize(Answered(rs), Asked(nodes));
  }

  // ---------------------------------------------------------------- when the endpoint can be found at all

  ghost predicate Uniform(rs: seq<Answer>, ep: Endpoint) {
    forall a :: a in rs && a.reported.Some? ==> a.reported.value == ep
  }

  /** The vote's outcome when everybody who answers says `ep`. */
  function Unanimous(rs: seq<Answer>, ep: Endpoint): Consensus {
    if Quorum(rs) && EnoughPublic(rs) then ConsensusDone(ep) else OnHandling
  }

  lemma OnlyCandidate(eps: seq<Endpoint>, ep: Endpoint)
    requires eps != [] && forall x :: x in eps ==> x == ep
    ensures IsWinner(eps, ep)
  {
    assert eps[0] in eps;
    forall x | x != ep ensures multiset(eps)[x] == 0 {
      assert x !in eps;
    }
  }

  lemma UnanimousAllowed(rs: seq<Answer>, ep: Endpoint)
    requires Uniform(rs, ep) && !ep.IsLoopback()
    ensures Allows(rs, false, Unanimous(rs, ep))
    ensures EnoughPublic(rs) <==> AnswerCount(rs) > 0
  {
    AllPublic(rs);
    if PublicAnswers(rs) != [] {
      OnlyCandidate(PublicAnswers(rs), ep);
    }
  }

  /** The first `k` listed nodes answer `ep`, in order. */
  ghost function AllReply(nodes: seq<Endpoint>, k: nat, ep: Endpoint): seq<Event>
    requires k <= |nodes|
  {
    if k == 0 then []
    else
      var before := AllReply(nodes, k - 1, ep);
      var rs := WithAnswer(After(nodes, before).answers, nodes[k - 1], ep);
      before + [Reply(nodes[k - 1], Some(ep), Unanimous(rs, ep))]
  }

  lemma AnsweredGrows(rs: seq<Answer>, src: Endpoint, ep: Endpoint)
    requires Uniform(rs, ep)
    ensures Uniform(WithAnswer(rs, src, ep), ep)
    ensures Answered(rs) <= Answered(WithAnswer(rs, src, ep))
    ensures FindRequested(rs, src) < |rs| ==> src in Answered(WithAnswer(rs, src, ep))
  {
    var i, after := FindRequested(rs, src), WithAnswer(rs, src, ep);
    forall x | x in Answered(rs) ensures x in Answered(after) {
      var j :| 0 <= j < |rs| && rs[j].reported.Some? && rs[j].node == x;
      assert after[j] in after;
    }
    if i < |rs| {
      assert after[i] in after;
    }
  }

  ghost predicate AllAnswered(nodes: seq<Endpoint>, k: nat, rs: seq<Answer>, ep: Endpoint)
    requires k <= |nodes|
  {
    AskedAre(nodes, rs) && Uniform(rs, ep) && forall j :: 0 <= j < k ==> nodes[j] in Answered(rs)
  }

  lemma OneMoreAnswer(nodes: seq<Endpoint>, k: nat, rs: seq<Answer>, ep: Endpoint)
    requires k < |nodes| && AllAnswered(nodes, k, rs, ep)
    ensures AllAnswered(nodes, k + 1, WithAnswer(rs, nodes[k], ep), ep)
  {
    assert rs[k].node == nodes[k];
    AnsweredGrows(rs, nodes[k], ep);
  }

  lemma UnanimousReply(b: BindingState, src: Endpoint, ep: Endpoint)
    requires Uniform(b.answers, ep) && !ep.IsLoopback()
    ensures var rs := WithAnswer(b.answers, src, ep);
            var e := Reply(src, Some(ep), Unanimous(rs, ep));
            && Enabled(b, e) && Next(b, e).answers == rs
            && (Quorum(rs) && EnoughPublic(rs) ==> Next(b, e).sr.state == Done)
  {
    AnsweredGrows(b.answers, src, ep);
    UnanimousAllowed(WithAnswer(b.answers, src, ep), ep);
  }

  lemma {:induction false} AllReplyRun(nodes: seq<Endpoint>, k: nat, ep: Endpoint)
    requires k <= |nodes| && !ep.IsLoopback()
    ensures Possible(nodes, AllReply(nodes, k, ep))
    ensures var b := After(nodes, AllReply(nodes, k, ep));
            && AllAnswered(nodes, k, b.answers, ep)
            && (k > 0 && Quorum(b.answers) && EnoughPublic(b.answers) ==> b.sr.state == Done)
  {
    if k > 0 {
      var before, src := AllReply(nodes, k - 1, ep), nodes[k - 1];
      AllReplyRun(nodes, k - 1, ep);
      var b := After(nodes, before);
      OneMoreAnswer(nodes, k - 1, b.answers, ep);
      UnanimousReply(b, src, ep);
      OneMore(nodes, before, Reply(src, Some(ep), Unanimous(WithAnswer(b.answers, src, ep), ep)));
    }
  }

  lemma EverybodySuffices(nodes: seq<Endpoint>, rs: seq<Answer>, ep: Endpoint)
    requires nodes != [] && 5 * |Asked(nodes)| >= 2 * |nodes| && !ep.IsLoopback()
    requires AllAnswered(nodes, |nodes|, rs, ep) && FirstOnly(rs)
    ensures Quorum(rs) && EnoughPublic(rs)
  {
    AnsweredCount(rs);
    assert nodes[0] in Answered(rs);
    assert Asked(nodes) <= Answered(rs);
    SubsetSize(Asked(nodes), Answered(rs));
    UnanimousAllowed(rs, ep);
  }

  /** Some run finds the endpoint exactly if the distinct nodes asked are at least two fifths of the list. */
  lemma DoneReachableExactly(nodes: seq<Endpoint>)
    ensures (exists events :: Possible(nodes, events) && After(nodes, events).sr.state == Done) <==>
              nodes != [] && 5 * |Asked(nodes)| >= 2 * |nodes|
  {
    if nodes != [] && 5 * |Asked(nodes)| >= 2 * |nodes| {
      EverybodyAnswers(nodes, Endpoint(0x0100_0000, 1));
    }
    forall events | Possible(nodes, events) && After(nodes, events).sr.state == Done
      ensures nodes != [] && 5 * |Asked(nodes)| >= 2 * |nodes|
    {
      ResultIsGenuine(nodes, events);
      if nodes == [] {
        NobodyReports(events);
      } else if 5 * |Asked(nodes)| < 2 * |nodes| {
        RepeatedTargetsNeverDone(nodes, events);
      }
    }
  }

  lemma {:induction false} NobodyReports(events: seq<Event>)
    ensures Reports([], events) == {}
    decreases |events|
  {
    if events != [] {
      NobodyReports(events[..|events| - 1]);
    }
  }

  lemma EverybodyAnswers(nodes: seq<Endpoint>, ep: Endpoint)
    requires nodes != [] && 5 * |Asked(nodes)| >= 2 * |nodes| && !ep.IsLoopback()
    ensures Possible(nodes, AllReply(nodes, |nodes|, ep))
    ensures After(nodes, AllReply(nodes, |nodes|, ep)).sr.state == Done
  {
    var events := AllReply(nodes, |nodes|, ep);
    AllReplyRun(nodes, |nodes|, ep);
    FirstOnlyAlways(nodes, events);
    EverybodySuffices(nodes, After(nodes, events).answers, ep);
  }

  // ---------------------------------------------------------------- the objects

  class SrObject {
    var state: SrState
    var globalEp: Endpoint
    var isAsync: bool

    constructor ()
      ensures Value() == Sr(NotFound, NO_ENDPOINT, false)
    {
      state, globalEp, isAsync := NotFound, NO_ENDPOINT, false;
    }

    function Value(): Sr
      reads this
    {
      Sr(state, globalEp, isAsync)
    }

    method AsyncGet()
      modifies this
      ensures Value() == old(Value()).(isAsync := true)
    {
      isAsync := true;
    }

    method UpdateState(s: SrState, ep: Option<Endpoint>)
      modifies this
      ensures Value() == Written(old(Value()), s, ep)
      ensures state == (if s == Done && ep.Some? then Done else NotFound) && isAsync == old(isAsync)
      ensures globalEp == if s == Done && ep.Some? then ep.value else old(globalEp)
    {
      if s == Done && ep.Some? {
        state := Done;
        globalEp := ep.value;
      } else {
        state := NotFound;
      }
    }
  }

  class BindingRequest {
    const sr: SrObject
    var responses: seq<Answer>
    var isHandlerCalled: bool
    var isTimeout: bool
    var posted: seq<Option<Endpoint>>   // handler calls given to the io context
    ghost var waiting: bool             // the timer's completion is still to come

    /** Construction and `init` together: the timer is armed and the object set to pending, hence not found. */
    constructor (sr: SrObject)
      modifies sr
      ensures this.sr == sr && sr.Value() == Written(old(sr.Value()), Pending, None)
      ensures State() == BindingState([], sr.Value(), false, false, [], true)
    {
      this.sr := sr;
      responses, isHandlerCalled, isTimeout, posted := [], false, false, [];
      waiting := true;
      new;
      sr.UpdateState(Pending, None);
    }

    ghost function State(): BindingState
      reads this, sr
    {
      BindingState(responses, sr.Value(), isHandlerCalled, isTimeout, posted, waiting)
    }

    method AddRequestedEp(ep: Endpoint)
      modifies this
      ensures State() == old(State()).(answers := old(responses) + [Answer(ep, None)])
    {
      responses := responses + [Answer(ep, None)];
    }

    method AddResponse(src: Endpoint, ep: Endpoint)
      modifies this
      ensures State() == old(State()).(answers := WithAnswer(old(responses), src, ep))
    {
      var i: nat := 0;
      while i < |responses| && responses[i].node != src
        invariant i <= FindRequested(responses, src)
        invariant responses == old(responses)
      {
        i := i + 1;
      }
      if i == |responses| { return; }
      responses := responses[i := Answer(src, Some(ep))];
    }

    method GlobalEpConsensus(isForce: bool) returns (ret: Consensus)
      ensures Allows(responses, isForce, ret) && Elected(responses, isForce, ret)
    {
      forall o ensures Allows(responses, isForce, o) <==> Elected(responses, isForce, o) {
        ConsensusByIndex(responses, isForce, o);
      }
      var responseCount := CountResponses(responses);
      if 5 * responseCount < 2 * |responses| { return OnHandling; }
      var vliGlobalEps := SelectPublic(responses);
      if !isForce {
        if |vliGlobalEps| < Max(responseCount / 3, 1) { return OnHandling; }
      } else {
        if |vliGlobalEps| == 0 { return ErrorDone; }
      }
      var ep := MostReported(vliGlobalEps);
      ret := ConsensusDone(ep);
    }

    method UpdateSr(o: Consensus)
      modifies sr
      ensures sr.Value() == SrAfter(old(sr.Value()), o)
    {
      match o
      case ConsensusDone(ep) => sr.UpdateState(Done, Some(ep));
      case ErrorDone => sr.UpdateState(NotFound, None);
      case OnHandling => sr.UpdateState(Pending, None);
    }

    method Settle(o: Consensus)
      modifies this, sr
      ensures State() == Conclude(old(State()), o)
    {
      UpdateSr(o);
      if sr.isAsync && !isHandlerCalled {
        posted := posted + [WinnerOf(o)];
        isHandlerCalled := true;
      }
    }

    /** A response; without an endpoint in it nothing happens. Cancelling the timer leaves its callback to run. */
    method IncomeMessage(src: Endpoint, reported: Option<Endpoint>) returns (ghost o: Consensus)
      modifies this, sr
      ensures Enabled(old(State()), Reply(src, reported, o))
      ensures State() == Next(old(State()), Reply(src, reported, o))
    {
      o := OnHandling;
      if reported.None? { return; }
      AddResponse(src, reported.value);
      var cctx := GlobalEpConsensus(false);
      o := cctx;
      if cctx.OnHandling? { return; }
      Settle(cctx);
    }

    /** Runs the vote whatever the timer's error code, so also after a cancellation. */
    method OnTimeout() returns (ghost o: Consensus)
      requires waiting
      modifies this, sr
      ensures Enabled(old(State()), TimerFires(o))
      ensures State() == Next(old(State()), TimerFires(o))
    {
      var cctx := GlobalEpConsensus(false);
      o := cctx;
      Settle(cctx);
      isTimeout := true;
      waiting := false;
    }
  }

  method CountResponses(rs: seq<Answer>) returns (n: nat)
    ensures n == AnswerCount(rs)
  {
    n := 0;
    for i := 0 to |rs|
      invariant n == AnswerCount(rs[..i])
    {
      assert rs[..i + 1][..i] == rs[..i];
      if rs[i].reported.Some? { n := n + 1; }
    }
    assert rs[..|rs|] == rs;
  }

  method SelectPublic(rs: seq<Answer>) returns (eps: seq<Endpoint>)
    ensures eps == PublicAnswers(rs)
  {
    eps := [];
    for i := 0 to |rs|
      invariant eps == PublicAnswers(rs[..i])
    {
      assert rs[..i + 1][..i] == rs[..i];
      if IsPublic(rs[i]) { eps := eps + [rs[i].reported.value]; }
    }
    assert rs[..|rs|] == rs;
  }

  /** Tally the votes, then take the front of a sort by count: any endpoint none outnumbers. */
  method MostReported(eps: seq<Endpoint>) returns (ep: Endpoint)
    requires eps != []
    ensures ep in eps && forall x :: multiset(eps)[x] <= multiset(eps)[ep]
  {
    var counter: map<Endpoint, nat> := map[];
    for i := 0 to |eps|
      invariant forall x :: x in counter <==> x in eps[..i]
      invariant forall x :: x in counter ==> counter[x] == multiset(eps[..i])[x]
    {
      var seen := if eps[i] in counter then counter[eps[i]] else 0;
      assert eps[..i + 1] == eps[..i] + [eps[i]];
      counter := counter[eps[i] := seen + 1];
    }
    assert eps[..|eps|] == eps;
    assert eps[0] in counter.Keys;
    MaximumExists(counter, counter.Keys);
    ep :| ep in counter.Keys && forall x :: x in counter.Keys ==> counter[x] <= counter[ep];
  }

  lemma {:induction false} MaximumExists(counter: map<Endpoint, nat>, keys: set<Endpoint>)
    requires keys != {} && keys <= counter.Keys
    ensures exists m :: m in keys && forall x :: x in keys ==> counter[x] <= counter[m]
  {
    var k :| k in keys;
    var rest := keys - {k};
    if rest == {} {
      assert keys == rest + {k};
    } else {
      MaximumExists(counter, rest);
      var m :| m in rest && forall x :: x in rest ==> counter[x] <= counter[m];
      var best := if counter[m] < counter[k] then k else m;
      assert forall x :: x in keys ==> x == k || x in rest;
      assert best in keys && forall x :: x in keys ==> counter[x] <= counter[best];
    }
  }
}
