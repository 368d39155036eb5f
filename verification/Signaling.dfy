/** Signaling: the message, the server every node runs, and the observer at the source
    (src/ss_p2p/ice_agent/signaling_server.cpp, ice_observer.cpp, ice_agent.cpp, ice_message.cpp). */
module Signaling {
  import opened NodeIds
  import opened Nodes
  import opened Tables
  import opened Controllers

  const SIGNALING_TTL: int := 5
  const FORWARD_COUNT: nat := 3

  datatype SubProtocol = Request | Response | Relay

  /** What a signaling message carries; `obs` is the id of the source's request observer. */
  datatype Signal = Signal(sub: SubProtocol, relays: seq<Endpoint>, ttl: int, src: Endpoint, dest: Endpoint, obs: nat)

  datatype Packet = Packet(to: Endpoint, msg: Signal)

  /** What is sent outside the signaling protocol: the dummy that opens the NAT, and application payloads. */
  datatype Plain =
    | Dummy(to: Endpoint)
    | Payload(to: Endpoint, param: string, body: string)

  /** A node's routing table at one moment: the id it was built with, and its contents. */
  datatype View = View(selfId: NodeId, table: Table)

  predicate Knows(idOf: IdOf, v: View, ep: Endpoint) {
    Contains(v.table[SlotOf(v.selfId, idOf(ep))], idOf(ep))
  }

  function Addressed(to: seq<Endpoint>, msg: Signal): (r: seq<Packet>)
    ensures |r| == |to|
    ensures forall i :: 0 <= i < |to| ==> r[i] == Packet(to[i], msg)
  {
    seq(|to|, i requires 0 <= i < |to| => Packet(to[i], msg))
  }

  /** The message once `me` has put itself on the relay list. */
  function Relayed(me: Endpoint, m: Signal): Signal {
    m.(relays := m.relays + [me], sub := Relay)
  }

  function ForwardTo(idOf: IdOf, v: View, me: Endpoint, m: Signal): seq<Endpoint> {
    CollectEndpoints(idOf, v.selfId, v.table, m.dest, FORWARD_COUNT, m.relays + [me])
  }

  /** The message as flooded: the targets are on the relay list too. */
  function Flooded(idOf: IdOf, v: View, me: Endpoint, m: Signal): Signal {
    Relayed(me, m).(relays := m.relays + [me] + ForwardTo(idOf, v, me, m))
  }

  /** What the server at `me` sends for a message: a response if it is the destination, one copy straight to
      a destination it knows, or copies to the nodes it collects. The TTL is read but never lowered. */
  function ServerSends(idOf: IdOf, v: View, me: Endpoint, m: Signal): seq<Packet> {
    if m.dest == me then [Packet(m.src, m.(sub := Response))]
    else if Knows(idOf, v, m.dest) then [Packet(m.dest, Relayed(me, m))]
    else if m.ttl <= 0 then []
    else Addressed(ForwardTo(idOf, v, me, m), Flooded(idOf, v, me, m))
  }

  // ---------------------------------------------------------------- observers and dispatch

  datatype Role = RequestRole | ResponseRole | RelayRole

  datatype Observer = Observer(at: Endpoint, role: Role, id: nat)

  /** The observer the server stores for a message, under a fresh id; none for an exhausted TTL. */
  function ServerStores(idOf: IdOf, v: View, me: Endpoint, m: Signal, id: nat): set<Observer> {
    if m.dest == me then {Observer(me, ResponseRole, id)}
    else if Knows(idOf, v, m.dest) || m.ttl > 0 then {Observer(me, RelayRole, id)}
    else {}
  }

  datatype Handler = ToRequest | Absorbed | ToServer

  /** The agent's lookup by observer id: relay, request, response, else the server. */
  function Dispatch(observers: set<Observer>, me: Endpoint, id: nat): Handler {
    if Observer(me, RelayRole, id) in observers then Absorbed
    else if Observer(me, RequestRole, id) in observers then ToRequest
    else if Observer(me, ResponseRole, id) in observers then Absorbed
    else ToServer
  }

  // ---------------------------------------------------------------- the objects

  /** The message body, edited in place through its controller. */
  class IceMessage {
    var body: Signal

    constructor (body: Signal)
      ensures this.body == body
    {
      this.body := body;
    }

    method AddRelayEndpoint(ep: Endpoint)
      modifies this
      ensures body == old(body).(relays := old(body).relays + [ep])
    {
      body := body.(relays := body.relays + [ep]);
    }

    method SetSubProtocol(p: SubProtocol)
      modifies this
      ensures body == old(body).(sub := p)
    {
      body := body.(sub := p);
    }
  }

  class SignalingServer {
    const controller: DirectRoutingTableController
    var globSelfEp: Endpoint
    var sent: seq<Packet>          // signaling messages handed to the socket
    var plain: seq<Plain>          // everything else handed to it
    var observers: set<Observer>   // what was added to this node's storage

    constructor (controller: DirectRoutingTableController, globSelfEp: Endpoint)
      ensures this.controller == controller && this.globSelfEp == globSelfEp
      ensures sent == [] && plain == [] && observers == {}
    {
      this.controller := controller;
      this.globSelfEp := globSelfEp;
      sent, plain, observers := [], [], {};
    }

    ghost function CurrentView(): View
      requires controller.routingTable.Shaped()
      reads controller.routingTable.buckets
    {
      View(controller.routingTable.selfId, controller.routingTable.Contents())
    }

    method AsyncIceSend(to: Endpoint, ice: IceMessage)
      modifies this`sent
      ensures sent == old(sent) + [Packet(to, ice.body)]
    {
      sent := sent + [Packet(to, ice.body)];
    }

    method AsyncSend(datagram: Plain)
      modifies this`plain
      ensures plain == old(plain) + [datagram]
    {
      plain := plain + [datagram];
    }

    method InTable(ep: Endpoint) returns (known: bool)
      requires controller.routingTable.Valid()
      ensures known <==> Knows(controller.idOf, CurrentView(), ep)
    {
      known := controller.IsExist(ep);
      OneBucketLookup(controller.routingTable.selfId, controller.routingTable.Contents(), controller.idOf(ep));
    }

    /** Answers, relays or floods one message, adding to its relay list on the way. */
    method IncomeMessage(ice: IceMessage, id: nat)
      requires controller.routingTable.Valid()
      modifies this`sent, this`observers, ice
      ensures sent == old(sent) + ServerSends(controller.idOf, CurrentView(), globSelfEp, old(ice.body))
      ensures observers == old(observers) + ServerStores(controller.idOf, CurrentView(), globSelfEp, old(ice.body), id)
    {
      if ice.body.dest == globSelfEp {
        Respond(ice, id);
        return;
      }
      ice.AddRelayEndpoint(globSelfEp);
      ice.SetSubProtocol(Relay);
      PassOn(ice, id);
    }

    /** The answer of the destination. */
    method Respond(ice: IceMessage, id: nat)
      modifies this`sent, this`observers, ice
      ensures sent == old(sent) + [Packet(old(ice.body).src, old(ice.body).(sub := Response))]
      ensures observers == old(observers) + {Observer(globSelfEp, ResponseRole, id)}
    {
      ice.SetSubProtocol(Response);
      AsyncIceSend(ice.body.src, ice);
      observers := observers + {Observer(globSelfEp, ResponseRole, id)};
    }

    /** A message already marked as relayed by this node: straight to a destination it knows, else to the nodes it
        collects while the TTL lasts. */
    method PassOn(ice: IceMessage, id: nat)
      requires controller.routingTable.Valid()
      modifies this`sent, this`observers, ice
      ensures var m, v := old(ice.body), CurrentView();
              var known := Knows(controller.idOf, v, m.dest);
              var targets := CollectEndpoints(controller.idOf, v.selfId, v.table, m.dest, FORWARD_COUNT, m.relays);
              && sent == old(sent) + (if known then [Packet(m.dest, m)] else if m.ttl <= 0 then []
                                      else Addressed(targets, m.(relays := m.relays + targets)))
              && observers == old(observers) + if known || m.ttl > 0 then {Observer(globSelfEp, RelayRole, id)} else {}
    {
      var known := InTable(ice.body.dest);
      if known {
        AsyncIceSend(ice.body.dest, ice);
      } else if ice.body.ttl <= 0 {
        return;
      } else {
        Forward(ice);
      }
      observers := observers + {Observer(globSelfEp, RelayRole, id)};
    }

    /** Collect the targets, record them all, then send each a copy. */
    method Forward(ice: IceMessage)
      requires controller.routingTable.Valid()
      modifies this`sent, ice
      ensures var targets := CollectEndpoints(controller.idOf, CurrentView().selfId, CurrentView().table,
                                              old(ice.body).dest, FORWARD_COUNT, old(ice.body).relays);
              sent == old(sent) + Addressed(targets, old(ice.body).(relays := old(ice.body).relays + targets))
    {
      var forwardEps := controller.CollectEndpoint(ice.body.dest, FORWARD_COUNT, ice.body.relays);
      AddTargets(ice, forwardEps);
      SendCopies(forwardEps, ice);
    }

    method AddTargets(ice: IceMessage, targets: seq<Endpoint>)
      modifies ice
      ensures ice.body == old(ice.body).(relays := old(ice.body).relays + targets)
    {
      for i := 0 to |targets|
        invariant ice.body == old(ice.body).(relays := old(ice.body).relays + targets[..i])
      {
        ice.AddRelayEndpoint(targets[i]);
      }
      assert targets[..|targets|] == targets;
    }

    method SendCopies(targets: seq<Endpoint>, ice: IceMessage)
      modifies this`sent
      ensures sent == old(sent) + Addressed(targets, ice.body)
    {
      for i := 0 to |targets|
        invariant sent == old(sent) + Addressed(targets, ice.body)[..i]
      {
        AsyncIceSend(targets[i], ice);
      }
    }
  }

  // ---------------------------------------------------------------- the source

  /** The request observer: whether the traversal is done, payload sends not yet completed, and all of them. */
  datatype RequestState = RequestState(done: bool, pending: nat, payloads: nat)

  /** A response (or, for a request to oneself, any copy) makes the source send its payload, unless done. */
  function SourceHandles(r: RequestState, me: Endpoint, m: Signal): RequestState {
    if !r.done && (m.sub == Response || m.dest == me)
    then r.(pending := r.pending + 1, payloads := r.payloads + 1)
    else r
  }

  function FirstSignal(src: Endpoint, dest: Endpoint, obs: nat): Signal {
    Signal(Request, [], SIGNALING_TTL, src, dest, obs)
  }

  /** The copies a request starts with. */
  function LaunchSends(idOf: IdOf, v: View, src: Endpoint, dest: Endpoint, obs: nat): seq<Packet> {
    Addressed(CollectEndpoints(idOf, v.selfId, v.table, dest, FORWARD_COUNT, []), FirstSignal(src, dest, obs))
  }

  class SignalingRequest {
    const server: SignalingServer
    const id: nat
    var msgCache: Plain
    var done: bool
    ghost var state: RequestState

    constructor (server: SignalingServer, id: nat)
      ensures this.server == server && this.id == id && Valid() && state == RequestState(false, 0, 0)
      ensures fresh(this)
    {
      this.server := server;
      this.id := id;
      msgCache, done := Payload(Endpoint(0, 0), "", ""), false;
      state := RequestState(false, 0, 0);
    }

    ghost predicate Valid()
      reads this
    {
      done == state.done
    }

    /** A dummy to the destination, the payload kept for later, and the first copies, with an empty relay list, to
        the nodes collected for the destination. */
    method Init(dest: Endpoint, param: string, body: string)
      requires server.controller.routingTable.Valid()
      modifies this`msgCache, server`sent, server`plain
      ensures msgCache == Payload(dest, param, body)
      ensures server.plain == old(server.plain) + [Dummy(dest)]
      ensures server.sent == old(server.sent) +
                LaunchSends(server.controller.idOf, server.CurrentView(), server.globSelfEp, dest, id)
    {
      server.AsyncSend(Dummy(dest));
      msgCache := Payload(dest, param, body);
      var ice := new IceMessage(FirstSignal(server.globSelfEp, dest, id));
      var forwardEps := server.controller.CollectEndpoint(dest, FORWARD_COUNT, []);
      server.SendCopies(forwardEps, ice);
    }

    method IncomeMessage(m: Signal)
      requires Valid()
      modifies this`state, server`plain
      ensures Valid() && state == SourceHandles(old(state), server.globSelfEp, m)
      ensures server.plain == old(server.plain) + if state == old(state) then [] else [msgCache]
      ensures old(done) ==> state == old(state) && server.plain == old(server.plain)
    {
      if done { return; }
      if m.sub == Response {
        SendPayload();
        return;
      }
      if m.dest != server.globSelfEp { return; }
      SendPayload();
    }

    method SendPayload()
      requires Valid()
      modifies this`state, server`plain
      ensures Valid() && server.plain == old(server.plain) + [msgCache]
      ensures state == old(state).(pending := old(state).pending + 1, payloads := old(state).payloads + 1)
    {
      server.AsyncSend(msgCache);
      state := state.(pending := state.pending + 1, payloads := state.payloads + 1);
    }

    method OnTraversalDone()
      requires Valid() && state.pending > 0
      modifies this`done, this`state
      ensures Valid() && state == old(state).(done := true, pending := old(state).pending - 1)
    {
      done := true;
      state := state.(done := true, pending := state.pending - 1);
    }
  }

  /** A known destination gets the payload directly; otherwise a request is launched and its observer stored. */
  method SignalingSend(server: SignalingServer, dest: Endpoint, param: string, body: string, id: nat)
    returns (direct: bool)
    requires server.controller.routingTable.Valid()
    modifies server`sent, server`plain, server`observers
    ensures direct <==> Knows(server.controller.idOf, server.CurrentView(), dest)
    ensures direct ==> server.sent == old(server.sent) && server.observers == old(server.observers)
    ensures direct ==> server.plain == old(server.plain) + [Payload(dest, param, body)]
    ensures !direct ==>
              && server.sent == old(server.sent) +
                   LaunchSends(server.controller.idOf, server.CurrentView(), server.globSelfEp, dest, id)
              && server.observers == old(server.observers) + {Observer(server.globSelfEp, RequestRole, id)}
              && server.plain == old(server.plain) + [Dummy(dest)]
  {
    direct := server.InTable(dest);
    if direct {
      server.AsyncSend(Payload(dest, param, body));
      return;
    }
    var request := new SignalingRequest(server, id);
    request.Init(dest, param, body);
    server.observers := server.observers + {Observer(server.globSelfEp, RequestRole, id)};
  }
}
