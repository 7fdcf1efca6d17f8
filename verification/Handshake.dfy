/** Setting up a session (RFC 9174, sections 4.2 to 4.7): the contact stage and the session
    initialisation stage of two peers over two byte streams. The active peer speaks first in each
    stage, the passive peer answers. */
module Handshake {
  import opened Bytes
  import opened Endpoint
  import opened Messages
  import opened Streams

  datatype Configuration = Configuration(activePeer: bool, contactFlags: u8, keepalive: u16,
                                         segmentMru: u64, transferMru: u64, nodeId: EndpointID)

  /** A stage ends with an error, or because the session is closed down. */
  datatype Health = Running | ClosedDown | Broken

  /** A peer: how many messages it has sent and received, the SESS_INIT it has received, and the
      State that the stages fill. */
  datatype Peer = Peer(config: Configuration, sent: nat, received: nat, health: Health, heard: Message,
                       contactFlags: u8, keepalive: u16, segmentMtu: u64, transferMtu: u64, peerNodeId: EndpointID)

  function NewPeer(config: Configuration): Peer {
    Peer(config, 0, 0, Running, Keepalive, 0, 0, 0, 0, NoType)
  }

  /** The contact header, then the SESS_INIT. */
  function Says(config: Configuration, k: nat): Message {
    if k == 0 then Contact(config.contactFlags)
    else SessInit(config.keepalive, config.segmentMru, config.transferMru, Uri(config.nodeId))
  }

  /** Both stages are over. */
  predicate Finished(p: Peer) { p.health == Running && p.sent == 2 && p.received == 2 }

  /** Whether the stage is about to write to its channel. */
  predicate Sends(p: Peer) {
    p.health == Running && p.sent < 2 && if p.config.activePeer then p.sent == p.received else p.sent < p.received
  }

  /** Whether the stage waits for a message or the close channel. */
  predicate Waits(p: Peer) {
    p.health == Running && p.received < 2 && if p.config.activePeer then p.received < p.sent else p.received == p.sent
  }

  function MinKeepalive(a: u16, b: u16): u16 { if a < b then a else b }

  /** The end of the session initialisation stage. */
  function Negotiated(p: Peer): Peer
    requires p.heard.SessInit?
  {
    var q := p.(keepalive := MinKeepalive(p.config.keepalive, p.heard.keepalive),
                segmentMtu := p.heard.segmentMru, transferMtu := p.heard.transferMru);
    match NewEndpointID(p.heard.nodeId)
    case Ok(e) => q.(peerNodeId := e)
    case Err => q.(health := Broken)
  }

  function AfterSend(p: Peer): Peer
    requires Sends(p) && (p.sent == 1 && !p.config.activePeer ==> p.heard.SessInit?)
  {
    var q := p.(sent := p.sent + 1);
    if q.sent == 2 && !q.config.activePeer then Negotiated(q) else q
  }

  function AfterReceive(p: Peer, m: Message): Peer
    requires Waits(p)
  {
    if p.received == 0 then
      if m.Contact? then p.(received := 1, contactFlags := m.contactFlags) else p.(health := Broken)
    else
      if !m.SessInit? then p.(health := Broken)
      else
        var q := p.(received := 2, heard := m);
        if q.config.activePeer then Negotiated(q) else q
  }

  class Session {
    const config: Configuration
    var sent: nat
    var received: nat
    var health: Health
    var heard: Message
    var contactFlags: u8
    var keepalive: u16
    var segmentMtu: u64
    var transferMtu: u64
    var peerNodeId: EndpointID

    function Value(): Peer
      reads this
    {
      Peer(config, sent, received, health, heard, contactFlags, keepalive, segmentMtu, transferMtu, peerNodeId)
    }

    /** NewStageHandler. */
    constructor (config: Configuration)
      ensures Value() == NewPeer(config)
    {
      this.config := config;
      sent, received, health, heard := 0, 0, Running, Keepalive;
      contactFlags, keepalive, segmentMtu, transferMtu, peerNodeId := 0, 0, 0, 0, NoType;
    }

    /** The message a stage sends, through the message switch onto the stream. */
    method Send(w: Writer)
      requires Sends(Value()) && (sent == 1 && !config.activePeer ==> heard.SessInit?)
      modifies this, w
      ensures Value() == AfterSend(old(Value()))
      ensures sent == old(sent) + 1 && received == old(received) && heard == old(heard)
      ensures sent == 1 || config.activePeer ==> health == old(health) && peerNodeId == old(peerNodeId)
      ensures w.out == old(w.out) + MessageBytes(Says(config, old(sent)))
    {
      Marshal(Says(config, sent), w);
      sent := sent + 1;
      if sent == 2 && !config.activePeer {
        Negotiate();
      }
    }

    /** receiveMsgOrClose when a message is there, and what the stage does with it. */
    method Receive(msg: Message)
      requires Waits(Value())
      modifies this
      ensures Value() == AfterReceive(old(Value()), msg)
      ensures old(received) == 0 ==>
        (health.Broken? <==> !msg.Contact?)
        && (msg.Contact? ==> received == 1 && contactFlags == msg.contactFlags && heard == old(heard))
      ensures old(received) == 1 && !msg.SessInit? ==> health.Broken? && received == 1
      ensures old(received) == 1 && msg.SessInit? ==> received == 2 && heard == msg
      ensures sent == old(sent)
    {
      if received == 0 {
        if msg.Contact? {
          received, contactFlags := 1, msg.contactFlags;
        } else {
          health := Broken;
        }
      } else if msg.SessInit? {
        received, heard := 2, msg;
        if config.activePeer {
          Negotiate();
        }
      } else {
        health := Broken;
      }
    }

    method Negotiate()
      requires heard.SessInit?
      modifies this
      ensures Value() == Negotiated(old(Value()))
      ensures keepalive <= config.keepalive && keepalive <= heard.keepalive
      ensures keepalive == config.keepalive || keepalive == heard.keepalive
      ensures segmentMtu == heard.segmentMru && transferMtu == heard.transferMru
      ensures NewEndpointID(heard.nodeId).Err? ==> health.Broken?
      ensures NewEndpointID(heard.nodeId).Ok? ==>
        health == old(health) && peerNodeId == NewEndpointID(heard.nodeId).value
    {
      keepalive := MinKeepalive(config.keepalive, heard.keepalive);
      segmentMtu := heard.segmentMru;
      transferMtu := heard.transferMru;
      var e := NewEndpointID(heard.nodeId);
      match e
      case Ok(id) => peerNodeId := id;
      case Err => health := Broken;
    }
  }

  /* ---- two peers ---- */

  /** The octets on their way to each side are named after the side they go to. */
  datatype Link = Link(active: Peer, passive: Peer, toActive: seq<byte>, toPassive: seq<byte>)

  datatype Event = ActiveSends | ActiveReceives | ActiveCloses | PassiveSends | PassiveReceives | PassiveCloses

  predicate IsClose(e: Event) { e == ActiveCloses || e == PassiveCloses }

  predicate CanSend(p: Peer) { Sends(p) && (p.sent == 1 && !p.config.activePeer ==> p.heard.SessInit?) }

  predicate CanReceive(p: Peer, incoming: seq<byte>) { Waits(p) && ReadMessage(incoming).Done? }

  predicate Can(l: Link, e: Event) {
    match e
    case ActiveSends => CanSend(l.active)
    case PassiveSends => CanSend(l.passive)
    case ActiveReceives => CanReceive(l.active, l.toActive)
    case PassiveReceives => CanReceive(l.passive, l.toPassive)
    case ActiveCloses => Waits(l.active)
    case PassiveCloses => Waits(l.passive)
  }

  function Move(l: Link, e: Event): Link
    requires Can(l, e)
  {
    match e
    case ActiveSends =>
      l.(active := AfterSend(l.active), toPassive := l.toPassive + MessageBytes(Says(l.active.config, l.active.sent)))
    case PassiveSends =>
      l.(passive := AfterSend(l.passive), toActive := l.toActive + MessageBytes(Says(l.passive.config, l.passive.sent)))
    case ActiveReceives =>
      var p := ReadMessage(l.toActive);
      l.(active := AfterReceive(l.active, p.value), toActive := p.rest)
    case PassiveReceives =>
      var p := ReadMessage(l.toPassive);
      l.(passive := AfterReceive(l.passive, p.value), toPassive := p.rest)
    case ActiveCloses => l.(active := l.active.(health := ClosedDown))
    case PassiveCloses => l.(passive := l.passive.(health := ClosedDown))
  }

  function Run(l: Link, events: seq<Event>): Result<Link> {
    if events == [] then Ok(l)
    else
      match Run(l, events[..|events| - 1])
      case Err => Err
      case Ok(m) => if Can(m, events[|events| - 1]) then Ok(Move(m, events[|events| - 1])) else Err
  }

  function NewLink(a: Configuration, p: Configuration): Link {
    Link(NewPeer(a), NewPeer(p), [], [])
  }

  /* ---- the invariant ---- */

  /** A node ID that prints to something the other side can parse, in fewer than 2^16 octets. */
  predicate Presentable(c: Configuration) {
    Valid(c.nodeId) && |Uri(c.nodeId)| < 0x1_0000
  }

  /** What is on the wire when one side has sent n messages and the other has received k of them. */
  function InTransit(c: Configuration, k: nat, n: nat): seq<byte>
    requires k <= n <= 2
  {
    if k == n then []
    else if k == 1 then MessageBytes(Says(c, 1))
    else if n == 1 then MessageBytes(Says(c, 0))
    else MessageBytes(Says(c, 0)) + MessageBytes(Says(c, 1))
  }

  /** What a peer has learned from the messages it has received. */
  predicate Learned(p: Peer, other: Configuration) {
    && (p.received >= 1 ==> p.contactFlags == other.contactFlags)
    && (p.received == 2 ==> p.heard == Says(other, 1))
    && (Finished(p) ==> Agreed(p, other))
  }

  /** The outcome both documents and code promise: the smaller keepalive, the other's limits as
      own maxima, and the other's node ID. */
  predicate Agreed(p: Peer, other: Configuration) {
    && !other.nodeId.NoType?
    && p.contactFlags == other.contactFlags
    && p.keepalive == MinKeepalive(p.config.keepalive, other.keepalive)
    && p.segmentMtu == other.segmentMru && p.transferMtu == other.transferMru
    && p.peerNodeId == Canon(other.nodeId)
  }

  /** Nothing breaks, active and passive alternate, the wires hold what was sent and not yet
      received, and each peer has learned what it received. */
  predicate Inv(l: Link) {
    && Presentable(l.active.config) && Presentable(l.passive.config)
    && l.active.config.activePeer && !l.passive.config.activePeer
    && l.active.health != Broken && l.passive.health != Broken
    && l.active.received <= l.active.sent <= l.active.received + 1 && l.active.sent <= 2
    && l.passive.sent <= l.passive.received <= l.passive.sent + 1 && l.passive.received <= 2
    && l.passive.received <= l.active.sent && l.active.received <= l.passive.sent
    && l.toPassive == InTransit(l.active.config, l.passive.received, l.active.sent)
    && l.toActive == InTransit(l.passive.config, l.active.received, l.passive.sent)
    && Learned(l.active, l.passive.config) && Learned(l.passive, l.active.config)
  }

  lemma SaysRead(c: Configuration, k: nat, rest: seq<byte>)
    requires Presentable(c) && k <= 1
    ensures ReadMessage(MessageBytes(Says(c, k)) + rest) == Done(Says(c, k), rest)
  {
    hide ReadMessage, MessageBytes, Uri;
    MessageRoundTrip(Says(c, k), rest);
  }

  /** The first message on a wire is the next one to receive. */
  lemma TransitRead(c: Configuration, k: nat, n: nat)
    requires Presentable(c) && k < n <= 2
    ensures ReadMessage(InTransit(c, k, n)) == Done(Says(c, k), InTransit(c, k + 1, n))
  {
    hide ReadMessage, MessageBytes, Says, Presentable;
    assert MessageBytes(Says(c, k)) + [] == MessageBytes(Says(c, k));
    SaysRead(c, k, InTransit(c, k + 1, n));
  }

  lemma TransitExtend(c: Configuration, k: nat, n: nat)
    requires k <= n <= 1
    ensures InTransit(c, k, n) + MessageBytes(Says(c, n)) == InTransit(c, k, n + 1)
  {
    hide MessageBytes, Says;
    assert [] + MessageBytes(Says(c, n)) == MessageBytes(Says(c, n));
  }

  lemma EmptyReadsNothing()
    ensures !ReadMessage([]).Done?
  {
  }

  lemma NegotiatedAgrees(p: Peer, other: Configuration)
    requires Presentable(other) && p.heard == Says(other, 1) && p.contactFlags == other.contactFlags
    requires p.sent == 2 && p.received == 2 && p.health == Running
    ensures Finished(Negotiated(p)) && Agreed(Negotiated(p), other)
    ensures Negotiated(p) == p.(keepalive := Negotiated(p).keepalive, segmentMtu := Negotiated(p).segmentMtu,
                                transferMtu := Negotiated(p).transferMtu, peerNodeId := Negotiated(p).peerNodeId)
  {
    hide Uri, Valid, NewEndpointID, Canon;
    UriRoundTrip(other.nodeId);
    ValidHasType(other.nodeId);
  }

  lemma ValidHasType(e: EndpointID)
    requires Valid(e)
    ensures !e.NoType?
  {
  }

  lemma SendKeeps(l: Link, e: Event)
    requires Inv(l) && Can(l, e) && (e == ActiveSends || e == PassiveSends)
    ensures Inv(Move(l, e))
  {
    hide Presentable, Agreed, InTransit, Says, MessageBytes, Negotiated;
    if e == ActiveSends {
      TransitExtend(l.active.config, l.passive.received, l.active.sent);
    } else {
      TransitExtend(l.passive.config, l.active.received, l.passive.sent);
      if l.passive.sent == 1 {
        NegotiatedAgrees(l.passive.(sent := 2), l.active.config);
      }
    }
  }

  lemma ReceiveKeeps(l: Link, e: Event)
    requires Inv(l) && Can(l, e) && (e == ActiveReceives || e == PassiveReceives)
    ensures Inv(Move(l, e))
  {
    EmptyReadsNothing();
    NothingInTransit(l.active.config, l.passive.received, l.active.sent);
    NothingInTransit(l.passive.config, l.active.received, l.passive.sent);
    hide Presentable, Agreed, InTransit, MessageBytes, Negotiated, ReadMessage;
    if e == ActiveReceives {
      TransitRead(l.passive.config, l.active.received, l.passive.sent);
      if l.active.received == 1 {
        NegotiatedAgrees(l.active.(received := 2, heard := Says(l.passive.config, 1)), l.passive.config);
      }
    } else {
      TransitRead(l.active.config, l.passive.received, l.active.sent);
    }
  }

  lemma NothingInTransit(c: Configuration, k: nat, n: nat)
    requires k <= n <= 2
    ensures InTransit(c, k, n) == [] <==> k == n
  {
  }

  /** In every run, closed down or not, no stage fails and the invariant holds. */
  lemma {:induction false} RunKeeps(a: Configuration, p: Configuration, events: seq<Event>)
    requires Presentable(a) && Presentable(p) && a.activePeer && !p.activePeer
    requires Run(NewLink(a, p), events).Ok?
    ensures Inv(Run(NewLink(a, p), events).value)
    ensures Run(NewLink(a, p), events).value.active.config == a && Run(NewLink(a, p), events).value.passive.config == p
  {
    if events == [] {
      hide Presentable, Agreed;
    } else {
      hide Inv, Can, Presentable;
      var front, e := events[..|events| - 1], events[|events| - 1];
      RunKeeps(a, p, front);
      var m := Run(NewLink(a, p), front).value;
      MoveKeepsConfigs(m, e);
      hide Move;
      match e
      case ActiveSends => SendKeeps(m, e);
      case PassiveSends => SendKeeps(m, e);
      case ActiveReceives => ReceiveKeeps(m, e);
      case PassiveReceives => ReceiveKeeps(m, e);
      case _ => CloseKeeps(m, e);
    }
  }

  lemma CloseKeeps(l: Link, e: Event)
    requires Inv(l) && Can(l, e) && IsClose(e)
    ensures Inv(Move(l, e))
  {
    hide Presentable, Agreed, InTransit, Says;
  }

  lemma MoveKeepsConfigs(l: Link, e: Event)
    requires Can(l, e)
    ensures Move(l, e).active.config == l.active.config && Move(l, e).passive.config == l.passive.config
  {
    hide ReadMessage, MessageBytes, NewEndpointID;
  }

  /** Agreement: whatever else happens, a peer that finishes both stages has the smaller keepalive,
      the other's limits, contact flags and node ID. */
  lemma FinishedAgrees(a: Configuration, p: Configuration, events: seq<Event>)
    requires Presentable(a) && Presentable(p) && a.activePeer && !p.activePeer
    requires Run(NewLink(a, p), events).Ok?
    ensures var l := Run(NewLink(a, p), events).value;
      && (Finished(l.active) ==> Agreed(l.active, p))
      && (Finished(l.passive) ==> Agreed(l.passive, a))
      && (Finished(l.active) && Finished(l.passive) ==> l.active.keepalive == l.passive.keepalive)
  {
    hide Run, Presentable;
    RunKeeps(a, p, events);
  }

  /** No deadlock: as long as nobody closes, either both peers have finished or one can go on. */
  lemma NeverStuck(a: Configuration, p: Configuration, events: seq<Event>)
    requires Presentable(a) && Presentable(p) && a.activePeer && !p.activePeer
    requires Run(NewLink(a, p), events).Ok?
    requires forall i :: 0 <= i < |events| ==> !IsClose(events[i])
    ensures var l := Run(NewLink(a, p), events).value;
      (Finished(l.active) && Finished(l.passive)) || exists e: Event :: !IsClose(e) && Can(l, e)
  {
    hide Run, Inv, Can, Finished, Presentable;
    RunKeeps(a, p, events);
    NobodyClosed(NewLink(a, p), events);
    var l := Run(NewLink(a, p), events).value;
    var e := NextEvent(l);
    assert (Finished(l.active) && Finished(l.passive)) || Can(l, e);
  }

  lemma ReceiveIsPossible(l: Link)
    requires Inv(l)
    ensures l.active.received < l.passive.sent ==> ReadMessage(l.toActive).Done?
    ensures l.passive.received < l.active.sent ==> ReadMessage(l.toPassive).Done?
  {
    hide InTransit, ReadMessage, Learned, Says, Presentable;
    if l.active.received < l.passive.sent {
      TransitRead(l.passive.config, l.active.received, l.passive.sent);
    }
    if l.passive.received < l.active.sent {
      TransitRead(l.active.config, l.passive.received, l.active.sent);
    }
  }

  /** The event that is possible next. */
  lemma NextEvent(l: Link) returns (e: Event)
    requires Inv(l) && l.active.health != ClosedDown && l.passive.health != ClosedDown
    ensures !IsClose(e) && ((Finished(l.active) && Finished(l.passive)) || Can(l, e))
  {
    ReceiveIsPossible(l);
    hide InTransit, ReadMessage, Presentable;
    e := if Sends(l.active) then ActiveSends
         else if Sends(l.passive) then PassiveSends
         else if l.passive.received < l.active.sent then PassiveReceives
         else ActiveReceives;
  }

  lemma {:induction false} NobodyClosed(l: Link, events: seq<Event>)
    requires Run(l, events).Ok? && l.active.health != ClosedDown && l.passive.health != ClosedDown
    requires forall i :: 0 <= i < |events| ==> !IsClose(events[i])
    ensures Run(l, events).value.active.health != ClosedDown && Run(l, events).value.passive.health != ClosedDown
  {
    hide Move, Can;
    if events != [] {
      var front := events[..|events| - 1];
      NobodyClosed(l, front);
      MoveDoesNotClose(Run(l, front).value, events[|events| - 1]);
    }
  }

  lemma MoveDoesNotClose(l: Link, e: Event)
    requires Can(l, e) && !IsClose(e) && l.active.health != ClosedDown && l.passive.health != ClosedDown
    ensures Move(l, e).active.health != ClosedDown && Move(l, e).passive.health != ClosedDown
  {
    hide ReadMessage, MessageBytes, NewEndpointID;
  }

  function Progress(l: Link): nat { l.active.sent + l.active.received + l.passive.sent + l.passive.received }

  /** And the end is near: each event but a close is one of at most eight, so a run without a
      close that cannot be continued has finished both peers. */
  lemma {:induction false} EightEvents(a: Configuration, p: Configuration, events: seq<Event>)
    requires Presentable(a) && Presentable(p) && a.activePeer && !p.activePeer
    requires Run(NewLink(a, p), events).Ok?
    requires forall i :: 0 <= i < |events| ==> !IsClose(events[i])
    ensures |events| == Progress(Run(NewLink(a, p), events).value) <= 8
  {
    if events != [] {
      var front, e := events[..|events| - 1], events[|events| - 1];
      EightEvents(a, p, front);
      RunKeeps(a, p, front);
      RunKeeps(a, p, events);
      StepProgress(Run(NewLink(a, p), front).value, e);
    }
    hide Run, Can, Move;
    RunKeeps(a, p, events);
  }

  lemma StepProgress(l: Link, e: Event)
    requires Can(l, e) && !IsClose(e) && Inv(l) && Inv(Move(l, e))
    ensures Progress(Move(l, e)) == Progress(l) + 1
  {
    hide ReadMessage, MessageBytes, NewEndpointID, Presentable, InTransit, Learned, Uri;
  }
}
