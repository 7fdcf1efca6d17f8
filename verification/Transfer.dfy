/** Transfers of bundles over a session (RFC 9174, section 5.2): cutting a stream into segments,
    buffering and acknowledging them, and the manager that runs many transfers at once. Each event
    a manager's goroutines handle is one step. */
module Transfer {
  import opened Bytes
  import opened Messages
  import opened Blocks
  import opened BundleCodec

  predicate HasEnd(flags: u8) { flags % 2 == 1 }

  /* ---- one outgoing transfer ---- */

  datatype Outgoing = Outgoing(id: u64, startFlag: bool, stream: seq<byte>)

  /** What io.ReadFull gets into a buffer of mtu octets. */
  function Taken(stream: seq<byte>, mtu: u64): (n: nat)
    ensures n <= |stream| && n <= mtu
  {
    if |stream| < mtu then |stream| else mtu
  }

  function SegmentFlags(startFlag: bool, short: bool): u8 {
    (if startFlag then SEGMENT_START else 0) + (if short then SEGMENT_END else 0)
  }

  /** The next segment, or an error at the end of the stream. No slice has more than MAX_LEN octets,
      so allocating a larger buffer panics. */
  function OutSegment(t: Outgoing, mtu: u64): (r: Outcome<Message>)
    ensures r.Value? ==> r.value.XferSegment?
  {
    if mtu > MAX_LEN then Panic
    else if mtu > 0 && t.stream == [] then Error
    else
      var n := Taken(t.stream, mtu);
      Outcome.Value(XferSegment(SegmentFlags(t.startFlag, n < mtu), t.id, t.stream[..n]))
  }

  function OutRest(t: Outgoing, mtu: u64): Outgoing {
    Outgoing(t.id, false, t.stream[Taken(t.stream, mtu)..])
  }

  class OutgoingTransfer {
    const id: u64
    var startFlag: bool
    var dataStream: seq<byte>

    /** NewBundleOutgoingTransfer, with everything the writing goroutine puts into the pipe. */
    constructor (id: u64, data: seq<byte>)
      ensures Value() == Outgoing(id, true, data)
    {
      this.id, startFlag, dataStream := id, true, data;
    }

    function Value(): Outgoing
      reads this
    {
      Outgoing(id, startFlag, dataStream)
    }

    /** NextSegment. */
    method NextSegment(mtu: u64) returns (r: Outcome<Message>)
      modifies this
      ensures r == OutSegment(old(Value()), mtu)
      ensures !r.Panic? ==> Value() == OutRest(old(Value()), mtu)
      ensures r.Panic? <==> mtu > MAX_LEN
      ensures r.Error? <==> 0 < mtu <= MAX_LEN && old(dataStream) == []
      ensures r.Value? ==>
        var m := r.value;
        && m.XferSegment? && m.transferId == id && m.data + dataStream == old(dataStream)
        && |m.data| == (if |old(dataStream)| < mtu then |old(dataStream)| else mtu)
        && (m.flags % 2 == 1 <==> |m.data| < mtu) && (m.flags / 2 % 2 == 1 <==> old(startFlag)) && !startFlag
    {
      var segFlags: u8 := 0;
      if startFlag {
        startFlag := false;
        segFlags := segFlags + SEGMENT_START;
      }
      if mtu > MAX_LEN {
        return Panic;
      }
      var n := Taken(dataStream, mtu);
      var buf := dataStream[..n];
      dataStream := dataStream[n..];
      if n < mtu {
        if n == 0 {
          return Error;
        }
        segFlags := segFlags + SEGMENT_END;
      }
      r := Outcome.Value(XferSegment(segFlags, id, buf));
    }
  }

  /* ---- one incoming transfer ---- */

  datatype Incoming = Incoming(id: u64, endFlag: bool, buf: seq<byte>)

  /** The transfer after a segment and its acknowledgement. */
  function InSegment(t: Incoming, m: Message): Result<(Incoming, Message)>
    requires m.XferSegment?
  {
    if t.endFlag || t.id != m.transferId then Err
    else
      var buf := t.buf + m.data;
      Ok((Incoming(t.id, HasEnd(m.flags), buf), XferAck(m.flags, m.transferId, |buf| % TWO64)))
  }

  class IncomingTransfer {
    const id: u64
    var endFlag: bool
    var buf: seq<byte>

    /** NewIncomingTransfer. */
    constructor (id: u64)
      ensures Value() == Incoming(id, false, [])
    {
      this.id, endFlag, buf := id, false, [];
    }

    function Value(): Incoming
      reads this
    {
      Incoming(id, endFlag, buf)
    }

    predicate IsFinished()
      reads this
    {
      endFlag
    }

    /** NextSegment: a refused segment changes nothing. */
    method NextSegment(dtm: Message) returns (r: Result<Message>)
      requires dtm.XferSegment?
      modifies this
      ensures match InSegment(old(Value()), dtm)
        case Ok((t, ack)) => r == Ok(ack) && Value() == t
        case Err => r == Err && Value() == old(Value())
      ensures r.Err? <==> old(endFlag) || dtm.transferId != id
      ensures r.Err? ==> endFlag == old(endFlag) && buf == old(buf)
      ensures r.Ok? ==>
        && buf == old(buf) + dtm.data && (endFlag <==> dtm.flags % 2 == 1)
        && r.value == XferAck(dtm.flags, dtm.transferId, |buf| % TWO64)
    {
      if IsFinished() {
        return Err;
      }
      if id != dtm.transferId {
        return Err;
      }
      buf := buf + dtm.data;
      if HasEnd(dtm.flags) {
        endFlag := true;
      }
      r := Ok(XferAck(dtm.flags, dtm.transferId, |buf| % TWO64));
    }
  }

  /* ---- the manager ---- */

  datatype Verdict = Pending | Success | Failure

  /** How far the outcome of the cutting goroutine, the length or an error, has come to Send; a
      goroutine that was told to stop has none. */
  datatype Stage = Cutting | LengthReady | LengthTaken | ErrorReady | ErrorTaken | Abandoned

  /** One call of Send: the bundle's octets, the outgoing transfer, the octets cut so far, the
      messages waiting in its feedback channel, and the two lengths Send compares. */
  datatype Sending = Sending(data: seq<byte>, transfer: Outgoing, l: nat, stage: Stage,
                             feedback: seq<Message>, inLen: int, outLen: int, verdict: Verdict)

  /** A manager. finished has the buffers of ended transfers, as handed to the bundle parser. */
  datatype Peer = Peer(mtu: u64, inTransfers: map<u64, Incoming>, finished: map<u64, seq<byte>>,
                       outNextId: u64, sends: seq<Sending>, outFeedback: map<u64, nat>,
                       failed: bool, stopped: bool, crashed: bool)

  function NewPeer(mtu: u64): Peer {
    Peer(mtu, map[], map[], 0, [], map[], false, false, false)
  }

  predicate Registered(p: Peer) {
    forall id :: id in p.outFeedback ==> p.outFeedback[id] < |p.sends|
  }

  /** handle, for one incoming message: the new state and what is put on the wire. */
  function Handle(env: Env, p: Peer, m: Message): (Peer, seq<Message>)
    requires Registered(p)
  {
    match m
    case XferAck(_, id, _) => (HandleFeedback(p, id, m), [])
    case XferRefuse(_, id) => (HandleFeedback(p, id, m), [])
    case XferSegment(_, _, _) => HandleSegment(env, p, m)
    case _ => (p.(failed := true), [])
  }

  function HandleFeedback(p: Peer, id: u64, m: Message): Peer
    requires Registered(p)
  {
    if id !in p.outFeedback then p.(failed := true)
    else
      var k := p.outFeedback[id];
      p.(sends := p.sends[k := p.sends[k].(feedback := p.sends[k].feedback + [m])])
  }

  /** The transfer a segment belongs to, new if its ID is. */
  function TransferFor(p: Peer, id: u64): Incoming {
    if id in p.inTransfers then p.inTransfers[id] else Incoming(id, false, [])
  }

  function HandleSegment(env: Env, p: Peer, m: Message): (Peer, seq<Message>)
    requires m.XferSegment?
  {
    var id := m.transferId;
    match InSegment(TransferFor(p, id), m)
    case Err => (p.(inTransfers := p.inTransfers[id := TransferFor(p, id)], failed := true), [])
    case Ok((t, ack)) =>
      if !t.endFlag then (p.(inTransfers := p.inTransfers[id := t]), [ack])
      else if ReadBundle(env, t.buf).Done?
      then (p.(inTransfers := p.inTransfers - {id}, finished := p.finished[id := t.buf]), [ack])
      else (p.(inTransfers := p.inTransfers[id := t], failed := true), [ack])
  }

  /** Send is called. */
  function StartSend(p: Peer, data: seq<byte>): Peer {
    var id := p.outNextId;
    p.(outNextId := (id + 1) % TWO64,
       sends := p.sends + [Sending(data, Outgoing(id, true, data), 0, Cutting, [], 0, 0, Pending)],
       outFeedback := p.outFeedback[id := |p.sends|])
  }

  /** One turn of the cutting goroutine: it stops when Send has failed, reports a manager that was
      closed, and otherwise cuts; a panic ends the program. */
  function Cut(p: Peer, k: nat): (Peer, seq<Message>)
    requires k < |p.sends|
  {
    var s := p.sends[k];
    if s.verdict == Failure then (p.(sends := p.sends[k := s.(stage := Abandoned)]), [])
    else if p.stopped then (p.(sends := p.sends[k := s.(stage := ErrorReady)]), [])
    else
      var t := s.(transfer := OutRest(s.transfer, p.mtu));
      match OutSegment(s.transfer, p.mtu)
      case Panic => (p.(crashed := true), [])
      case Error => (p.(sends := p.sends[k := t.(stage := LengthReady)]), [])
      case Value(m) => (p.(sends := p.sends[k := t.(l := s.l + |m.data|)]), [m])
  }

  /** Send returns: its feedback channel is dropped. */
  function Settle(p: Peer, k: nat, s: Sending): Peer
    requires k < |p.sends|
  {
    p.(sends := p.sends[k := s],
       outFeedback := if s.verdict == Pending then p.outFeedback else p.outFeedback - {s.transfer.id})
  }

  function WithLength(s: Sending): Sending {
    s.(outLen := s.l, stage := LengthTaken, verdict := if s.l == s.inLen then Success else Pending)
  }

  function WithError(s: Sending): Sending {
    s.(stage := ErrorTaken, verdict := Failure)
  }

  function WithFeedback(s: Sending): Sending
    requires s.feedback != []
  {
    match s.feedback[0]
    case XferAck(_, _, len) =>
      s.(feedback := s.feedback[1..], inLen := ToInt(len),
         verdict := if s.outLen == ToInt(len) then Success else Pending)
    case _ => s.(feedback := s.feedback[1..], verdict := Failure)
  }

  /** TransferManager, its goroutines cut at their channel operations. */
  class TransferManager {
    const segmentMtu: u64
    var inTransfers: map<u64, Incoming>
    var finished: map<u64, seq<byte>>
    var outNextId: u64
    var sends: seq<Sending>
    var outFeedback: map<u64, nat>
    var failed: bool
    var stopped: bool
    var crashed: bool

    function Value(): Peer
      reads this
    {
      Peer(segmentMtu, inTransfers, finished, outNextId, sends, outFeedback, failed, stopped, crashed)
    }

    /** NewTransferManager. */
    constructor (segmentMtu: u64)
      ensures Value() == NewPeer(segmentMtu)
    {
      this.segmentMtu := segmentMtu;
      inTransfers, finished, outNextId, sends, outFeedback := map[], map[], 0, [], map[];
      failed, stopped, crashed := false, false, false;
    }

    /** Close: a second call is an error. */
    method Close() returns (ok: bool)
      modifies this`stopped
      ensures ok == !old(stopped) && stopped
    {
      ok := !stopped;
      stopped := true;
    }

    /** One turn of handle. */
    method HandleMessage(env: Env, msg: Message) returns (out: seq<Message>)
      requires Registered(Value())
      modifies this
      ensures (Value(), out) == Handle(env, old(Value()), msg)
      ensures !msg.XferAck? && !msg.XferRefuse? && !msg.XferSegment? ==> failed && out == []
      ensures msg.XferAck? && msg.ackId !in old(outFeedback) ==> failed && sends == old(sends) && out == []
      ensures msg.XferRefuse? && msg.refusedId !in old(outFeedback) ==> failed && sends == old(sends) && out == []
    {
      out := [];
      if msg.XferAck? || msg.XferRefuse? {
        var id := if msg.XferAck? then msg.ackId else msg.refusedId;
        if id !in outFeedback {
          failed := true;
        } else {
          var k := outFeedback[id];
          sends := sends[k := sends[k].(feedback := sends[k].feedback + [msg])];
        }
      } else if msg.XferSegment? {
        out := HandleDataTransmission(env, msg);
      } else {
        failed := true;
      }
    }

    method HandleDataTransmission(env: Env, msg: Message) returns (out: seq<Message>)
      requires msg.XferSegment?
      modifies this
      ensures (Value(), out) == HandleSegment(env, old(Value()), msg)
    {
      hide ReadBundle, InSegment;
      out := [];
      var id := msg.transferId;
      var transfer := if id in inTransfers then inTransfers[id] else Incoming(id, false, []);
      inTransfers := inTransfers[id := transfer];
      match InSegment(transfer, msg)
      case Err => failed := true;
      case Ok((t, ack)) =>
        inTransfers := inTransfers[id := t];
        assert inTransfers == old(inTransfers)[id := t];
        out := [ack];
        if t.endFlag {
          if ReadBundle(env, t.buf).Done? {
            finished := finished[id := t.buf];
            inTransfers := inTransfers - {id};
            assert inTransfers == old(inTransfers) - {id};
          } else {
            failed := true;
          }
        }
    }

    /** The head of Send. */
    method Send(data: seq<byte>)
      modifies this
      ensures Value() == StartSend(old(Value()), data)
    {
      var id := outNextId;
      outNextId := (outNextId + 1) % TWO64;
      outFeedback := outFeedback[id := |sends|];
      sends := sends + [Sending(data, Outgoing(id, true, data), 0, Cutting, [], 0, 0, Pending)];
    }

    /** One turn of the goroutine that cuts segments. */
    method SendSegment(k: nat) returns (out: seq<Message>)
      requires k < |sends|
      modifies this
      ensures (Value(), out) == Cut(old(Value()), k)
      ensures |sends| == |old(sends)|
      ensures old(sends)[k].verdict == Failure ==> out == [] && sends[k] == old(sends)[k].(stage := Abandoned)
      ensures old(sends)[k].verdict != Failure && stopped ==>
        out == [] && sends[k] == old(sends)[k].(stage := ErrorReady)
    {
      hide OutSegment, OutRest;
      out := [];
      var s := sends[k];
      if s.verdict == Failure {
        sends := sends[k := s.(stage := Abandoned)];
        return;
      }
      if stopped {
        sends := sends[k := s.(stage := ErrorReady)];
        return;
      }
      var dtm := OutSegment(s.transfer, segmentMtu);
      s := s.(transfer := OutRest(s.transfer, segmentMtu));
      match dtm
      case Panic => crashed := true;
      case Error => sends := sends[k := s.(stage := LengthReady)];
      case Value(m) =>
        sends := sends[k := s.(l := s.l + |m.data|)];
        out := [m];
    }

    /** The case of Send's loop that receives the total length. */
    method ReceiveLength(k: nat)
      requires k < |sends| && sends[k].verdict == Pending
      modifies this
      ensures Value() == Settle(old(Value()), k, WithLength(old(sends)[k]))
      ensures |sends| == |old(sends)| && sends[k].outLen == old(sends)[k].l
      ensures sends[k].verdict == if old(sends)[k].inLen == old(sends)[k].l then Success else Pending
    {
      var s := sends[k].(outLen := sends[k].l, stage := LengthTaken);
      if s.outLen == s.inLen {
        s := s.(verdict := Success);
        outFeedback := outFeedback - {s.transfer.id};
      }
      sends := sends[k := s];
    }

    /** The case of Send's loop that receives the goroutine's error. */
    method ReceiveError(k: nat)
      requires k < |sends| && sends[k].verdict == Pending
      modifies this
      ensures Value() == Settle(old(Value()), k, WithError(old(sends)[k]))
      ensures |sends| == |old(sends)| && sends[k].verdict == Failure && sends[k].transfer.id !in outFeedback
    {
      var s := sends[k];
      outFeedback := outFeedback - {s.transfer.id};
      sends := sends[k := s.(stage := ErrorTaken, verdict := Failure)];
    }

    /** The case of Send's loop that receives an acknowledgement or a refusal. */
    method ReceiveFeedback(k: nat)
      requires k < |sends| && sends[k].verdict == Pending && sends[k].feedback != []
      modifies this
      ensures Value() == Settle(old(Value()), k, WithFeedback(old(sends)[k]))
      ensures |sends| == |old(sends)| && sends[k].feedback == old(sends)[k].feedback[1..]
      ensures !old(sends)[k].feedback[0].XferAck? ==> sends[k].verdict == Failure
      ensures old(sends)[k].feedback[0].XferAck? ==>
        sends[k].verdict == if sends[k].inLen == old(sends)[k].outLen then Success else Pending
      ensures sends[k].verdict != Pending ==> sends[k].transfer.id !in outFeedback
    {
      var s := sends[k].(feedback := sends[k].feedback[1..]);
      match sends[k].feedback[0]
      case XferAck(_, _, len) =>
        s := s.(inLen := ToInt(len));
        if s.outLen == s.inLen {
          s := s.(verdict := Success);
          outFeedback := outFeedback - {s.transfer.id};
        }
        sends := sends[k := s];
      case _ =>
        sends := sends[k := s.(verdict := Failure)];
        outFeedback := outFeedback - {s.transfer.id};
    }
  }
}
