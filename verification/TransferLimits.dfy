/** Runs of two managers in which transfers do less than one would expect: segment sizes out of
    bounds, and bundles that fill their last segment. */
module TransferLimits {
  import opened Bytes
  import opened Messages
  import opened Blocks
  import opened BundleCodec
  import opened Transfer
  import opened TransferRuns

  /* ---- without the bounds on the segment size ---- */

  /** Whether a peer has cut in a run. */
  predicate HasCut(steps: seq<Step>, atB: bool) {
    exists i :: 0 <= i < |steps| && steps[i].atB == atB && steps[i].event.CutNext?
  }

  lemma MoveCrashes(env: Env, n: Net, e: Event)
    requires Can(env, n, e) && !n.a.stopped
    ensures var m := Move(env, n, e);
      && m.a.mtu == n.a.mtu && !m.a.stopped && (m.a.crashed <==> n.a.mtu > MAX_LEN && e.CutNext?)
      && m.b == n.b
  {
    hide Handle, OutRest, WithLength, WithFeedback;
    if e.Deliver? {
      HandleKeepsRunning(env, n.a, n.ba[0]);
    }
  }

  lemma HandleKeepsRunning(env: Env, p: Peer, m: Message)
    requires Registered(p)
    ensures var q := Handle(env, p, m).0; q.mtu == p.mtu && q.stopped == p.stopped && q.crashed == p.crashed
  {
    hide ReadBundle, InSegment;
  }

  lemma HasCutStep(steps: seq<Step>, atB: bool)
    requires steps != []
    ensures var last := steps[|steps| - 1];
            HasCut(steps, atB) <==> HasCut(steps[..|steps| - 1], atB) || (last.atB == atB && last.event.CutNext?)
  {
  }

  /** For every pair of segment sizes: a peer's program panics in a run exactly when its size is
      more than a slice can have and it has begun to cut. */
  lemma {:induction false} CrashedExactly(env: Env, mtuA: u64, mtuB: u64, steps: seq<Step>)
    requires Run(env, NewNet(mtuA, mtuB), steps).Ok?
    ensures var n := Run(env, NewNet(mtuA, mtuB), steps).value;
      && n.a.mtu == mtuA && n.b.mtu == mtuB && !n.a.stopped && !n.b.stopped
      && (n.a.crashed <==> mtuA > MAX_LEN && HasCut(steps, false))
      && (n.b.crashed <==> mtuB > MAX_LEN && HasCut(steps, true))
  {
    hide Move, HasCut;
    if steps == [] {
      NoCut();
    } else {
      var front, s := steps[..|steps| - 1], steps[|steps| - 1];
      CrashedExactly(env, mtuA, mtuB, front);
      var m := Run(env, NewNet(mtuA, mtuB), front).value;
      HasCutStep(steps, true);
      HasCutStep(steps, false);
      MoveCrashes(env, if s.atB then Flip(m) else m, s.event);
    }
  }

  lemma NoCut()
    ensures !HasCut([], true) && !HasCut([], false)
  {
  }

  /** One step leads from one network to another. */
  predicate Leads(env: Env, n: Net, s: Step, m: Net) {
    var seen := if s.atB then Flip(n) else n;
    Can(env, seen, s.event) && m == if s.atB then Flip(Move(env, seen, s.event)) else Move(env, seen, s.event)
  }

  lemma Extend(env: Env, start: Net, steps: seq<Step>, n: Net, s: Step, m: Net)
    requires Run(env, start, steps) == Ok(n) && Leads(env, n, s, m)
    ensures Run(env, start, steps + [s]) == Ok(m)
  {
    hide Can, Move;
    assert (steps + [s])[..|steps|] == steps;
  }

  /** A sender with one transfer. */
  function Lone(mtu: u64, s: Sending): Peer {
    Peer(mtu, map[], map[], 1, [s], if s.verdict == Pending then map[0 := 0] else map[], false, false, false)
  }

  /** A transfer when nothing has been cut. */
  function Uncut(data: seq<byte>): Sending {
    Sending(data, Outgoing(0, true, data), 0, Cutting, [], 0, 0, Pending)
  }

  lemma LoneStart(env: Env, mtu: u64, b: Peer, data: seq<byte>)
    requires |data| <= MAX_LEN && ReadBundle(env, data).Done?
    ensures Leads(env, Net(NewPeer(mtu), b, [], []), Step(false, Start(data)), Net(Lone(mtu, Uncut(data)), b, [], []))
  {
    hide ReadBundle;
  }

  lemma LoneCut(env: Env, mtu: u64, b: Peer, s: Sending, ba: seq<Message>)
    requires mtu <= MAX_LEN && s.verdict == Pending && s.stage == Cutting
    ensures var t := s.(transfer := OutRest(s.transfer, mtu));
            var after := match OutSegment(s.transfer, mtu)
              case Value(m) => Net(Lone(mtu, t.(l := s.l + |m.data|)), b, [m], ba)
              case _ => Net(Lone(mtu, t.(stage := LengthReady)), b, [], ba);
            Leads(env, Net(Lone(mtu, s), b, [], ba), Step(false, CutNext(0)), after)
  {
    hide OutSegment, OutRest;
    NotTooLarge(s.transfer, mtu);
    var t := s.(transfer := OutRest(s.transfer, mtu));
    match OutSegment(s.transfer, mtu)
    case Value(m) => assert [s][0 := t.(l := s.l + |m.data|)] == [t.(l := s.l + |m.data|)] && [] + [m] == [m];
    case Error => assert [s][0 := t.(stage := LengthReady)] == [t.(stage := LengthReady)];
  }

  lemma NotTooLarge(t: Outgoing, mtu: u64)
    requires mtu <= MAX_LEN
    ensures match OutSegment(t, mtu) case Panic => false case Error => true case Value(m) => m.XferSegment?
  {
  }

  /** The receiver's side of a segment that does not end its transfer, which is a new one. */
  lemma LoneAccept(env: Env, mtu: u64, a: Peer, m: Message)
    requires m.XferSegment? && m.transferId == 0 && !HasEnd(m.flags) && |m.data| < TWO64
    ensures var after := NewPeer(mtu).(inTransfers := map[0 := Incoming(0, false, m.data)]);
            Leads(env, Net(a, NewPeer(mtu), [m], []), Step(true, Deliver),
                  Net(a, after, [], [XferAck(m.flags, 0, |m.data|)]))
  {
    assert [m][1..] == [] && [] + m.data == m.data;
    SmallMod(|m.data|, TWO64);
  }

  lemma LoneAck(env: Env, mtu: u64, b: Peer, s: Sending, m: Message)
    requires m.XferAck? && m.ackId == 0 && s.verdict == Pending && s.feedback == []
    ensures Leads(env, Net(Lone(mtu, s), b, [], [m]), Step(false, Deliver),
                  Net(Lone(mtu, s.(feedback := [m])), b, [], []))
  {
    assert [m][1..] == [] && [] + [m] == [m];
    assert [s][0 := s.(feedback := [m])] == [s.(feedback := [m])];
  }

  lemma LoneSettle(mtu: u64, s: Sending, t: Sending)
    requires s.verdict == Pending && s.transfer == t.transfer && s.transfer.id == 0
    ensures Settle(Lone(mtu, s), 0, t) == Lone(mtu, t)
  {
    assert [s][0 := t] == [t];
    assert map[0 := 0] - {0} == map[];
  }

  const EMPTY_SEGMENT := XferSegment(SEGMENT_START, 0, [])
  const EMPTY_ACK := XferAck(SEGMENT_START, 0, 0)

  /** The states of a run with segment size 0. */
  function EmptyNet(data: seq<byte>, i: nat): Net {
    var b := NewPeer(0);
    var b' := b.(inTransfers := map[0 := Incoming(0, false, [])]);
    var s := Uncut(data).(transfer := Outgoing(0, false, data));
    if i == 0 then Net(b, b, [], [])
    else if i == 1 then Net(Lone(0, Uncut(data)), b, [], [])
    else if i == 2 then Net(Lone(0, s), b, [EMPTY_SEGMENT], [])
    else if i == 3 then Net(Lone(0, s), b', [], [EMPTY_ACK])
    else if i == 4 then Net(Lone(0, s.(feedback := [EMPTY_ACK])), b', [], [])
    else Net(Lone(0, s.(verdict := Success)), b', [], [])
  }

  function EmptyStep(data: seq<byte>, i: nat): Step {
    if i == 0 then Step(false, Start(data))
    else if i == 1 then Step(false, CutNext(0))
    else if i == 2 then Step(true, Deliver)
    else if i == 3 then Step(false, Deliver)
    else Step(false, TakeFeedback(0))
  }

  lemma EmptyLeads(env: Env, data: seq<byte>, i: nat)
    requires |data| <= MAX_LEN && ReadBundle(env, data).Done? && i < 5
    ensures Leads(env, EmptyNet(data, i), EmptyStep(data, i), EmptyNet(data, i + 1))
  {
    hide Leads, ReadBundle, OutSegment, OutRest;
    var b := NewPeer(0);
    var b' := b.(inTransfers := map[0 := Incoming(0, false, [])]);
    var s := Uncut(data).(transfer := Outgoing(0, false, data));
    if i == 0 {
      LoneStart(env, 0, b, data);
    } else if i == 1 {
      EmptySegment(data);
      LoneCut(env, 0, b, Uncut(data), []);
    } else if i == 2 {
      LoneAccept(env, 0, Lone(0, s), EMPTY_SEGMENT);
    } else if i == 3 {
      LoneAck(env, 0, b', s, EMPTY_ACK);
    } else {
      LoneFeedback(env, 0, b', s.(feedback := [EMPTY_ACK]), s.(verdict := Success));
    }
  }

  lemma {:induction false} EmptyRun(env: Env, data: seq<byte>, i: nat) returns (steps: seq<Step>)
    requires |data| <= MAX_LEN && ReadBundle(env, data).Done? && i <= 5
    ensures Run(env, EmptyNet(data, 0), steps) == Ok(EmptyNet(data, i))
  {
    hide Leads, ReadBundle, EmptyNet;
    steps := [];
    if i > 0 {
      steps := EmptyRun(env, data, i - 1);
      EmptyLeads(env, data, i - 1);
      Extend(env, EmptyNet(data, 0), steps, EmptyNet(data, i - 1), EmptyStep(data, i - 1), EmptyNet(data, i));
      steps := steps + [EmptyStep(data, i - 1)];
    }
  }

  /** With a segment size of 0 the first, empty segment is acknowledged with length 0, which is
      also the initial value of the length it is compared with: Send succeeds and nothing was sent. */
  lemma ZeroMtuSucceeds(env: Env, data: seq<byte>) returns (steps: seq<Step>)
    requires data != [] && |data| <= MAX_LEN && ReadBundle(env, data).Done?
    ensures var n := Run(env, NewNet(0, 0), steps);
      && n.Ok? && |n.value.a.sends| == 1 && n.value.a.sends[0].data == data && n.value.a.sends[0].verdict == Success
      && Received(n.value.b, 0) == []
  {
    hide Run, ReadBundle;
    steps := EmptyRun(env, data, 5);
  }

  lemma EmptySegment(data: seq<byte>)
    ensures OutSegment(Outgoing(0, true, data), 0) == Outcome.Value(EMPTY_SEGMENT)
    ensures OutRest(Outgoing(0, true, data), 0) == Outgoing(0, false, data)
  {
    assert data[..0] == [] && data[0..] == data;
  }

  lemma LoneFeedback(env: Env, mtu: u64, b: Peer, s: Sending, t: Sending)
    requires s.verdict == Pending && s.feedback != [] && t == WithFeedback(s) && s.transfer.id == 0
    ensures Leads(env, Net(Lone(mtu, s), b, [], []), Step(false, TakeFeedback(0)), Net(Lone(mtu, t), b, [], []))
  {
    LoneSettle(mtu, s, t);
  }

  lemma LoneLength(env: Env, mtu: u64, b: Peer, s: Sending, t: Sending)
    requires s.verdict == Pending && s.stage == LengthReady && t == WithLength(s) && s.transfer.id == 0
    ensures Leads(env, Net(Lone(mtu, s), b, [], []), Step(false, TakeLength(0)), Net(Lone(mtu, t), b, [], []))
  {
    LoneSettle(mtu, s, t);
  }

  /* ---- a bundle that fills its segments ---- */

  lemma FullSegment(data: seq<byte>, mtu: u64)
    requires mtu == |data| && Usable(mtu)
    ensures OutSegment(Outgoing(0, true, data), mtu) == Outcome.Value(XferSegment(SEGMENT_START, 0, data))
    ensures OutRest(Outgoing(0, true, data), mtu) == Outgoing(0, false, [])
    ensures OutSegment(Outgoing(0, false, []), mtu) == Error
    ensures OutRest(Outgoing(0, false, []), mtu) == Outgoing(0, false, [])
  {
    assert data[..mtu] == data && data[mtu..] == [];
  }

  /** The call of Send in a run with a bundle as long as the segment size. */
  function FullSend(data: seq<byte>, i: nat): Sending {
    var ack := XferAck(SEGMENT_START, 0, |data| % TWO64);
    var s := Sending(data, Outgoing(0, false, []), |data|, Cutting, [], 0, 0, Pending);
    if i <= 1 then Uncut(data)
    else if i <= 3 then s
    else if i == 4 then s.(feedback := [ack])
    else if i == 5 then s.(feedback := [ack], stage := LengthReady)
    else if i == 6 then s.(inLen := |data|, stage := LengthReady)
    else s.(inLen := |data|, outLen := |data|, stage := LengthTaken, verdict := Success)
  }

  /** The states of that run. */
  function FullNet(mtuB: u64, data: seq<byte>, i: nat): Net
    requires |data| < TWO64
  {
    var b := NewPeer(mtuB);
    var b' := b.(inTransfers := map[0 := Incoming(0, false, data)]);
    if i == 0 then Net(NewPeer(|data|), b, [], [])
    else
      Net(Lone(|data|, FullSend(data, i)), if i <= 2 then b else b',
          if i == 2 then [XferSegment(SEGMENT_START, 0, data)] else [],
          if i == 3 then [XferAck(SEGMENT_START, 0, |data|)] else [])
  }

  function FullStep(data: seq<byte>, i: nat): Step {
    if i == 0 then Step(false, Start(data))
    else if i == 1 || i == 4 then Step(false, CutNext(0))
    else if i == 2 then Step(true, Deliver)
    else if i == 3 then Step(false, Deliver)
    else if i == 5 then Step(false, TakeFeedback(0))
    else Step(false, TakeLength(0))
  }

  lemma FullLeads(env: Env, mtuB: u64, data: seq<byte>, i: nat)
    requires 1 <= |data| <= MAX_LEN && ReadBundle(env, data).Done? && i < 7
    ensures Leads(env, FullNet(mtuB, data, i), FullStep(data, i), FullNet(mtuB, data, i + 1))
  {
    hide Leads, ReadBundle, OutSegment, OutRest;
    var mtu: u64 := |data|;
    var b := NewPeer(mtuB);
    var b' := b.(inTransfers := map[0 := Incoming(0, false, data)]);
    SmallMod(|data|, TWO64);
    if i == 0 {
      LoneStart(env, mtu, b, data);
    } else if i == 1 {
      FullSegment(data, mtu);
      LoneCut(env, mtu, b, FullSend(data, 1), []);
    } else if i == 2 {
      LoneAccept(env, mtuB, Lone(mtu, FullSend(data, 2)), XferSegment(SEGMENT_START, 0, data));
    } else if i == 3 {
      LoneAck(env, mtu, b', FullSend(data, 3), XferAck(SEGMENT_START, 0, |data|));
    } else if i == 4 {
      FullSegment(data, mtu);
      LoneCut(env, mtu, b', FullSend(data, 4), []);
    } else if i == 5 {
      LoneFeedback(env, mtu, b', FullSend(data, 5), FullSend(data, 6));
    } else {
      LoneLength(env, mtu, b', FullSend(data, 6), FullSend(data, 7));
    }
  }

  lemma {:induction false} FullRun(env: Env, mtuB: u64, data: seq<byte>, i: nat) returns (steps: seq<Step>)
    requires 1 <= |data| <= MAX_LEN && ReadBundle(env, data).Done? && i <= 7
    ensures Run(env, FullNet(mtuB, data, 0), steps) == Ok(FullNet(mtuB, data, i))
  {
    hide Leads, ReadBundle, FullNet;
    steps := [];
    if i > 0 {
      steps := FullRun(env, mtuB, data, i - 1);
      FullLeads(env, mtuB, data, i - 1);
      Extend(env, FullNet(mtuB, data, 0), steps,
             FullNet(mtuB, data, i - 1), FullStep(data, i - 1), FullNet(mtuB, data, i));
      steps := steps + [FullStep(data, i - 1)];
    }
  }

  /** A bundle exactly as long as the segment size, whatever the size: Send succeeds, the peer has
      every octet, and its transfer has not ended, so the bundle is never handed on. */
  lemma FullBundleNeverEnds(env: Env, mtuB: u64, data: seq<byte>) returns (steps: seq<Step>)
    requires Usable(mtuB) && 1 <= |data| <= MAX_LEN && ReadBundle(env, data).Done?
    ensures var n := Run(env, NewNet(|data|, mtuB), steps);
      && n.Ok? && |n.value.a.sends| == 1 && n.value.a.sends[0].data == data && n.value.a.sends[0].verdict == Success
      && n.value.ab == [] && n.value.ba == []
      && Received(n.value.b, 0) == data && 0 !in n.value.b.finished && 0 in n.value.b.inTransfers
  {
    hide Run, ReadBundle;
    steps := FullRun(env, mtuB, data, 7);
  }
}
