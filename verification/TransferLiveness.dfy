/** Runs of two managers end: every step but a new call of Send uses up some of what is to do. */
module TransferLiveness {
  import opened Bytes
  import opened Messages
  import opened Blocks
  import opened BundleCodec
  import opened Transfer
  import opened TransferRuns

  /** The steps a cutting goroutine and Send's loop can still take for one transfer, apart from
      those its messages cause: an octet is cut, delivered, acknowledged and taken note of. */
  function SendWork(s: Sending): nat {
    4 * |s.transfer.stream| + (if s.stage == Cutting then 2 else if s.stage == LengthReady then 1 else 0) + |s.feedback|
  }

  function PeerWork(sends: seq<Sending>): nat {
    if sends == [] then 0 else PeerWork(sends[..|sends| - 1]) + SendWork(sends[|sends| - 1])
  }

  /** A segment is delivered, its acknowledgement is delivered and taken note of. */
  function MessageWork(m: Message): nat {
    if m.XferSegment? then 3 else if m.XferAck? || m.XferRefuse? then 2 else 1
  }

  function WireWork(wire: seq<Message>): nat {
    if wire == [] then 0 else MessageWork(wire[0]) + WireWork(wire[1..])
  }

  function Work(n: Net): nat {
    PeerWork(n.a.sends) + PeerWork(n.b.sends) + WireWork(n.ab) + WireWork(n.ba)
  }

  lemma {:induction false} PeerWorkUpdate(sends: seq<Sending>, k: nat, s: Sending)
    requires k < |sends|
    ensures PeerWork(sends[k := s]) + SendWork(sends[k]) == PeerWork(sends) + SendWork(s)
  {
    hide SendWork;
    var last := |sends| - 1;
    if k < last {
      PeerWorkUpdate(sends[..last], k, s);
      assert sends[k := s][..last] == sends[..last][k := s];
    } else {
      assert sends[k := s][..last] == sends[..last];
    }
  }

  lemma PeerWorkMore(sends: seq<Sending>, s: Sending)
    ensures PeerWork(sends + [s]) == PeerWork(sends) + SendWork(s)
  {
    assert (sends + [s])[..|sends|] == sends;
  }

  lemma {:induction false} WireWorkMore(wire: seq<Message>, m: Message)
    ensures WireWork(wire + [m]) == WireWork(wire) + MessageWork(m)
  {
    hide MessageWork;
    if wire == [] {
      assert [m][1..] == [];
    } else {
      assert (wire + [m])[1..] == wire[1..] + [m];
      WireWorkMore(wire[1..], m);
    }
  }

  lemma WireWorkOut(wire: seq<Message>, out: seq<Message>)
    requires |out| <= 1
    ensures WireWork(wire + out) == WireWork(wire) + if out == [] then 0 else MessageWork(out[0])
  {
    if out == [] {
      assert wire + out == wire;
    } else {
      assert out == [out[0]];
      WireWorkMore(wire, out[0]);
    }
  }

  /** What each step costs. */
  lemma CutWorks(env: Env, n: Net, k: nat)
    requires Can(env, n, CutNext(k)) && Usable(n.a.mtu) && !n.a.stopped
    ensures Work(Move(env, n, CutNext(k))) < Work(n)
  {
    hide PeerWork, WireWork, SegmentFlags, HasEnd;
    var s := n.a.sends[k];
    var (p, out) := Cut(n.a, k);
    if s.transfer.stream != [] {
      NextFlags(s.transfer, n.a.mtu);
    }
    PeerWorkUpdate(n.a.sends, k, p.sends[k]);
    WireWorkOut(n.ab, out);
  }

  lemma SettleWorks(n: Net, k: nat, s: Sending)
    requires k < |n.a.sends| && SendWork(s) < SendWork(n.a.sends[k])
    ensures Work(n.(a := Settle(n.a, k, s))) < Work(n)
  {
    hide PeerWork, WireWork, SendWork;
    PeerWorkUpdate(n.a.sends, k, s);
  }

  lemma FeedbackWorks(p: Peer, id: u64, m: Message)
    requires Registered(p)
    ensures PeerWork(HandleFeedback(p, id, m).sends) <= PeerWork(p.sends) + 1
  {
    hide PeerWork;
    if id in p.outFeedback {
      var k := p.outFeedback[id];
      PeerWorkUpdate(p.sends, k, p.sends[k].(feedback := p.sends[k].feedback + [m]));
    }
  }

  lemma SegmentAnswer(env: Env, p: Peer, m: Message)
    requires m.XferSegment?
    ensures var (q, out) := HandleSegment(env, p, m);
            q.sends == p.sends && |out| <= 1 && (out != [] ==> out[0].XferAck?)
  {
    hide ReadBundle;
  }

  /** Handling a message takes less work than it brings. */
  lemma HandleWorks(env: Env, p: Peer, m: Message)
    requires Registered(p)
    ensures var (q, out) := Handle(env, p, m);
            |out| <= 1
            && PeerWork(q.sends) + (if out == [] then 0 else MessageWork(out[0])) < PeerWork(p.sends) + MessageWork(m)
  {
    hide PeerWork, HandleSegment, HandleFeedback, Registered;
    if m.XferSegment? {
      SegmentAnswer(env, p, m);
    } else if m.XferAck? {
      FeedbackWorks(p, m.ackId, m);
    } else if m.XferRefuse? {
      FeedbackWorks(p, m.refusedId, m);
    }
  }

  lemma DeliverWorks(env: Env, n: Net)
    requires Can(env, n, Deliver)
    ensures Work(Move(env, n, Deliver)) < Work(n)
  {
    var m := n.ba[0];
    assert WireWork(n.ba) == MessageWork(m) + WireWork(n.ba[1..]);
    hide PeerWork, Handle, WireWork, MessageWork;
    HandleWorks(env, n.a, m);
    WireWorkOut(n.ab, Handle(env, n.a, m).1);
  }

  lemma StepWorks(env: Env, n: Net, e: Event)
    requires Can(env, n, e) && Usable(n.a.mtu) && !n.a.stopped
    ensures match e
      case Start(data) => Work(Move(env, n, e)) == Work(n) + 4 * |data| + 2
      case _ => Work(Move(env, n, e)) < Work(n)
  {
    hide Work, ReadBundle;
    match e
    case Start(data) => StartWorks(env, n, data);
    case CutNext(k) => CutWorks(env, n, k);
    case Deliver => DeliverWorks(env, n);
    case TakeLength(k) => SettleWorks(n, k, WithLength(n.a.sends[k]));
    case TakeFeedback(k) => SettleWorks(n, k, WithFeedback(n.a.sends[k]));
  }

  lemma StartWorks(env: Env, n: Net, data: seq<byte>)
    requires Can(env, n, Start(data))
    ensures Work(Move(env, n, Start(data))) == Work(n) + 4 * |data| + 2
  {
    hide PeerWork, WireWork, ReadBundle;
    PeerWorkMore(n.a.sends, Sending(data, Outgoing(n.a.outNextId, true, data), 0, Cutting, [], 0, 0, Pending));
  }

  /** The octets handed to Send in a run, at four steps each and two for their end. */
  function Asked(steps: seq<Step>): nat {
    if steps == [] then 0
    else
      var e := steps[|steps| - 1].event;
      Asked(steps[..|steps| - 1]) + if e.Start? then 4 * |e.data| + 2 else 0
  }

  /** The steps of a run that are no calls of Send. */
  function StepsTaken(steps: seq<Step>): nat {
    if steps == [] then 0
    else StepsTaken(steps[..|steps| - 1]) + if steps[|steps| - 1].event.Start? then 0 else 1
  }

  /** Runs are bounded: apart from calls of Send a run has at most four steps for each octet handed
      to Send and two for each call, less the work that is left. */
  lemma {:induction false} RunBounded(env: Env, mtuA: u64, mtuB: u64, steps: seq<Step>)
    requires Usable(mtuA) && Usable(mtuB) && Run(env, NewNet(mtuA, mtuB), steps).Ok?
    ensures StepsTaken(steps) + Work(Run(env, NewNet(mtuA, mtuB), steps).value) <= Asked(steps)
  {
    if steps != [] {
      hide Work, Can, Move, Half;
      var front, s := steps[..|steps| - 1], steps[|steps| - 1];
      RunBounded(env, mtuA, mtuB, front);
      var m := Run(env, NewNet(mtuA, mtuB), front).value;
      SeenIsHalf(env, mtuA, mtuB, front, s.atB);
      SenderIsUsable(env, if s.atB then Flip(m) else m);
      StepWorks(env, if s.atB then Flip(m) else m, s.event);
      FlipWorks(m);
      FlipWorks(Move(env, if s.atB then Flip(m) else m, s.event));
    }
  }

  lemma SenderIsUsable(env: Env, n: Net)
    requires Half(env, n)
    ensures Usable(n.a.mtu) && !n.a.stopped && !n.a.crashed && Registered(n.a)
  {
  }

  lemma FlipWorks(n: Net)
    ensures Work(Flip(n)) == Work(n)
  {
  }
}
