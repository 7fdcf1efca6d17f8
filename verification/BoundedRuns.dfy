/** Two managers behind their session loops. Every channel is bounded, so whoever writes to a full
    one waits; a session loop is one goroutine for both directions, so it cannot read one channel
    while it waits to write to another. Every run is a run of TransferRuns, with what is under way
    spread over the channels. */
module BoundedRuns {
  import opened Bytes
  import opened Messages
  import opened Blocks
  import opened BundleCodec
  import opened Transfer
  import opened TransferRuns

  /** How many messages a channel between a manager and its session loop holds, and a call's channel
      of acknowledgements, and how many the connection between the two session loops holds. */
  datatype Caps = Caps(exchange: nat, wire: nat)

  /** How many of the messages from one manager to the other are in the channel to the session loop,
      in that loop's hand, on the connection, in the other loop's hand, in the channel to the other
      manager, and in that manager's hand. Messages do not overtake each other. */
  datatype Path = Path(outbox: nat, outHand: nat, wire: nat, inHand: nat, inbox: nat, held: nat)

  function Count(p: Path): nat { p.outbox + p.outHand + p.wire + p.inHand + p.inbox + p.held }

  datatype Session = Session(net: Net, ab: Path, ba: Path)

  function Turned(s: Session): Session { Session(Flip(s.net), s.ba, s.ab) }

  /** What can happen at peer a: an event of the manager, or the session loop reads or writes one of
      its channels, or the manager reads the next message. */
  datatype Turn = Manage(event: Event) | FetchOut | WriteOut | FetchIn | WriteIn | Accept

  datatype Act = Act(atB: bool, turn: Turn)

  predicate IsStart(t: Turn) { t.Manage? && t.event.Start? }

  predicate HandFree(s: Session) { s.ab.outHand == 0 && s.ba.inHand == 0 }

  /** What an event of a's manager writes to its channel. */
  function Output(env: Env, n: Net, e: Event): seq<Message>
    requires Can(env, n, e)
  {
    match e
    case CutNext(k) => Cut(n.a, k).1
    case Deliver => Handle(env, n.a, n.ba[0]).1
    case _ => []
  }

  /** The call's channel an acknowledgement or a refusal goes to has room. */
  predicate FeedbackRoom(caps: Caps, p: Peer, m: Message)
    requires Registered(p)
  {
    m.XferAck? || m.XferRefuse? ==>
      var id := if m.XferAck? then m.ackId else m.refusedId;
      id in p.outFeedback ==> |p.sends[p.outFeedback[id]].feedback| < caps.exchange
  }

  predicate HasRoom(caps: Caps, env: Env, s: Session, e: Event)
    requires Can(env, s.net, e)
  {
    && (Output(env, s.net, e) != [] ==> s.ab.outbox + |Output(env, s.net, e)| <= caps.exchange)
    && (e.Deliver? ==> s.ba.held > 0 && FeedbackRoom(caps, s.net.a, s.net.ba[0]))
  }

  predicate Enabled(caps: Caps, env: Env, s: Session, t: Turn) {
    !s.net.a.crashed
    && match t
       case Manage(e) => Can(env, s.net, e) && HasRoom(caps, env, s, e)
       case FetchOut => HandFree(s) && s.ab.outbox > 0
       case WriteOut => s.ab.outHand > 0 && s.ab.wire < caps.wire
       case FetchIn => HandFree(s) && s.ba.wire > 0
       case WriteIn => s.ba.inHand > 0 && s.ba.inbox < caps.exchange
       case Accept => !s.net.a.failed && s.ba.held == 0 && s.ba.inbox > 0
  }

  function After(caps: Caps, env: Env, s: Session, t: Turn): Session
    requires Enabled(caps, env, s, t)
  {
    match t
    case Manage(e) =>
      Session(Move(env, s.net, e), s.ab.(outbox := s.ab.outbox + |Output(env, s.net, e)|),
              if e.Deliver? then s.ba.(held := s.ba.held - 1) else s.ba)
    case FetchOut => s.(ab := s.ab.(outbox := s.ab.outbox - 1, outHand := s.ab.outHand + 1))
    case WriteOut => s.(ab := s.ab.(outHand := s.ab.outHand - 1, wire := s.ab.wire + 1))
    case FetchIn => s.(ba := s.ba.(wire := s.ba.wire - 1, inHand := s.ba.inHand + 1))
    case WriteIn => s.(ba := s.ba.(inHand := s.ba.inHand - 1, inbox := s.ba.inbox + 1))
    case Accept => s.(ba := s.ba.(inbox := s.ba.inbox - 1, held := s.ba.held + 1))
  }

  predicate CanAct(caps: Caps, env: Env, s: Session, act: Act) {
    Enabled(caps, env, if act.atB then Turned(s) else s, act.turn)
  }

  function Acted(caps: Caps, env: Env, s: Session, act: Act): Session
    requires CanAct(caps, env, s, act)
  {
    if act.atB then Turned(After(caps, env, Turned(s), act.turn)) else After(caps, env, s, act.turn)
  }

  /** The session after a run, or an error when an act was not possible. */
  function Play(caps: Caps, env: Env, s: Session, acts: seq<Act>): Result<Session> {
    if acts == [] then Ok(s)
    else
      match Play(caps, env, s, acts[..|acts| - 1])
      case Err => Err
      case Ok(t) =>
        if CanAct(caps, env, t, acts[|acts| - 1]) then Ok(Acted(caps, env, t, acts[|acts| - 1])) else Err
  }

  lemma LastAct(caps: Caps, env: Env, s: Session, acts: seq<Act>)
    requires acts != [] && Play(caps, env, s, acts).Ok?
    ensures var front, last := Play(caps, env, s, acts[..|acts| - 1]), acts[|acts| - 1];
      front.Ok? && CanAct(caps, env, front.value, last)
      && Play(caps, env, s, acts) == Ok(Acted(caps, env, front.value, last))
  {
    hide CanAct, Acted;
  }

  const EMPTY_PATH := Path(0, 0, 0, 0, 0, 0)

  function NewSession(mtuA: u64, mtuB: u64): Session { Session(NewNet(mtuA, mtuB), EMPTY_PATH, EMPTY_PATH) }

  /* ---- every run is a run of the managers alone ---- */

  /** The events of the managers in a run. */
  function Managed(acts: seq<Act>): seq<Step> {
    if acts == [] then []
    else
      var front, last := Managed(acts[..|acts| - 1]), acts[|acts| - 1];
      if last.turn.Manage? then front + [Step(last.atB, last.turn.event)] else front
  }

  lemma StepAppended(env: Env, n: Net, steps: seq<Step>, m: Net, s: Step)
    requires Run(env, n, steps) == Ok(m)
    requires Can(env, if s.atB then Flip(m) else m, s.event)
    ensures Run(env, n, steps + [s])
         == Ok(if s.atB then Flip(Move(env, Flip(m), s.event)) else Move(env, m, s.event))
  {
    hide Can, Move;
    assert (steps + [s])[..|steps|] == steps;
  }

  /** Bounded channels and session loops only delay: what a run does to the managers and to the
      messages between them, its own events of the managers do. So every property of the states of
      all runs in TransferRuns holds here. */
  lemma {:induction false} Refines(caps: Caps, env: Env, s: Session, acts: seq<Act>)
    requires Play(caps, env, s, acts).Ok?
    ensures Run(env, s.net, Managed(acts)) == Ok(Play(caps, env, s, acts).value.net)
  {
    hide Can, Move, HasRoom, Output;
    if acts != [] {
      var front, last := acts[..|acts| - 1], acts[|acts| - 1];
      Refines(caps, env, s, front);
      var t := Play(caps, env, s, front).value;
      if last.turn.Manage? {
        StepAppended(env, s.net, Managed(front), t.net, Step(last.atB, last.turn.event));
      }
    }
  }

  /* ---- where messages are ---- */

  /** No more messages in a place than it holds, and one in the hand of a session loop. */
  predicate Tidy(caps: Caps, s: Session) {
    && Count(s.ab) == |s.net.ab| && s.ab.outHand + s.ba.inHand <= 1
    && s.ab.outbox <= caps.exchange && s.ab.wire <= caps.wire && s.ab.inbox <= caps.exchange && s.ab.held <= 1
  }

  /** The invariant of the managers, and messages in their places. */
  predicate Sound(caps: Caps, env: Env, s: Session) {
    Inv(env, s.net) && Tidy(caps, s) && Tidy(caps, Turned(s))
  }

  lemma MoveOutput(env: Env, n: Net, e: Event)
    requires Can(env, n, e)
    ensures Move(env, n, e).ab == n.ab + Output(env, n, e) && Move(env, n, e).b == n.b
    ensures Move(env, n, e).ba == if e.Deliver? then n.ba[1..] else n.ba
    ensures e.Deliver? ==> n.ba != []
  {
    hide Cut, Handle, Settle, StartSend;
    assert n.ab + [] == n.ab;
  }

  lemma ManageKeeps(caps: Caps, env: Env, s: Session, e: Event)
    requires Sound(caps, env, s) && Enabled(caps, env, s, Manage(e))
    ensures Sound(caps, env, After(caps, env, s, Manage(e)))
  {
    hide Inv, Can, Move, Output;
    StepKeeps(env, s.net, e);
    MoveOutput(env, s.net, e);
  }

  lemma TurnKeeps(caps: Caps, env: Env, s: Session, t: Turn)
    requires Sound(caps, env, s) && Enabled(caps, env, s, t)
    ensures Sound(caps, env, After(caps, env, s, t))
  {
    if t.Manage? {
      ManageKeeps(caps, env, s, t.event);
    } else {
      hide Inv, Can, Move, Output, HasRoom;
    }
  }

  lemma TurnedSound(caps: Caps, env: Env, s: Session)
    ensures Sound(caps, env, Turned(s)) <==> Sound(caps, env, s)
    ensures Turned(Turned(s)) == s
  {
    hide Inv, Tidy;
    FlipKeeps(env, s.net);
  }

  lemma ActKeeps(caps: Caps, env: Env, s: Session, act: Act)
    requires Sound(caps, env, s) && CanAct(caps, env, s, act)
    ensures Sound(caps, env, Acted(caps, env, s, act))
  {
    hide Sound, Enabled, After, Turned;
    TurnedSound(caps, env, s);
    TurnKeeps(caps, env, if act.atB then Turned(s) else s, act.turn);
    TurnedSound(caps, env, After(caps, env, if act.atB then Turned(s) else s, act.turn));
  }

  /** In every state of every run the managers keep their invariant and messages their places. */
  lemma {:induction false} PlayKeeps(caps: Caps, env: Env, s: Session, acts: seq<Act>)
    requires Sound(caps, env, s) && Play(caps, env, s, acts).Ok?
    ensures Sound(caps, env, Play(caps, env, s, acts).value)
  {
    hide Sound, CanAct, Acted;
    if acts != [] {
      PlayKeeps(caps, env, s, acts[..|acts| - 1]);
      ActKeeps(caps, env, Play(caps, env, s, acts[..|acts| - 1]).value, acts[|acts| - 1]);
    }
  }

  lemma TidyWhenEmpty(caps: Caps, s: Session)
    requires s.net.ab == [] && s.ab == EMPTY_PATH && s.ba == EMPTY_PATH
    ensures Tidy(caps, s)
  {
  }

  lemma NewSessionSound(caps: Caps, env: Env, mtuA: u64, mtuB: u64)
    requires Usable(mtuA) && Usable(mtuB)
    ensures Sound(caps, env, NewSession(mtuA, mtuB))
  {
    NewNetInv(env, mtuA, mtuB);
    hide Inv, NewPeer;
    TidyWhenEmpty(caps, NewSession(mtuA, mtuB));
    TidyWhenEmpty(caps, Turned(NewSession(mtuA, mtuB)));
  }

  lemma {:induction false} PlayAppend(caps: Caps, env: Env, s: Session, acts: seq<Act>, more: seq<Act>)
    requires Play(caps, env, s, acts).Ok?
    ensures Play(caps, env, s, acts + more) == Play(caps, env, Play(caps, env, s, acts).value, more)
    decreases |more|
  {
    hide CanAct, Acted;
    if more == [] {
      assert acts + more == acts;
    } else {
      var front := more[..|more| - 1];
      PlayAppend(caps, env, s, acts, front);
      assert (acts + more)[..|acts + more| - 1] == acts + front;
    }
  }

  /* ---- segments still to come ---- */

  /** The segments n octets are cut into. */
  function SegmentCount(n: nat, mtu: nat): nat
    requires mtu >= 1
  {
    if n == 0 then 0 else 1 + SegmentCount(if n < mtu then 0 else n - mtu, mtu)
  }

  /** That is n divided by the segment size, rounded up. */
  lemma {:induction false} SegmentCountIsCeiling(n: nat, mtu: nat)
    requires mtu >= 1
    ensures SegmentCount(n, mtu) == (n + mtu - 1) / mtu
  {
    if n >= mtu {
      SegmentCountIsCeiling(n - mtu, mtu);
      var q, r := (n - 1) / mtu, (n - 1) % mtu;
      assert n + mtu - 1 == mtu * (q + 1) + r;
      DivisionUnique(n + mtu - 1, mtu, q + 1, r);
    } else if n > 0 {
      assert n + mtu - 1 == mtu * 1 + (n - 1);
      DivisionUnique(n + mtu - 1, mtu, 1, n - 1);
    } else {
      DivisionUnique(mtu - 1, mtu, 0, mtu - 1);
    }
  }

  lemma DivisionUnique(n: nat, d: nat, q: nat, r: nat)
    requires d >= 1 && r < d && n == d * q + r
    ensures n / d == q
  {
    ModUnique(n, d, q, r);
    assert d * (n / d) == d * q;
  }

  function UnsentSegments(sends: seq<Sending>, mtu: u64): nat
    requires mtu >= 1
  {
    if sends == [] then 0
    else
      UnsentSegments(sends[..|sends| - 1], mtu) + SegmentCount(|sends[|sends| - 1].transfer.stream|, mtu)
  }

  function Unsent(p: Peer): nat
    requires Usable(p.mtu)
  {
    UnsentSegments(p.sends, p.mtu)
  }

  /** The segments that have not been cut, the segments under way and the acknowledgements under way:
      each is another segment of a call of Send. */
  function Left(n: Net): nat
    requires Usable(n.a.mtu) && Usable(n.b.mtu)
  {
    |n.ab| + |n.ba| + Unsent(n.a) + Unsent(n.b)
  }

  lemma {:induction false} UnsentUpdate(sends: seq<Sending>, mtu: u64, k: nat, s: Sending)
    requires k < |sends| && mtu >= 1
    ensures UnsentSegments(sends[k := s], mtu) + SegmentCount(|sends[k].transfer.stream|, mtu)
         == UnsentSegments(sends, mtu) + SegmentCount(|s.transfer.stream|, mtu)
  {
    hide SegmentCount;
    var last := |sends| - 1;
    if k < last {
      UnsentUpdate(sends[..last], mtu, k, s);
      assert sends[k := s][..last] == sends[..last][k := s];
    } else {
      assert sends[k := s][..last] == sends[..last];
    }
  }

  lemma UnsentMore(sends: seq<Sending>, mtu: u64, s: Sending)
    requires mtu >= 1
    ensures UnsentSegments(sends + [s], mtu) == UnsentSegments(sends, mtu) + SegmentCount(|s.transfer.stream|, mtu)
  {
    assert (sends + [s])[..|sends|] == sends;
  }

  lemma CutCounts(env: Env, n: Net, k: nat)
    requires Can(env, n, CutNext(k)) && Usable(n.a.mtu) && !n.a.stopped
    ensures var (p, out) := Cut(n.a, k);
      && p.mtu == n.a.mtu && Unsent(p) + |out| == Unsent(n.a)
      && (out == [] || (|out| == 1 && out[0].XferSegment?))
      && (out == [] <==> n.a.sends[k].transfer.stream == [])
  {
    hide UnsentSegments, SegmentFlags;
    var s := n.a.sends[k];
    UnsentUpdate(n.a.sends, n.a.mtu, k, Cut(n.a, k).0.sends[k]);
  }

  lemma FeedbackCounts(p: Peer, id: u64, m: Message)
    requires Registered(p) && Usable(p.mtu)
    ensures var q := HandleFeedback(p, id, m); q.mtu == p.mtu && Unsent(q) == Unsent(p)
  {
    hide UnsentSegments;
    if id in p.outFeedback {
      var k := p.outFeedback[id];
      UnsentUpdate(p.sends, p.mtu, k, p.sends[k].(feedback := p.sends[k].feedback + [m]));
    }
  }

  lemma SegmentAnswered(env: Env, p: Peer, m: Message)
    requires m.XferSegment?
    ensures var (q, out) := HandleSegment(env, p, m);
            q.sends == p.sends && q.mtu == p.mtu && |out| <= 1
  {
    hide ReadBundle;
  }

  lemma HandleCounts(env: Env, p: Peer, m: Message)
    requires Registered(p) && Usable(p.mtu)
    ensures var (q, out) := Handle(env, p, m); q.mtu == p.mtu && Unsent(q) == Unsent(p) && |out| <= 1
  {
    hide UnsentSegments, HandleSegment, HandleFeedback, Registered;
    if m.XferSegment? {
      SegmentAnswered(env, p, m);
    } else if m.XferAck? {
      FeedbackCounts(p, m.ackId, m);
    } else if m.XferRefuse? {
      FeedbackCounts(p, m.refusedId, m);
    }
  }

  lemma SettleCounts(p: Peer, k: nat, s: Sending)
    requires k < |p.sends| && Usable(p.mtu) && s.transfer == p.sends[k].transfer
    ensures var q := Settle(p, k, s); q.mtu == p.mtu && Unsent(q) == Unsent(p)
  {
    hide UnsentSegments;
    UnsentUpdate(p.sends, p.mtu, k, s);
  }

  lemma StartCounts(p: Peer, data: seq<byte>)
    requires Usable(p.mtu)
    ensures var q := StartSend(p, data); q.mtu == p.mtu && Unsent(q) == Unsent(p) + SegmentCount(|data|, p.mtu)
  {
    hide SegmentCount;
    UnsentMore(p.sends, p.mtu, Sending(data, Outgoing(p.outNextId, true, data), 0, Cutting, [], 0, 0, Pending));
  }

  /** The segments a call of Send adds. */
  function Added(e: Event, mtu: u64): nat
    requires mtu >= 1
  {
    if e.Start? then SegmentCount(|e.data|, mtu) else 0
  }

  lemma PeerCounts(env: Env, n: Net, e: Event)
    requires Can(env, n, e) && Usable(n.a.mtu) && !n.a.stopped
    ensures var p := Move(env, n, e).a;
      && p.mtu == n.a.mtu && |Output(env, n, e)| <= 1
      && Unsent(p) + (if e.CutNext? then |Output(env, n, e)| else 0) == Unsent(n.a) + Added(e, n.a.mtu)
  {
    hide Unsent, Cut, Handle, StartSend, Settle, WithLength, WithFeedback, SegmentCount;
    match e
    case Start(data) => StartCounts(n.a, data);
    case CutNext(k) => CutCounts(env, n, k);
    case Deliver => HandleCounts(env, n.a, n.ba[0]);
    case TakeLength(k) =>
      KeepsTransfer(n.a.sends[k]);
      SettleCounts(n.a, k, WithLength(n.a.sends[k]));
    case TakeFeedback(k) =>
      KeepsTransfer(n.a.sends[k]);
      SettleCounts(n.a, k, WithFeedback(n.a.sends[k]));
  }

  lemma KeepsTransfer(s: Sending)
    ensures WithLength(s).transfer == s.transfer
    ensures s.feedback != [] ==> WithFeedback(s).transfer == s.transfer
  {
  }

  /** No event but a call of Send adds to what is left. */
  lemma EventCounts(env: Env, n: Net, e: Event)
    requires Can(env, n, e) && Usable(n.a.mtu) && Usable(n.b.mtu) && !n.a.stopped
    ensures var m := Move(env, n, e);
            m.a.mtu == n.a.mtu && m.b.mtu == n.b.mtu && Left(m) <= Left(n) + Added(e, n.a.mtu)
  {
    hide Move, Can, Unsent, Cut, Handle, Added;
    MoveOutput(env, n, e);
    PeerCounts(env, n, e);
  }
}
