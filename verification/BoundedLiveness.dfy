/** Runs with bounded channels end, and where they end every call of Send has succeeded unless there
    was enough to do for a session loop and its manager to wait for each other. */
module BoundedLiveness {
  import opened Bytes
  import opened Messages
  import opened Blocks
  import opened BundleCodec
  import opened Transfer
  import opened TransferRuns
  import opened TransferLiveness
  import opened BoundedRuns

  /* ---- runs are bounded ---- */

  /** The turns it takes until the manager at the other end holds every message of a path. */
  function MovesLeft(p: Path): nat { 5 * p.outbox + 4 * p.outHand + 3 * p.wire + 2 * p.inHand + p.inbox }

  /** A message an event writes takes five turns to the other manager. */
  function Effort(s: Session): nat { 6 * Work(s.net) + MovesLeft(s.ab) + MovesLeft(s.ba) }

  lemma SoundSender(caps: Caps, env: Env, s: Session)
    requires Sound(caps, env, s)
    ensures Usable(s.net.a.mtu) && Usable(s.net.b.mtu) && !s.net.a.stopped && !s.net.b.stopped
    ensures !s.net.a.crashed && !s.net.b.crashed && !s.net.a.failed && !s.net.b.failed
    ensures Registered(s.net.a) && Registered(s.net.b) && |s.net.a.sends| <= TWO64 && |s.net.b.sends| <= TWO64
  {
    hide AllGood, ReadBundle, TransferRuns.Known, Regular;
  }

  lemma TurnWorks(caps: Caps, env: Env, s: Session, t: Turn)
    requires Sound(caps, env, s) && Enabled(caps, env, s, t) && !IsStart(t)
    ensures Effort(After(caps, env, s, t)) < Effort(s)
  {
    SoundSender(caps, env, s);
    hide Sound, Work, Can, Move, Output, HasRoom;
    match t
    case Manage(e) =>
      StepWorks(env, s.net, e);
      PeerCounts(env, s.net, e);
    case _ =>
  }

  lemma TurnedEffort(s: Session)
    ensures Effort(Turned(s)) == Effort(s)
  {
    FlipWorks(s.net);
    hide Work;
  }

  lemma StartEffort(caps: Caps, env: Env, s: Session, t: Turn)
    requires Sound(caps, env, s) && Enabled(caps, env, s, t) && IsStart(t)
    ensures Effort(After(caps, env, s, t)) == Effort(s) + 6 * (4 * |t.event.data| + 2)
  {
    SoundSender(caps, env, s);
    StartWorks(env, s.net, t.event.data);
    hide Sound, Work, Can, Move;
  }

  lemma ActWorks(caps: Caps, env: Env, s: Session, act: Act)
    requires Sound(caps, env, s) && CanAct(caps, env, s, act)
    ensures var t := Acted(caps, env, s, act);
            if IsStart(act.turn) then Effort(t) == Effort(s) + 6 * (4 * |act.turn.event.data| + 2)
            else Effort(t) < Effort(s)
  {
    hide Sound, Effort, Enabled, After, Turned;
    var seen := if act.atB then Turned(s) else s;
    TurnedSound(caps, env, s);
    TurnedEffort(s);
    if IsStart(act.turn) {
      StartEffort(caps, env, seen, act.turn);
    } else {
      TurnWorks(caps, env, seen, act.turn);
    }
    TurnedEffort(After(caps, env, seen, act.turn));
  }

  predicate NoStarts(acts: seq<Act>) {
    forall i :: 0 <= i < |acts| ==> !IsStart(acts[i].turn)
  }

  /** The acts of a run that are no calls of Send. */
  function ActsTaken(acts: seq<Act>): nat {
    if acts == [] then 0
    else ActsTaken(acts[..|acts| - 1]) + if IsStart(acts[|acts| - 1].turn) then 0 else 1
  }

  lemma TakenMore(acts: seq<Act>)
    requires acts != []
    ensures ActsTaken(acts) == ActsTaken(acts[..|acts| - 1]) + if IsStart(acts[|acts| - 1].turn) then 0 else 1
  {
  }

  lemma AskedMore(acts: seq<Act>)
    requires acts != []
    ensures var last := acts[|acts| - 1].turn;
            Asked(Managed(acts))
            == Asked(Managed(acts[..|acts| - 1])) + if IsStart(last) then 4 * |last.event.data| + 2 else 0
  {
    var front, last := Managed(acts[..|acts| - 1]), acts[|acts| - 1];
    if last.turn.Manage? {
      assert (front + [Step(last.atB, last.turn.event)])[..|front|] == front;
    }
  }

  /** Runs with bounded channels are bounded: an event of a manager takes up to five more turns to
      carry what it writes. */
  lemma {:induction false} PlayBounded(caps: Caps, env: Env, mtuA: u64, mtuB: u64, acts: seq<Act>)
    requires Usable(mtuA) && Usable(mtuB) && Play(caps, env, NewSession(mtuA, mtuB), acts).Ok?
    ensures ActsTaken(acts) + Effort(Play(caps, env, NewSession(mtuA, mtuB), acts).value) <= 6 * Asked(Managed(acts))
  {
    hide Sound, Effort, CanAct, Acted, NewSession, Asked, Managed, ActsTaken, Play;
    if acts == [] {
      NothingPlayed(caps, env, mtuA, mtuB);
    } else {
      LastAct(caps, env, NewSession(mtuA, mtuB), acts);
      var front, last := acts[..|acts| - 1], acts[|acts| - 1];
      PlayBounded(caps, env, mtuA, mtuB, front);
      NewSessionSound(caps, env, mtuA, mtuB);
      PlayKeeps(caps, env, NewSession(mtuA, mtuB), front);
      ActWorks(caps, env, Play(caps, env, NewSession(mtuA, mtuB), front).value, last);
      AskedMore(acts);
      TakenMore(acts);
    }
  }

  lemma NothingPlayed(caps: Caps, env: Env, mtuA: u64, mtuB: u64)
    ensures Play(caps, env, NewSession(mtuA, mtuB), []) == Ok(NewSession(mtuA, mtuB))
    ensures Effort(NewSession(mtuA, mtuB)) == 0 && ActsTaken([]) == 0
  {
    hide Effort, Enabled, CanAct, Acted;
    NoEffort(NewSession(mtuA, mtuB));
  }

  lemma NoEffort(s: Session)
    requires s.net.a.sends == [] && s.net.b.sends == [] && s.net.ab == [] && s.net.ba == []
    requires s.ab == EMPTY_PATH && s.ba == EMPTY_PATH
    ensures Effort(s) == 0
  {
  }

  /* ---- where nothing can happen ---- */

  /** Nothing can happen at peer a but another call of Send. */
  ghost predicate Still(caps: Caps, env: Env, s: Session) {
    forall t: Turn :: !IsStart(t) ==> !Enabled(caps, env, s, t)
  }

  /** Nothing can happen at either peer. */
  ghost predicate Quiet(caps: Caps, env: Env, s: Session) {
    Still(caps, env, s) && Still(caps, env, Turned(s))
  }

  lemma EventsStill(caps: Caps, env: Env, s: Session, k: nat)
    requires Still(caps, env, s)
    ensures !Enabled(caps, env, s, Manage(TakeLength(k))) && !Enabled(caps, env, s, Manage(TakeFeedback(k)))
    ensures !Enabled(caps, env, s, Manage(CutNext(k))) && !Enabled(caps, env, s, Manage(Deliver))
    ensures !Enabled(caps, env, s, FetchOut) && !Enabled(caps, env, s, WriteOut)
    ensures !Enabled(caps, env, s, FetchIn) && !Enabled(caps, env, s, WriteIn) && !Enabled(caps, env, s, Accept)
  {
    hide Enabled;
  }

  lemma StillCannotTake(caps: Caps, env: Env, s: Session, k: nat)
    requires Sound(caps, env, s) && Still(caps, env, s)
    ensures !Can(env, s.net, TakeLength(k)) && !Can(env, s.net, TakeFeedback(k))
  {
    SoundSender(caps, env, s);
    EventsStill(caps, env, s, k);
    hide Sound, Still, Can;
  }

  /** A call's channel of acknowledgements is never what a manager waits for. */
  lemma AcksFindRoom(caps: Caps, env: Env, s: Session)
    requires caps.exchange >= 1 && Sound(caps, env, s) && Still(caps, env, s) && s.net.ba != []
    ensures FeedbackRoom(caps, s.net.a, s.net.ba[0])
  {
    hide Still, Half, Tidy, Good, ViewOf;
    SoundSender(caps, env, s);
    var m := s.net.ba[0];
    WiresAreRegular(env, s.net);
    if m.XferAck? {
      AckFindsSend(env, s.net);
      PendingListens(env, s.net, m.ackId);
      StillCannotTake(caps, env, s, m.ackId);
    }
  }

  lemma DeliverRoom(caps: Caps, env: Env, s: Session)
    requires Sound(caps, env, s) && s.net.ba != [] && s.ba.held > 0 && FeedbackRoom(caps, s.net.a, s.net.ba[0])
    requires s.ab.outbox + |Handle(env, s.net.a, s.net.ba[0]).1| <= caps.exchange
    ensures Enabled(caps, env, s, Manage(Deliver))
  {
    SoundSender(caps, env, s);
    hide Sound, Handle, FeedbackRoom;
  }

  lemma AckNotAnswered(env: Env, p: Peer, m: Message)
    requires Registered(p) && m.XferAck?
    ensures Handle(env, p, m).1 == []
  {
  }

  /** A manager that holds a message waits for room for its answer. */
  lemma HeldWaits(caps: Caps, env: Env, s: Session)
    requires caps.exchange >= 1 && Sound(caps, env, s) && Still(caps, env, s) && s.ba.held > 0
    ensures s.net.ba != [] && s.net.ba[0].XferSegment? && s.ab.outbox == caps.exchange
  {
    hide Enabled, Still, Inv, FeedbackRoom, Handle, Unsent;
    EventsStill(caps, env, s, 0);
    AcksFindRoom(caps, env, s);
    SoundSender(caps, env, s);
    HandleCounts(env, s.net.a, s.net.ba[0]);
    WiresAreRegular(env, s.net);
    if s.net.ba[0].XferAck? {
      AckNotAnswered(env, s.net.a, s.net.ba[0]);
    }
    if s.net.ba[0].XferAck? || s.ab.outbox < caps.exchange {
      DeliverRoom(caps, env, s);
    }
  }

  /** A peer whose session loop waits for nobody has nothing in its hands and its channels. */
  lemma FreeHandIsDone(caps: Caps, env: Env, s: Session)
    requires caps.exchange >= 1 && Sound(caps, env, s) && Still(caps, env, s) && HandFree(s)
    ensures s.ab.outbox == 0 && s.ba.wire == 0 && s.ba.inbox == 0 && s.ba.held == 0
  {
    hide Sound, Still, Can, HasRoom;
    EventsStill(caps, env, s, 0);
    SoundSender(caps, env, s);
    if s.ba.held > 0 {
      HeldWaits(caps, env, s);
    }
  }

  /** A session loop that waits for its manager waits for one that waits for it. */
  lemma InHandIsLocked(caps: Caps, env: Env, s: Session)
    requires caps.exchange >= 1 && Sound(caps, env, s) && Still(caps, env, s) && s.ba.inHand > 0
    ensures s.ba.inbox == caps.exchange && s.ba.held == 1 && s.ab.outbox == caps.exchange
    ensures s.net.ba != [] && s.net.ba[0].XferSegment?
  {
    hide Still, Inv, Can, HasRoom;
    EventsStill(caps, env, s, 0);
    SoundSender(caps, env, s);
    if s.ba.held > 0 {
      HeldWaits(caps, env, s);
    }
  }

  lemma OutHandIsBlocked(caps: Caps, env: Env, s: Session)
    requires Sound(caps, env, s) && Still(caps, env, s) && s.ab.outHand > 0
    ensures s.ab.wire == caps.wire
  {
    hide Still, Inv, Can, HasRoom;
    EventsStill(caps, env, s, 0);
    SoundSender(caps, env, s);
  }

  /** What is left when a session loop waits. */
  lemma WaitingCounts(caps: Caps, env: Env, s: Session)
    requires 1 <= caps.exchange <= caps.wire && Sound(caps, env, s) && Quiet(caps, env, s) && !HandFree(s)
    ensures |s.net.ab| + |s.net.ba| >= 2 * caps.exchange + 2
  {
    hide Still, Inv;
    TurnedSound(caps, env, s);
    if s.ba.inHand > 0 {
      InHandIsLocked(caps, env, s);
    } else {
      OutHandIsBlocked(caps, env, s);
      if s.ab.inHand > 0 {
        InHandIsLocked(caps, env, Turned(s));
      } else if s.ba.outHand > 0 {
        OutHandIsBlocked(caps, env, Turned(s));
      } else {
        FreeHandIsDone(caps, env, Turned(s));
      }
    }
  }

  /** With less left than it takes to lock a peer, everything has been delivered in the end. */
  lemma QuietIsEmpty(caps: Caps, env: Env, s: Session)
    requires 1 <= caps.exchange <= caps.wire && Sound(caps, env, s) && Quiet(caps, env, s)
    requires |s.net.ab| + |s.net.ba| <= 2 * caps.exchange + 1
    ensures s.net.ab == [] && s.net.ba == [] && s.ab == EMPTY_PATH
  {
    hide Still, Inv;
    TurnedSound(caps, env, s);
    if !HandFree(s) {
      WaitingCounts(caps, env, s);
    } else if !HandFree(Turned(s)) {
      WaitingCounts(caps, env, Turned(s));
    } else {
      FreeHandIsDone(caps, env, s);
      FreeHandIsDone(caps, env, Turned(s));
    }
  }

  lemma QuietSucceeds(caps: Caps, env: Env, s: Session, k: nat)
    requires 1 <= caps.exchange <= caps.wire && Sound(caps, env, s) && Quiet(caps, env, s)
    requires |s.net.ab| + |s.net.ba| <= 2 * caps.exchange + 1 && k < |s.net.a.sends|
    ensures s.net.a.sends[k].verdict == Success
  {
    hide Still, Can, Half, Enabled, Tidy;
    QuietIsEmpty(caps, env, s);
    SoundSender(caps, env, s);
    StillCannotTake(caps, env, s, k);
    EventsStill(caps, env, s, k);
    if Can(env, s.net, CutNext(k)) {
      CutHasRoom(caps, env, s, k);
    }
    QuietHalf(env, s.net, k);
  }

  lemma CutHasRoom(caps: Caps, env: Env, s: Session, k: nat)
    requires Sound(caps, env, s) && s.ab.outbox < caps.exchange && Can(env, s.net, CutNext(k))
    ensures Enabled(caps, env, s, Manage(CutNext(k)))
  {
    hide Sound, Can, Output, Move;
    SoundSender(caps, env, s);
    PeerCounts(env, s.net, CutNext(k));
  }

  /* ---- what is left ---- */

  /** What a run hands to Send at one of the peers, in order. */
  function Given(acts: seq<Act>, atB: bool): seq<seq<byte>> {
    if acts == [] then []
    else
      var front, last := Given(acts[..|acts| - 1], atB), acts[|acts| - 1];
      if last.atB == atB && IsStart(last.turn) then front + [last.turn.event.data] else front
  }

  /** The segments bundles are cut into. */
  function Segments(bundles: seq<seq<byte>>, mtu: u64): nat
    requires mtu >= 1
  {
    if bundles == [] then 0
    else Segments(bundles[..|bundles| - 1], mtu) + SegmentCount(|bundles[|bundles| - 1]|, mtu)
  }

  lemma SegmentsMore(bundles: seq<seq<byte>>, data: seq<byte>, mtu: u64)
    requires mtu >= 1
    ensures Segments(bundles + [data], mtu) == Segments(bundles, mtu) + SegmentCount(|data|, mtu)
  {
    assert (bundles + [data])[..|bundles|] == bundles;
  }

  lemma TurnCounts(caps: Caps, env: Env, s: Session, t: Turn)
    requires Sound(caps, env, s) && Enabled(caps, env, s, t)
    ensures Usable(s.net.a.mtu) && Usable(s.net.b.mtu)
    ensures var n := After(caps, env, s, t).net;
      && n.a.mtu == s.net.a.mtu && n.b.mtu == s.net.b.mtu
      && Left(n) <= Left(s.net) + if IsStart(t) then SegmentCount(|t.event.data|, s.net.a.mtu) else 0
  {
    SoundSender(caps, env, s);
    if t.Manage? {
      EventCounts(env, s.net, t.event);
    }
    hide Sound, Left, Can, Move, HasRoom;
  }

  lemma FlipLeft(n: Net)
    requires Usable(n.a.mtu) && Usable(n.b.mtu)
    ensures Left(Flip(n)) == Left(n)
  {
  }

  lemma ActCounts(caps: Caps, env: Env, s: Session, act: Act)
    requires Sound(caps, env, s) && CanAct(caps, env, s, act)
    ensures Usable(s.net.a.mtu) && Usable(s.net.b.mtu)
    ensures var n := Acted(caps, env, s, act).net; var mtu := if act.atB then s.net.b.mtu else s.net.a.mtu;
      && n.a.mtu == s.net.a.mtu && n.b.mtu == s.net.b.mtu
      && Left(n) <= Left(s.net) + if IsStart(act.turn) then SegmentCount(|act.turn.event.data|, mtu) else 0
  {
    hide Sound, Left, Enabled, After;
    var seen := if act.atB then Turned(s) else s;
    TurnedSound(caps, env, s);
    TurnCounts(caps, env, seen, act.turn);
    FlipLeft(seen.net);
    FlipLeft(After(caps, env, seen, act.turn).net);
  }

  /** What is left is at most the segments of everything handed to Send. */
  lemma {:induction false} LeftWasGiven(caps: Caps, env: Env, mtuA: u64, mtuB: u64, acts: seq<Act>)
    requires Usable(mtuA) && Usable(mtuB) && Play(caps, env, NewSession(mtuA, mtuB), acts).Ok?
    ensures var n := Play(caps, env, NewSession(mtuA, mtuB), acts).value.net;
      && n.a.mtu == mtuA && n.b.mtu == mtuB
      && Left(n) <= Segments(Given(acts, false), mtuA) + Segments(Given(acts, true), mtuB)
  {
    hide Sound, Left, CanAct, Acted, NewSession, SegmentCount, Segments, Play, Given;
    if acts == [] {
      NothingLeft(caps, env, mtuA, mtuB);
    } else {
      LastAct(caps, env, NewSession(mtuA, mtuB), acts);
      var front, last := acts[..|acts| - 1], acts[|acts| - 1];
      LeftWasGiven(caps, env, mtuA, mtuB, front);
      NewSessionSound(caps, env, mtuA, mtuB);
      PlayKeeps(caps, env, NewSession(mtuA, mtuB), front);
      ActCounts(caps, env, Play(caps, env, NewSession(mtuA, mtuB), front).value, last);
      GivenMore(acts, false);
      GivenMore(acts, true);
      if IsStart(last.turn) {
        SegmentsMore(Given(front, last.atB), last.turn.event.data, if last.atB then mtuB else mtuA);
      }
    }
  }

  lemma GivenMore(acts: seq<Act>, atB: bool)
    requires acts != []
    ensures var front, last := Given(acts[..|acts| - 1], atB), acts[|acts| - 1];
            Given(acts, atB) == if last.atB == atB && IsStart(last.turn) then front + [last.turn.event.data] else front
  {
  }

  lemma NothingLeft(caps: Caps, env: Env, mtuA: u64, mtuB: u64)
    requires Usable(mtuA) && Usable(mtuB)
    ensures Play(caps, env, NewSession(mtuA, mtuB), []) == Ok(NewSession(mtuA, mtuB))
    ensures Left(NewSession(mtuA, mtuB).net) == 0
    ensures NewSession(mtuA, mtuB).net.a.mtu == mtuA && NewSession(mtuA, mtuB).net.b.mtu == mtuB
  {
  }

  /** Without new calls what is left does not grow. */
  lemma {:induction false} LeftShrinks(caps: Caps, env: Env, s: Session, acts: seq<Act>)
    requires Sound(caps, env, s) && NoStarts(acts) && Play(caps, env, s, acts).Ok?
    ensures Usable(s.net.a.mtu) && Usable(s.net.b.mtu)
    ensures var t := Play(caps, env, s, acts).value;
            t.net.a.mtu == s.net.a.mtu && t.net.b.mtu == s.net.b.mtu && Left(t.net) <= Left(s.net)
  {
    SoundSender(caps, env, s);
    hide Sound, Left, CanAct, Acted;
    if acts != [] {
      var front, last := acts[..|acts| - 1], acts[|acts| - 1];
      LeftShrinks(caps, env, s, front);
      PlayKeeps(caps, env, s, front);
      ActCounts(caps, env, Play(caps, env, s, front).value, last);
    }
  }

  function SeenSends(s: Session, atB: bool): seq<Sending> { if atB then s.net.b.sends else s.net.a.sends }

  /** No deadlock: whenever no more is left than two exchange channels and one message more hold, a
      run that goes on without new calls of Send ends, after a bounded number of acts (PlayBounded),
      with every Send of both peers successful and nothing under way. */
  lemma EndedMeansDone(caps: Caps, env: Env, mtuA: u64, mtuB: u64, acts: seq<Act>, more: seq<Act>, atB: bool, k: nat)
    requires 1 <= caps.exchange <= caps.wire && Usable(mtuA) && Usable(mtuB)
    requires Play(caps, env, NewSession(mtuA, mtuB), acts).Ok?
    requires var s := Play(caps, env, NewSession(mtuA, mtuB), acts).value;
      && Usable(s.net.a.mtu) && Usable(s.net.b.mtu) && Left(s.net) <= 2 * caps.exchange + 1
      && NoStarts(more) && Play(caps, env, s, more).Ok?
      && var t := Play(caps, env, s, more).value; Quiet(caps, env, t) && k < |SeenSends(t, atB)|
    ensures var t := Play(caps, env, Play(caps, env, NewSession(mtuA, mtuB), acts).value, more).value;
      SeenSends(t, atB)[k].verdict == Success && t.net.ab == [] && t.net.ba == []
  {
    hide Play, Sound, Quiet, NewSession;
    var s := Play(caps, env, NewSession(mtuA, mtuB), acts).value;
    var t := Play(caps, env, s, more).value;
    NewSessionSound(caps, env, mtuA, mtuB);
    PlayKeeps(caps, env, NewSession(mtuA, mtuB), acts);
    PlayKeeps(caps, env, s, more);
    LeftShrinks(caps, env, s, more);
    TurnedSound(caps, env, t);
    TurnedQuiet(caps, env, t);
    QuietIsEmpty(caps, env, t);
    if atB {
      QuietSucceeds(caps, env, Turned(t), k);
    } else {
      QuietSucceeds(caps, env, t, k);
    }
  }

  lemma TurnedQuiet(caps: Caps, env: Env, s: Session)
    ensures Quiet(caps, env, Turned(s)) <==> Quiet(caps, env, s)
  {
    hide Still;
    assert Turned(Turned(s)) == s;
  }
}
