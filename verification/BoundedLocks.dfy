/** When bounded channels lock: a session loop waits for its manager to read while the manager waits
    for the loop to read. It takes 2n + 2 segments with channels of n messages, sent by either peer. */
module BoundedLocks {
  import opened Bytes
  import opened Messages
  import opened Blocks
  import opened BundleCodec
  import opened Transfer
  import opened TransferRuns
  import opened BoundedRuns
  import opened BoundedLiveness

  /* ---- a locked peer ---- */

  predicate SegmentFirst(wire: seq<Message>) { wire != [] && wire[0].XferSegment? }

  /** Peer a is locked: its session loop has a message for the manager, whose channel is full, and the
      manager holds a segment and has an answer for the session loop, whose channel is full. */
  predicate Locked(caps: Caps, s: Session) {
    && s.ba.inHand == 1 && s.ba.inbox == caps.exchange
    && s.ba.held == 1 && s.ab.outbox == caps.exchange
    && SegmentFirst(s.net.ba)
  }

  lemma SegmentIsAnswered(env: Env, n: Net)
    requires Inv(env, n) && SegmentFirst(n.ba)
    ensures |HandleSegment(env, n.a, n.ba[0]).1| == 1
  {
    hide Half, HandleSegment;
    SegmentShape(env, n);
  }

  lemma OwnTurnKeepsLock(caps: Caps, env: Env, s: Session, t: Turn)
    requires Sound(caps, env, s) && Locked(caps, s) && Enabled(caps, env, s, t)
    ensures Locked(caps, After(caps, env, s, t)) && After(caps, env, s, t).net.ba[0] == s.net.ba[0]
  {
    SegmentIsAnswered(env, s.net);
    hide Inv, HandleSegment;
    if t.Manage? {
      MoveOutput(env, s.net, t.event);
      if t.event.CutNext? {
        SoundSender(caps, env, s);
        PeerCounts(env, s.net, t.event);
      }
      hide Move, Cut;
    }
  }

  lemma OtherTurnKeepsLock(caps: Caps, env: Env, s: Session, t: Turn)
    requires Locked(caps, s) && Enabled(caps, env, Turned(s), t)
    ensures var u := Turned(After(caps, env, Turned(s), t)); Locked(caps, u) && u.net.ba[0] == s.net.ba[0]
  {
    if t.Manage? {
      MoveOutput(env, Flip(s.net), t.event);
      hide Move, Can, HasRoom, Output;
    }
  }

  /** A peer that is locked stays so, whatever happens and whatever else is sent. */
  lemma {:induction false} LockStays(caps: Caps, env: Env, s: Session, acts: seq<Act>)
    requires Sound(caps, env, s) && Locked(caps, s) && Play(caps, env, s, acts).Ok?
    ensures var t := Play(caps, env, s, acts).value; Locked(caps, t) && t.net.ba[0] == s.net.ba[0]
  {
    if acts == [] {
      NoActs(caps, env, s);
    } else {
      hide Sound, Locked, Enabled, After, Turned, Play;
      LastAct(caps, env, s, acts);
      var front, last := acts[..|acts| - 1], acts[|acts| - 1];
      LockStays(caps, env, s, front);
      PlayKeeps(caps, env, s, front);
      var t := Play(caps, env, s, front).value;
      LockedHasHead(caps, t);
      if last.atB {
        OtherTurnKeepsLock(caps, env, t, last.turn);
      } else {
        OwnTurnKeepsLock(caps, env, t, last.turn);
      }
    }
  }

  lemma NoActs(caps: Caps, env: Env, s: Session)
    ensures Play(caps, env, s, []) == Ok(s)
  {
    hide CanAct, Acted;
  }

  lemma LockedHasHead(caps: Caps, s: Session)
    requires Locked(caps, s)
    ensures SegmentFirst(s.net.ba)
  {
  }

  /** The call whose segment is held has not succeeded. */
  lemma HeldIsPending(env: Env, n: Net)
    requires Inv(env, n) && SegmentFirst(n.ba)
    ensures var k := n.ba[0].transferId; k < |n.b.sends| && n.b.sends[k].verdict != Success
  {
    hide Half, Good, Received;
    var k := n.ba[0].transferId;
    assert k < |n.b.sends| by { SegmentShape(env, n); }
    ViewIsGood(env, Flip(n), k);
    PickHead(n.ba, true, k);
    var v := ViewOf(Flip(n), k);
    assert v.flight != [];
    if v.s.verdict == Success {
      GoodSuccess(v, n.b.mtu);
    }
  }

  /* ---- runs without new calls ---- */

  ghost predicate Reaches(caps: Caps, env: Env, s: Session, t: Session) {
    exists acts :: NoStarts(acts) && Play(caps, env, s, acts) == Ok(t)
  }

  lemma ReachesSelf(caps: Caps, env: Env, s: Session)
    ensures Reaches(caps, env, s, s)
  {
    NoActs(caps, env, s);
    assert NoStarts([]);
  }

  lemma ReachesOn(caps: Caps, env: Env, s: Session, t: Session, u: Session)
    requires Reaches(caps, env, s, t) && Reaches(caps, env, t, u)
    ensures Reaches(caps, env, s, u)
  {
    hide Play;
    var acts :| NoStarts(acts) && Play(caps, env, s, acts) == Ok(t);
    var more :| NoStarts(more) && Play(caps, env, t, more) == Ok(u);
    PlayAppend(caps, env, s, acts, more);
    assert NoStarts(acts + more);
  }

  lemma ActReaches(caps: Caps, env: Env, s: Session, act: Act)
    requires Sound(caps, env, s) && CanAct(caps, env, s, act) && !IsStart(act.turn)
    ensures Reaches(caps, env, s, Acted(caps, env, s, act)) && Sound(caps, env, Acted(caps, env, s, act))
  {
    hide Sound, CanAct, Acted;
    ActKeeps(caps, env, s, act);
    assert [act][..0] == [];
    assert Play(caps, env, s, []) == Ok(s);
    assert Play(caps, env, s, [act]) == Ok(Acted(caps, env, s, act));
    assert NoStarts([act]);
  }

  /** From every state a run goes on to one where nothing can happen. */
  lemma {:induction false} RunOut(caps: Caps, env: Env, s: Session) returns (t: Session)
    requires Sound(caps, env, s)
    ensures Sound(caps, env, t) && Reaches(caps, env, s, t) && Quiet(caps, env, t)
    decreases Effort(s)
  {
    hide Sound, Enabled, Acted, Effort, Reaches, Turned;
    if Quiet(caps, env, s) {
      t := s;
      ReachesSelf(caps, env, s);
    } else {
      var act := SomeAct(caps, env, s);
      ActReaches(caps, env, s, act);
      ActWorks(caps, env, s, act);
      t := RunOut(caps, env, Acted(caps, env, s, act));
      ReachesOn(caps, env, s, Acted(caps, env, s, act), t);
    }
  }

  lemma SomeAct(caps: Caps, env: Env, s: Session) returns (act: Act)
    requires !Quiet(caps, env, s)
    ensures CanAct(caps, env, s, act) && !IsStart(act.turn)
  {
    hide Enabled, Turned;
    if !Still(caps, env, s) {
      var t: Turn :| !IsStart(t) && Enabled(caps, env, s, t);
      act := Act(false, t);
    } else {
      var t: Turn :| !IsStart(t) && Enabled(caps, env, Turned(s), t);
      act := Act(true, t);
    }
  }

  /* ---- one message on its way ---- */

  /** The peers have i and j segments that are not cut. */
  predicate Remaining(n: Net, i: nat, j: nat) {
    Usable(n.a.mtu) && Usable(n.b.mtu) && Unsent(n.a) == i && Unsent(n.b) == j
  }

  lemma RemainingTurned(s: Session, i: nat, j: nat)
    ensures Remaining(Turned(s).net, j, i) <==> Remaining(s.net, i, j)
  {
    hide Unsent;
  }

  lemma SomeUnsent(sends: seq<Sending>, mtu: u64) returns (k: nat)
    requires mtu >= 1 && UnsentSegments(sends, mtu) > 0
    ensures k < |sends| && sends[k].transfer.stream != []
  {
    var last := |sends| - 1;
    if sends[last].transfer.stream != [] {
      k := last;
    } else {
      k := SomeUnsent(sends[..last], mtu);
    }
  }

  lemma UnsentCanBeCut(env: Env, n: Net, k: nat)
    requires Inv(env, n) && k < |n.a.sends| && n.a.sends[k].transfer.stream != []
    ensures Can(env, n, CutNext(k))
  {
    hide Half, Conserved, EndRule, AckRule, Received, Pick;
    SenderRuns(env, n);
    ViewIsGood(env, n, k);
  }

  /** The second wire has one more segment. */
  predicate OneMore(wire: seq<Message>, more: seq<Message>) {
    |more| == |wire| + 1 && wire <= more && more[|wire|].XferSegment?
  }

  /** A cuts a segment of any call that has one left. */
  lemma CutOne(caps: Caps, env: Env, s: Session, i: nat, j: nat) returns (t: Session)
    requires Remaining(s.net, i + 1, j) && s.ab.outbox < caps.exchange
    requires Sound(caps, env, s)
    ensures Remaining(t.net, i, j)
    ensures t.net.b == s.net.b && t.net.ba == s.net.ba && t.ba == s.ba && t.ab == s.ab.(outbox := s.ab.outbox + 1)
    ensures OneMore(s.net.ab, t.net.ab)
    ensures Sound(caps, env, t) && Reaches(caps, env, s, t)
  {
    var k := SomeUnsent(s.net.a.sends, s.net.a.mtu);
    SoundSender(caps, env, s);
    UnsentCanBeCut(env, s.net, k);
    hide Sound, Can, Move, Unsent, UnsentSegments, Cut, Reaches, Enabled;
    CutHasRoom(caps, env, s, k);
    CutCounts(env, s.net, k);
    ActReaches(caps, env, s, Act(false, Manage(CutNext(k))));
    t := After(caps, env, s, Manage(CutNext(k)));
    CutMoves(env, s.net, k);
    MoveOutput(env, s.net, CutNext(k));
  }

  lemma CutMoves(env: Env, n: Net, k: nat)
    requires Can(env, n, CutNext(k))
    ensures Move(env, n, CutNext(k)).a == Cut(n.a, k).0 && Output(env, n, CutNext(k)) == Cut(n.a, k).1
  {
    hide Cut;
  }

  /** A session in which b's messages have been read up to a's channel and a's not yet. */
  predicate Ready(s: Session, out: nat, other: nat, inbox: nat, held: nat) {
    s.ab == Path(out, 0, 0, 0, 0, other) && s.ba == Path(0, 0, 0, 0, inbox, held)
  }

  /** What b has written reaches the hand of a's session loop. */
  lemma CarryToHand(caps: Caps, env: Env, s: Session, out: nat, other: nat, inbox: nat, held: nat)
    requires caps.wire >= 1
    requires s.ab == Path(out, 0, 0, 0, 0, other) && s.ba == Path(1, 0, 0, 0, inbox, held)
    requires Sound(caps, env, s)
    ensures var t := s.(ba := Path(0, 0, 0, 1, inbox, held)); Sound(caps, env, t) && Reaches(caps, env, s, t)
  {
    hide Sound, Reaches, CanAct, Acted;
    SoundSender(caps, env, s);
    var u := s.(ba := Path(0, 1, 0, 0, inbox, held));
    var v := s.(ba := Path(0, 0, 1, 0, inbox, held));
    FetchOutAtB(caps, env, s);
    ActReaches(caps, env, s, Act(true, FetchOut));
    WriteOutAtB(caps, env, u);
    ActReaches(caps, env, u, Act(true, WriteOut));
    FetchInAtA(caps, env, v);
    ActReaches(caps, env, v, Act(false, FetchIn));
    ReachesOn(caps, env, s, u, v);
    ReachesOn(caps, env, s, v, s.(ba := Path(0, 0, 0, 1, inbox, held)));
  }

  lemma FetchOutAtB(caps: Caps, env: Env, s: Session)
    requires !s.net.b.crashed && HandFree(Turned(s)) && s.ba.outbox > 0
    ensures CanAct(caps, env, s, Act(true, FetchOut))
    ensures Acted(caps, env, s, Act(true, FetchOut))
         == s.(ba := s.ba.(outbox := s.ba.outbox - 1, outHand := s.ba.outHand + 1))
  {
    hide Can, HasRoom;
  }

  lemma WriteOutAtB(caps: Caps, env: Env, s: Session)
    requires !s.net.b.crashed && s.ba.outHand > 0 && s.ba.wire < caps.wire
    ensures CanAct(caps, env, s, Act(true, WriteOut))
    ensures Acted(caps, env, s, Act(true, WriteOut))
         == s.(ba := s.ba.(outHand := s.ba.outHand - 1, wire := s.ba.wire + 1))
  {
    hide Can, HasRoom;
  }

  lemma FetchInAtA(caps: Caps, env: Env, s: Session)
    requires !s.net.a.crashed && HandFree(s) && s.ba.wire > 0
    ensures CanAct(caps, env, s, Act(false, FetchIn))
    ensures Acted(caps, env, s, Act(false, FetchIn))
         == s.(ba := s.ba.(wire := s.ba.wire - 1, inHand := s.ba.inHand + 1))
  {
    hide Can, HasRoom;
  }

  lemma FromHand(caps: Caps, env: Env, s: Session, out: nat, other: nat, inbox: nat, held: nat)
    requires inbox < caps.exchange
    requires s.ab == Path(out, 0, 0, 0, 0, other) && s.ba == Path(0, 0, 0, 1, inbox, held)
    requires Sound(caps, env, s)
    ensures var t := s.(ba := Path(0, 0, 0, 0, inbox + 1, held)); Sound(caps, env, t) && Reaches(caps, env, s, t)
  {
    SoundSender(caps, env, s);
    hide Sound, Reaches, Can, HasRoom, Move;
    ActReaches(caps, env, s, Act(false, WriteIn));
  }

  lemma AcceptOne(caps: Caps, env: Env, s: Session, out: nat, other: nat)
    requires Ready(s, out, other, 1, 0)
    requires Sound(caps, env, s)
    ensures var t := s.(ba := Path(0, 0, 0, 0, 0, 1)); Sound(caps, env, t) && Reaches(caps, env, s, t)
  {
    SoundSender(caps, env, s);
    hide Sound, Reaches, Can, HasRoom, Move;
    ActReaches(caps, env, s, Act(false, Accept));
  }

  /** B cuts a segment of its own. */
  lemma CutAtB(caps: Caps, env: Env, s: Session, i: nat, j: nat) returns (t: Session)
    requires Remaining(s.net, i, j + 1) && s.ba.outbox < caps.exchange
    requires Sound(caps, env, s)
    ensures Remaining(t.net, i, j)
    ensures t.net.a == s.net.a && t.net.ab == s.net.ab && t.ab == s.ab && t.ba == s.ba.(outbox := s.ba.outbox + 1)
    ensures OneMore(s.net.ba, t.net.ba)
    ensures Sound(caps, env, t) && Reaches(caps, env, s, t)
  {
    hide Sound, Reaches, Remaining, OneMore;
    TurnedSound(caps, env, s);
    RemainingTurned(s, i, j + 1);
    var u := CutOne(caps, env, Turned(s), j, i);
    RemainingTurned(u, j, i);
    t := Turned(u);
    TurnedSound(caps, env, u);
    ReachesTurned(caps, env, Turned(s), u);
  }

  function Mirrored(acts: seq<Act>): seq<Act> {
    seq(|acts|, i requires 0 <= i < |acts| => Act(!acts[i].atB, acts[i].turn))
  }

  lemma {:induction false} PlayMirrored(caps: Caps, env: Env, s: Session, acts: seq<Act>)
    requires Play(caps, env, s, acts).Ok?
    ensures Play(caps, env, Turned(s), Mirrored(acts)) == Ok(Turned(Play(caps, env, s, acts).value))
  {
    hide Play, Enabled, After, Turned;
    if acts == [] {
      NoActs(caps, env, s);
      NoActs(caps, env, Turned(s));
      assert Mirrored(acts) == [];
    } else {
      var front, last := acts[..|acts| - 1], acts[|acts| - 1];
      LastAct(caps, env, s, acts);
      PlayMirrored(caps, env, s, front);
      var t := Play(caps, env, s, front).value;
      TurnedTwice(t);
      TurnedTwice(Acted(caps, env, t, last));
      if last.atB {
        TurnedTwice(After(caps, env, Turned(t), last.turn));
      }
      assert Mirrored(acts)[..|acts| - 1] == Mirrored(front);
      PlayOne(caps, env, Turned(s), Mirrored(front), Act(!last.atB, last.turn));
      assert Mirrored(acts) == Mirrored(front) + [Act(!last.atB, last.turn)];
    }
  }

  lemma TurnedTwice(s: Session)
    ensures Turned(Turned(s)) == s
  {
  }

  lemma PlayOne(caps: Caps, env: Env, s: Session, acts: seq<Act>, act: Act)
    requires Play(caps, env, s, acts).Ok? && CanAct(caps, env, Play(caps, env, s, acts).value, act)
    ensures Play(caps, env, s, acts + [act]) == Ok(Acted(caps, env, Play(caps, env, s, acts).value, act))
  {
    hide CanAct, Acted;
    assert (acts + [act])[..|acts|] == acts;
  }

  lemma ReachesTurned(caps: Caps, env: Env, s: Session, t: Session)
    requires Reaches(caps, env, s, t)
    ensures Reaches(caps, env, Turned(s), Turned(t))
  {
    hide Play, Turned;
    var acts :| NoStarts(acts) && Play(caps, env, s, acts) == Ok(t);
    PlayMirrored(caps, env, s, acts);
    assert NoStarts(Mirrored(acts));
  }

  /** A segment of b reaches a's channel. */
  lemma BringOne(caps: Caps, env: Env, s: Session, out: nat, other: nat, inbox: nat, held: nat, i: nat, j: nat)
    returns (t: Session)
    requires caps.wire >= 1 && caps.exchange >= 1 && inbox < caps.exchange
    requires Ready(s, out, other, inbox, held) && Remaining(s.net, i, j + 1)
    requires Sound(caps, env, s)
    ensures Ready(t, out, other, inbox + 1, held)
    ensures t.net.a == s.net.a && t.net.ab == s.net.ab && OneMore(s.net.ba, t.net.ba) && Remaining(t.net, i, j)
    ensures Sound(caps, env, t) && Reaches(caps, env, s, t)
  {
    hide Sound, Reaches, Remaining, OneMore;
    var u := CutAtB(caps, env, s, i, j);
    CarryToHand(caps, env, u, out, other, inbox, held);
    var v := u.(ba := Path(0, 0, 0, 1, inbox, held));
    FromHand(caps, env, v, out, other, inbox, held);
    t := v.(ba := Path(0, 0, 0, 0, inbox + 1, held));
    ReachesOn(caps, env, s, u, v);
    ReachesOn(caps, env, s, v, t);
  }

  /** A answers the segment it holds. */
  lemma AnswerHeld(caps: Caps, env: Env, s: Session, i: nat, j: nat) returns (t: Session)
    requires Remaining(s.net, i, j) && s.ba.held == 1 && s.ab.outbox < caps.exchange
    requires SegmentFirst(s.net.ba)
    requires Sound(caps, env, s)
    ensures Remaining(t.net, i, j)
    ensures t.net.b == s.net.b && t.ba == s.ba.(held := 0) && t.ab == s.ab.(outbox := s.ab.outbox + 1)
    ensures t.net.ba == s.net.ba[1..] && s.net.ab <= t.net.ab
    ensures Sound(caps, env, t) && Reaches(caps, env, s, t)
  {
    SegmentIsAnswered(env, s.net);
    SoundSender(caps, env, s);
    hide Sound, Can, Move, Unsent, HandleSegment, Reaches, Enabled;
    DeliverRoom(caps, env, s);
    DeliverIsPossible(caps, env, s);
    ActReaches(caps, env, s, Act(false, Manage(Deliver)));
    t := After(caps, env, s, Manage(Deliver));
    PeerCounts(env, s.net, Deliver);
    MoveOutput(env, s.net, Deliver);
  }

  lemma DeliverIsPossible(caps: Caps, env: Env, s: Session)
    requires Enabled(caps, env, s, Manage(Deliver))
    ensures Can(env, s.net, Deliver)
  {
    hide Can;
  }

  /** A segment of b is brought, and a's answer goes into its own channel. */
  lemma AnswerOne(caps: Caps, env: Env, s: Session, out: nat, other: nat, i: nat, j: nat) returns (t: Session)
    requires caps.wire >= 1 && out < caps.exchange && Ready(s, out, other, 0, 0)
    requires Remaining(s.net, i, j + 1)
    requires Sound(caps, env, s)
    ensures Ready(t, out + 1, other, 0, 0)
    ensures Remaining(t.net, i, j) && s.net.ab <= t.net.ab
    ensures Sound(caps, env, t) && Reaches(caps, env, s, t)
  {
    NothingComes(caps, env, s, out, other);
    hide Sound, Reaches, Remaining;
    var u := BringOne(caps, env, s, out, other, 0, 0, i, j);
    AcceptOne(caps, env, u, out, other);
    var v := u.(ba := Path(0, 0, 0, 0, 0, 1));
    t := AnswerHeld(caps, env, v, i, j);
    ReachesOn(caps, env, s, u, v);
    ReachesOn(caps, env, s, v, t);
  }

  lemma NothingComes(caps: Caps, env: Env, s: Session, out: nat, other: nat)
    requires Ready(s, out, other, 0, 0)
    requires Sound(caps, env, s)
    ensures s.net.ba == []
  {
    hide Inv;
  }

  /* ---- filling the channels ---- */

  lemma {:induction false} CutMany(caps: Caps, env: Env, s: Session, other: nat, x: nat, i: nat, j: nat)
    returns (t: Session)
    requires Ready(s, 0, other, 0, 0) && x <= caps.exchange && Remaining(s.net, i + x, j)
    requires Sound(caps, env, s)
    ensures Ready(t, x, other, 0, 0)
    ensures Remaining(t.net, i, j) && s.net.ab <= t.net.ab
    ensures Sound(caps, env, t) && Reaches(caps, env, s, t)
  {
    hide Sound, Reaches, Remaining;
    if x == 0 {
      t := s;
      ReachesSelf(caps, env, s);
    } else {
      var u := CutMany(caps, env, s, other, x - 1, i + 1, j);
      t := CutOne(caps, env, u, i, j);
      ReachesOn(caps, env, s, u, t);
    }
  }

  lemma {:induction false} AnswerMany(caps: Caps, env: Env, s: Session, out: nat, other: nat, x: nat, i: nat, j: nat)
    returns (t: Session)
    requires caps.wire >= 1 && Ready(s, out, other, 0, 0) && out + x <= caps.exchange
    requires Remaining(s.net, i, j + x)
    requires Sound(caps, env, s)
    ensures Ready(t, out + x, other, 0, 0)
    ensures Remaining(t.net, i, j) && s.net.ab <= t.net.ab
    ensures Sound(caps, env, t) && Reaches(caps, env, s, t)
  {
    hide Sound, Reaches, Remaining;
    if x == 0 {
      t := s;
      ReachesSelf(caps, env, s);
    } else {
      var u := AnswerMany(caps, env, s, out, other, x - 1, i, j + 1);
      t := AnswerOne(caps, env, u, out + x - 1, other, i, j);
      ReachesOn(caps, env, s, u, t);
    }
  }

  lemma {:induction false} BringMany(
      caps: Caps, env: Env, s: Session, out: nat, other: nat, held: nat, x: nat, i: nat, j: nat)
    returns (t: Session)
    requires caps.wire >= 1 && Ready(s, out, other, 0, held) && x <= caps.exchange
    requires Remaining(s.net, i, j + x)
    requires Sound(caps, env, s)
    ensures Ready(t, out, other, x, held)
    ensures t.net.a == s.net.a && t.net.ab == s.net.ab && s.net.ba <= t.net.ba && Remaining(t.net, i, j)
    ensures Sound(caps, env, t) && Reaches(caps, env, s, t)
  {
    hide Sound, Reaches, Remaining;
    if x == 0 {
      t := s;
      ReachesSelf(caps, env, s);
    } else {
      var u := BringMany(caps, env, s, out, other, held, x - 1, i, j + 1);
      t := BringOne(caps, env, u, out, other, x - 1, held, i, j);
      ReachesOn(caps, env, s, u, t);
    }
  }

  /** All but the last message: x segments of a and answers to segments of b fill a's channel, a
      holds another segment of b, and b's next segments fill the channel to a's manager. */
  lemma FillChannels(caps: Caps, env: Env, s: Session, other: nat, x: nat, i: nat, j: nat) returns (t: Session)
    requires caps.wire >= 1 && Ready(s, 0, other, 0, 0) && x <= caps.exchange && caps.exchange >= 1
    requires Remaining(s.net, i + x, j + (2 * caps.exchange + 1 - x))
    requires Sound(caps, env, s)
    ensures Ready(t, caps.exchange, other, caps.exchange, 1)
    ensures s.net.ab <= t.net.ab && SegmentFirst(t.net.ba) && Remaining(t.net, i, j)
    ensures Sound(caps, env, t) && Reaches(caps, env, s, t)
  {
    hide Sound, Reaches, Remaining;
    var c := caps.exchange;
    var u := CutMany(caps, env, s, other, x, i, j + (2 * c + 1 - x));
    var v := AnswerMany(caps, env, u, x, other, c - x, i, j + (c + 1));
    NothingComes(caps, env, v, c, other);
    var w := BringOne(caps, env, v, c, other, 0, 0, i, j + c);
    AcceptOne(caps, env, w, c, other);
    var y := w.(ba := Path(0, 0, 0, 0, 0, 1));
    t := BringMany(caps, env, y, c, other, 1, c, i, j);
    ReachesOn(caps, env, s, u, v);
    ReachesOn(caps, env, s, v, w);
    ReachesOn(caps, env, s, w, y);
    ReachesOn(caps, env, s, y, t);
  }

  lemma LastLocks(caps: Caps, env: Env, s: Session, other: nat) returns (t: Session)
    requires caps.wire >= 1
    requires s.ab == Path(caps.exchange, 0, 0, 0, 0, other) && s.ba == Path(1, 0, 0, 0, caps.exchange, 1)
    requires SegmentFirst(s.net.ba)
    requires Sound(caps, env, s)
    ensures Locked(caps, t)
    ensures Sound(caps, env, t) && Reaches(caps, env, s, t)
  {
    hide Sound, Reaches;
    CarryToHand(caps, env, s, caps.exchange, other, caps.exchange, 1);
    t := s.(ba := Path(0, 0, 0, 1, caps.exchange, 1));
  }

  /** The last message is one more segment of b. */
  lemma LockBySegments(caps: Caps, env: Env, s: Session, x: nat, i: nat, j: nat) returns (t: Session)
    requires caps.wire >= 1 && Ready(s, 0, 0, 0, 0) && x <= caps.exchange && caps.exchange >= 1
    requires Remaining(s.net, i + x, j + (2 * caps.exchange + 2 - x))
    requires Sound(caps, env, s)
    ensures Locked(caps, t)
    ensures Sound(caps, env, t) && Reaches(caps, env, s, t)
  {
    hide Sound, Reaches, Remaining;
    var u := FillChannels(caps, env, s, 0, x, i, j + 1);
    var v := CutAtB(caps, env, u, i, j);
    t := LastLocks(caps, env, v, 0);
    ReachesOn(caps, env, s, u, v);
    ReachesOn(caps, env, s, v, t);
  }

  /** The first segment of a reaches b's manager. */
  lemma HeldAtB(caps: Caps, env: Env, s: Session, i: nat, j: nat) returns (t: Session)
    requires caps.wire >= 1 && caps.exchange >= 1 && Ready(s, 0, 0, 0, 0)
    requires Remaining(s.net, i + 1, j)
    requires Sound(caps, env, s)
    ensures Ready(t, 0, 1, 0, 0)
    ensures Remaining(t.net, i, j) && SegmentFirst(t.net.ab)
    ensures Sound(caps, env, t) && Reaches(caps, env, s, t)
  {
    hide Sound, Reaches, Remaining;
    TurnedSound(caps, env, s);
    RemainingTurned(s, i + 1, j);
    NothingComes(caps, env, Turned(s), 0, 0);
    var u := BringOne(caps, env, Turned(s), 0, 0, 0, 0, j, i);
    AcceptOne(caps, env, u, 0, 0);
    var v := u.(ba := Path(0, 0, 0, 0, 0, 1));
    ReachesOn(caps, env, Turned(s), u, v);
    t := Turned(v);
    TurnedSound(caps, env, v);
    RemainingTurned(v, j, i);
    TurnedTwice(s);
    ReachesTurned(caps, env, Turned(s), v);
  }

  /** The last message is b's answer to the first segment of a. */
  lemma LockByAnswer(caps: Caps, env: Env, s: Session, i: nat, j: nat) returns (t: Session)
    requires caps.wire >= 1 && Ready(s, 0, 0, 0, 0) && caps.exchange >= 1
    requires Remaining(s.net, i + (caps.exchange + 1), j + (caps.exchange + 1))
    requires Sound(caps, env, s)
    ensures Locked(caps, t)
    ensures Sound(caps, env, t) && Reaches(caps, env, s, t)
  {
    hide Sound, Reaches, Remaining;
    var u := HeldAtB(caps, env, s, i + caps.exchange, j + (caps.exchange + 1));
    var v := FillChannels(caps, env, u, 1, caps.exchange, i, j);
    TurnedSound(caps, env, v);
    RemainingTurned(v, i, j);
    var w := AnswerHeld(caps, env, Turned(v), j, i);
    TurnedSound(caps, env, w);
    ReachesTurned(caps, env, Turned(v), w);
    TurnedTwice(v);
    t := LastLocks(caps, env, Turned(w), 0);
    ReachesOn(caps, env, s, u, v);
    ReachesOn(caps, env, s, v, Turned(w));
    ReachesOn(caps, env, s, Turned(w), t);
  }

  /** A peer locks in some run when there are enough segments and the other peer has no fewer. */
  lemma LockReached(caps: Caps, env: Env, s: Session, i: nat, j: nat) returns (t: Session)
    requires caps.wire >= 1 && Ready(s, 0, 0, 0, 0) && caps.exchange >= 1
    requires Remaining(s.net, i, j) && i <= j && i + j >= 2 * caps.exchange + 2
    requires Sound(caps, env, s)
    ensures Locked(caps, t)
    ensures Sound(caps, env, t) && Reaches(caps, env, s, t)
  {
    hide Sound, Reaches, Remaining;
    var c := caps.exchange;
    if i <= c {
      t := LockBySegments(caps, env, s, i, 0, j - (2 * c + 2 - i));
    } else {
      t := LockByAnswer(caps, env, s, i - (c + 1), j - (c + 1));
    }
  }
}
