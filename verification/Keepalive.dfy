/** Keepalive timing of an established session (RFC 9174, section 5.1.1): no peer reports a stalled
    session while starts and deliveries are late by less than a sixteenth of the interval. Times are
    nanoseconds; a tick is handled at its time and takes none. */
module Keepalive {
  import opened Bytes
  import Messages

  /** A peer in the established stage: when it started, the two time stamps it keeps, its one
      scheduled tick, and whether it has reported a stalled session. */
  datatype Clock = Clock(start: int, lastReceive: int, lastSend: int, nextTick: int, stalled: bool)

  /** The negotiated keepalive in nanoseconds. */
  function Interval(seconds: u16): nat { seconds * 1_000_000_000 }

  function Started(interval: nat, now: int): Clock {
    Clock(now, now, now, now + interval / 2, false)
  }

  /** handleKeepalive, and whether a KEEPALIVE is sent. */
  function Ticked(c: Clock, interval: nat, now: int): (Clock, bool) {
    var receiveDelta, sendDelta := c.lastReceive + interval - now, c.lastSend + interval - now;
    if receiveDelta < 0 then (c.(stalled := true), false)
    else if sendDelta <= interval / 8 then (c.(lastSend := now, nextTick := now + interval / 2), true)
    else (c.(nextTick := now + sendDelta / 2), false)
  }

  const TERMINATION_REPLY: u8 := 0x01
  const TERMINATION_UNKNOWN: u8 := 0x00

  /** How one turn of the stage ends: it goes on, it closes, or it fails. */
  datatype Turn = GoesOn | Closes | Fails

  /** What becomes of a message: a second SESS_INIT is an error, a SESS_TERM closes the session. */
  function Judged(msg: Messages.Message): Turn {
    if msg.SessInit? then Fails else if msg.SessTerm? then Closes else GoesOn
  }

  /** SessEstablishedStage with the two channels it writes to; the clock's reading comes in as a
      parameter. */
  class EstablishedStage {
    const keepalive: nat
    const start: int
    var lastReceive: int
    var lastSend: int
    var nextTick: int
    var stalled: bool
    var msgOut: seq<Messages.Message>
    var exchangeMsgIn: seq<Messages.Message>

    function Value(): Clock
      reads this
    {
      Clock(start, lastReceive, lastSend, nextTick, stalled)
    }

    /** The head of Handle. */
    constructor (seconds: u16, now: int)
      requires seconds > 0
      ensures keepalive == Interval(seconds) && Value() == Started(keepalive, now)
      ensures lastReceive == now && lastSend == now && nextTick == now + keepalive / 2 && !stalled
      ensures msgOut == [] && exchangeMsgIn == []
    {
      keepalive := Interval(seconds);
      start, lastReceive, lastSend, stalled := now, now, now, false;
      nextTick := now + Interval(seconds) / 2;
      msgOut, exchangeMsgIn := [], [];
    }

    /** messageOut, also the turn for a message of the other side of the exchange. */
    method MessageOut(msg: Messages.Message, now: int)
      modifies this`msgOut, this`lastSend
      ensures msgOut == old(msgOut) + [msg]
      ensures Value() == old(Value()).(lastSend := now)
    {
      msgOut := msgOut + [msg];
      lastSend := now;
    }

    /** handleMsgIn: what neither ends the session nor keeps it alive is handed on. */
    method HandleMsgIn(msg: Messages.Message, now: int) returns (turn: Turn)
      modifies this`exchangeMsgIn, this`lastReceive
      ensures turn == Judged(msg)
      ensures msg.SessInit? ==> turn == Fails
      ensures msg.SessTerm? ==> turn == Closes
      ensures !msg.SessInit? && !msg.SessTerm? ==> turn == GoesOn
      ensures Value() == old(Value()).(lastReceive := now)
      ensures exchangeMsgIn == old(exchangeMsgIn) + if turn.GoesOn? && !msg.Keepalive? then [msg] else []
    {
      lastReceive := now;
      match msg
      case SessInit(_, _, _, _) => turn := Fails;
      case SessTerm(_, _) => turn := Closes;
      case Keepalive => turn := GoesOn;
      case _ =>
        exchangeMsgIn := exchangeMsgIn + [msg];
        turn := GoesOn;
    }

    /** The turn of Handle for a message that came in: a SESS_TERM is answered. */
    method Receive(msg: Messages.Message, now: int) returns (turn: Turn)
      modifies this
      ensures turn == Judged(msg)
      ensures exchangeMsgIn == old(exchangeMsgIn) + if turn.GoesOn? && !msg.Keepalive? then [msg] else []
      ensures turn.Closes? ==> Value() == old(Value()).(lastReceive := now, lastSend := now)
      ensures turn.Closes? ==> msgOut == old(msgOut) + [Messages.SessTerm(TERMINATION_REPLY, TERMINATION_UNKNOWN)]
      ensures !turn.Closes? ==> Value() == old(Value()).(lastReceive := now) && msgOut == old(msgOut)
    {
      turn := HandleMsgIn(msg, now);
      if turn.Closes? {
        MessageOut(Messages.SessTerm(TERMINATION_REPLY, TERMINATION_UNKNOWN), now);
      }
    }

    /** handleKeepalive. */
    method HandleKeepalive(now: int) returns (sent: bool)
      modifies this
      ensures (Value(), sent) == Ticked(old(Value()), keepalive, now)
      ensures stalled <==> old(stalled) || now > old(lastReceive) + keepalive
      ensures sent ==> now <= old(lastReceive) + keepalive && lastSend == now
      ensures !sent ==> lastSend == old(lastSend)
      ensures now <= old(lastReceive) + keepalive ==>
        (sent <==> old(lastSend) + keepalive - now <= keepalive / 8)
      ensures msgOut == old(msgOut) + if sent then [Messages.Message.Keepalive] else []
      ensures exchangeMsgIn == old(exchangeMsgIn)
    {
      sent := false;
      var receiveDelta := lastReceive + keepalive - now;
      var sendDelta := lastSend + keepalive - now;
      if receiveDelta < 0 {
        stalled := true;
        return;
      }
      if sendDelta <= keepalive / 8 {
        MessageOut(Messages.Message.Keepalive, now);
        sent := true;
        nextTick := now + keepalive / 2;
      } else {
        nextTick := now + sendDelta / 2;
      }
    }
  }

  /* ---- two peers ---- */

  datatype Peer = Absent | Present(clock: Clock)

  /** Two peers and the send times of the messages on their way to each. */
  datatype System = System(now: int, begun: int, a: Peer, b: Peer, toA: seq<int>, toB: seq<int>)

  function Flip(s: System): System { System(s.now, s.begun, s.b, s.a, s.toB, s.toA) }

  /** The interval both peers use, how much later than the first the second may start, and how long
      a message may be on its way. */
  datatype Limits = Limits(interval: nat, skew: nat, delay: nat)

  predicate Tolerable(l: Limits) { 16 * (l.skew + l.delay) < l.interval }

  /** What can happen at peer a; at peer b the same happens in the flipped system. */
  datatype Event = Start | Tick | Send | Receive

  datatype Step = Pass(to: int) | At(atB: bool, event: Event)

  predicate Can(s: System, e: Event) {
    match e
    case Start => s.a.Absent?
    case Tick => s.a.Present? && !s.a.clock.stalled && s.now == s.a.clock.nextTick
    case Send => s.a.Present? && !s.a.clock.stalled
    case Receive => s.a.Present? && !s.a.clock.stalled && s.toA != []
  }

  function Move(l: Limits, s: System, e: Event): System
    requires Can(s, e)
  {
    match e
    case Start => s.(a := Present(Started(l.interval, s.now)), begun := if s.b.Absent? then s.now else s.begun)
    case Tick =>
      var (c, sent) := Ticked(s.a.clock, l.interval, s.now);
      s.(a := Present(c), toB := if sent then s.toB + [s.now] else s.toB)
    case Send => s.(a := Present(s.a.clock.(lastSend := s.now)), toB := s.toB + [s.now])
    case Receive => s.(a := Present(s.a.clock.(lastReceive := s.now)), toA := s.toA[1..])
  }

  /** Time passes at a no further than what is due: the tick, the start of the other peer, and the
      first message on its way, which waits for a peer that has not started. */
  predicate MayPass(l: Limits, s: System, to: int) {
    && (s.a.Present? ==> to <= s.a.clock.nextTick)
    && (s.a.Present? && s.b.Absent? ==> to <= s.begun + l.skew)
    && (s.a.Present? && s.toA != [] ==> to <= Later(s.toA[0] + l.delay, s.a.clock.start))
  }

  function Later(x: int, y: int): int { if x < y then y else x }

  predicate Possible(l: Limits, s: System, step: Step) {
    match step
    case Pass(to) => s.now <= to && MayPass(l, s, to) && MayPass(l, Flip(s), to)
    case At(atB, e) => Can(if atB then Flip(s) else s, e)
  }

  function Next(l: Limits, s: System, step: Step): System
    requires Possible(l, s, step)
  {
    match step
    case Pass(to) => s.(now := to)
    case At(atB, e) => if atB then Flip(Move(l, Flip(s), e)) else Move(l, s, e)
  }

  function Run(l: Limits, s: System, steps: seq<Step>): Result<System> {
    if steps == [] then Ok(s)
    else
      match Run(l, s, steps[..|steps| - 1])
      case Err => Err
      case Ok(t) => if Possible(l, t, steps[|steps| - 1]) then Ok(Next(l, t, steps[|steps| - 1])) else Err
  }

  function NewSystem(now: int): System { System(now, now, Absent, Absent, [], []) }

  /* ---- the invariant ---- */

  /** Every tick comes while more than a sixteenth of the interval is left of the last send. */
  predicate TickInTime(l: Limits, c: Clock) {
    16 * (c.lastSend + l.interval - c.nextTick) > l.interval
  }

  /** Less than fifteen sixteenths of the interval apart. */
  predicate Close(l: Limits, earlier: int, later: int) {
    16 * (later - earlier) < 15 * l.interval
  }

  /** Send times of messages under way: in order and close. */
  predicate Spaced(l: Limits, sent: seq<int>) {
    forall i :: 0 < i < |sent| ==> sent[i - 1] <= sent[i] && Close(l, sent[i - 1], sent[i])
  }

  /** Peer a itself. */
  predicate Punctual(l: Limits, s: System) {
    s.a.Present? ==>
      var c := s.a.clock;
      && TickInTime(l, c) && s.now <= c.nextTick && c.lastSend <= s.now && c.start <= s.now
      && c.start <= c.lastReceive <= s.now && s.begun <= c.start && !c.stalled
  }

  /** What is on its way to peer a, against what a has received and what b has sent. */
  predicate Incoming(l: Limits, s: System) {
    && (s.b.Absent? ==> s.toA == [])
    && (s.b.Present? && s.toA != [] ==> s.toA[|s.toA| - 1] == s.b.clock.lastSend)
    && Spaced(l, s.toA)
    && (forall i :: 0 <= i < |s.toA| ==> s.toA[i] <= s.now)
    && (s.a.Present? ==>
          && (s.b.Absent? ==> s.begun == s.a.clock.start && s.now <= s.begun + l.skew)
          && (s.b.Present? && s.toA == [] ==> s.b.clock.lastSend <= s.a.clock.lastReceive + l.skew)
          && (s.toA != [] ==>
                Close(l, s.a.clock.lastReceive + l.skew, s.toA[0])
                && s.now <= Later(s.toA[0] + l.delay, s.a.clock.start)))
  }

  predicate Half(l: Limits, s: System) { Punctual(l, s) && Incoming(l, s) }

  predicate Inv(l: Limits, s: System) { Half(l, s) && Half(l, Flip(s)) }

  /** No more than the interval has passed since the last receipt. */
  lemma NotStalled(l: Limits, s: System)
    requires Tolerable(l) && Inv(l, s) && s.a.Present?
    ensures s.now <= s.a.clock.lastReceive + l.interval
  {
  }

  lemma HalvingKeepsTime(l: Limits, c: Clock, now: int)
    requires l.interval > 0 && TickInTime(l, c) && now == c.nextTick
    ensures var d := Ticked(c, l.interval, now).0; d.stalled || (TickInTime(l, d) && now <= d.nextTick)
  {
  }

  lemma SpacedAppend(l: Limits, sent: seq<int>, now: int)
    requires Spaced(l, sent) && (sent != [] ==> sent[|sent| - 1] <= now && Close(l, sent[|sent| - 1], now))
    ensures Spaced(l, sent + [now])
  {
  }

  lemma SendKeeps(l: Limits, s: System, c: Clock)
    requires Tolerable(l) && Inv(l, s) && s.a.Present? && s.now <= c.nextTick && TickInTime(l, c)
    requires c == s.a.clock.(lastSend := s.now, nextTick := c.nextTick)
    ensures Inv(l, s.(a := Present(c), toB := s.toB + [s.now]))
  {
    SendKeepsOwn(l, s, c);
    SendKeepsOther(l, Flip(s), c);
    hide Half;
  }

  lemma SendKeepsOwn(l: Limits, s: System, c: Clock)
    requires Half(l, s) && s.a.Present? && s.now <= c.nextTick && TickInTime(l, c)
    requires c == s.a.clock.(lastSend := s.now, nextTick := c.nextTick)
    ensures Half(l, s.(a := Present(c), toB := s.toB + [s.now]))
  {
    hide TickInTime, Close, Spaced;
  }

  /** At the receiving peer a, b sends. */
  lemma SendKeepsOther(l: Limits, s: System, c: Clock)
    requires Half(l, s) && Half(l, Flip(s)) && s.b.Present? && Tolerable(l)
    requires c == s.b.clock.(lastSend := s.now, nextTick := c.nextTick)
    ensures Half(l, s.(b := Present(c), toA := s.toA + [s.now]))
  {
    SpacedAppend(l, s.toA, s.now);
    hide Spaced;
  }

  lemma TickKeeps(l: Limits, s: System)
    requires Tolerable(l) && Inv(l, s) && Can(s, Tick)
    ensures Inv(l, Move(l, s, Tick))
  {
    NotStalled(l, s);
    HalvingKeepsTime(l, s.a.clock, s.now);
    var (c, sent) := Ticked(s.a.clock, l.interval, s.now);
    if sent {
      SendKeeps(l, s, c);
    }
  }

  lemma ReceiveKeeps(l: Limits, s: System)
    requires Tolerable(l) && Inv(l, s) && Can(s, Receive)
    ensures Inv(l, Move(l, s, Receive))
  {
    var t := s.toA[1..];
    assert forall i :: 0 <= i < |t| ==> t[i] == s.toA[i + 1];
    if t != [] {
      assert s.toA[0] <= s.toA[1] && Close(l, s.toA[0], s.toA[1]);
      DeadlineMoves(l, s);
    }
  }

  /** The deadline of the next message is no earlier. */
  lemma DeadlineMoves(l: Limits, s: System)
    requires Inv(l, s) && s.a.Present? && |s.toA| >= 2
    ensures s.now <= Later(s.toA[1] + l.delay, s.a.clock.start)
  {
    assert s.toA[0] <= s.toA[1];
  }

  lemma StartKeeps(l: Limits, s: System)
    requires Tolerable(l) && Inv(l, s) && Can(s, Start)
    ensures Inv(l, Move(l, s, Start))
  {
  }

  lemma MoveKeeps(l: Limits, s: System, e: Event)
    requires Tolerable(l) && Inv(l, s) && Can(s, e)
    ensures Inv(l, Move(l, s, e))
  {
    match e
    case Start => StartKeeps(l, s);
    case Tick => TickKeeps(l, s);
    case Send => SendKeeps(l, s, s.a.clock.(lastSend := s.now));
    case Receive => ReceiveKeeps(l, s);
  }

  lemma PassKeeps(l: Limits, s: System, to: int)
    requires Inv(l, s) && Possible(l, s, Pass(to))
    ensures Inv(l, s.(now := to))
  {
    PassKeepsHalf(l, s, to);
    PassKeepsHalf(l, Flip(s), to);
    hide Half, MayPass;
  }

  lemma PassKeepsHalf(l: Limits, s: System, to: int)
    requires Half(l, s) && s.now <= to && MayPass(l, s, to)
    ensures Half(l, s.(now := to))
  {
    hide Spaced, Close, TickInTime;
  }

  lemma {:induction false} RunKeeps(l: Limits, now: int, steps: seq<Step>)
    requires Tolerable(l) && Run(l, NewSystem(now), steps).Ok?
    ensures Inv(l, Run(l, NewSystem(now), steps).value)
  {
    if steps == [] {
    } else {
      hide Inv, Can, Move;
      var front, step := steps[..|steps| - 1], steps[|steps| - 1];
      RunKeeps(l, now, front);
      var s := Run(l, NewSystem(now), front).value;
      match step
      case Pass(to) => PassKeeps(l, s, to);
      case At(atB, e) =>
        FlipKeeps(l, s);
        MoveKeeps(l, if atB then Flip(s) else s, e);
        FlipKeeps(l, Move(l, if atB then Flip(s) else s, e));
    }
  }

  lemma FlipKeeps(l: Limits, s: System)
    ensures Inv(l, Flip(s)) <==> Inv(l, s)
  {
    assert Flip(Flip(s)) == s;
  }

  /** No false stall: in every run neither peer reports a stalled session. */
  lemma NeverStalls(l: Limits, now: int, steps: seq<Step>)
    requires Tolerable(l) && Run(l, NewSystem(now), steps).Ok?
    ensures var s := Run(l, NewSystem(now), steps).value;
            (s.a.Present? ==> !s.a.clock.stalled) && (s.b.Present? ==> !s.b.clock.stalled)
  {
    hide Run;
    RunKeeps(l, now, steps);
  }

  /** At every moment of every run the last send of each peer is less than fifteen sixteenths of
      the interval ago, and every tick finds more than a sixteenth left. */
  lemma SendsAreClose(l: Limits, now: int, steps: seq<Step>, atB: bool)
    requires Tolerable(l) && Run(l, NewSystem(now), steps).Ok?
    ensures var s := Run(l, NewSystem(now), steps).value; var me := if atB then Flip(s) else s;
            me.a.Present? ==> Close(l, me.a.clock.lastSend, me.now)
    ensures var s := Run(l, NewSystem(now), steps).value; var me := if atB then Flip(s) else s;
            Can(me, Tick) ==> 16 * (me.a.clock.lastSend + l.interval - me.now) > l.interval
  {
    hide Run;
    RunKeeps(l, now, steps);
  }
}
