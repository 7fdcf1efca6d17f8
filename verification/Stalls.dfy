/** When one peer of an established session reports a stalled session: exactly at its first tick more
    than the interval after the last receipt, which comes in bounded time, whatever else happens. */
module Stalls {
  import opened Bytes
  import K = Keepalive

  /** A peer in any surroundings: the time, and the clock of its stage. */
  datatype Lone = Lone(now: int, clock: K.Clock)

  /** Time passes, the tick comes, a message is sent, or one is received; a stage that has reported a
      stalled session has ended. */
  datatype Turn = Pass(to: int) | Tick | Send | Receive

  predicate Possible(s: Lone, t: Turn) {
    && !s.clock.stalled
    && (t.Pass? ==> s.now <= t.to <= s.clock.nextTick)
    && (t.Tick? ==> s.now == s.clock.nextTick)
  }

  function Next(interval: nat, s: Lone, t: Turn): Lone
    requires Possible(s, t)
  {
    match t
    case Pass(to) => s.(now := to)
    case Tick => s.(clock := K.Ticked(s.clock, interval, s.now).0)
    case Send => s.(clock := s.clock.(lastSend := s.now))
    case Receive => s.(clock := s.clock.(lastReceive := s.now))
  }

  function Run(interval: nat, s: Lone, ts: seq<Turn>): Result<Lone> {
    if ts == [] then Ok(s)
    else
      match Run(interval, s, ts[..|ts| - 1])
      case Err => Err
      case Ok(m) => if Possible(m, ts[|ts| - 1]) then Ok(Next(interval, m, ts[|ts| - 1])) else Err
  }

  function Ticks(ts: seq<Turn>): nat {
    if ts == [] then 0 else Ticks(ts[..|ts| - 1]) + if ts[|ts| - 1].Tick? then 1 else 0
  }

  predicate Silent(ts: seq<Turn>) { forall i :: 0 <= i < |ts| ==> !ts[i].Receive? }

  /** A tick reports a stall exactly when more than the interval has passed since the last receipt. */
  lemma TickStallsExactly(interval: nat, s: Lone)
    requires Possible(s, Tick)
    ensures Next(interval, s, Tick).clock.stalled <==> s.now > s.clock.lastReceive + interval
    ensures Next(interval, s, Tick).now == s.now && Next(interval, s, Tick).clock.lastReceive == s.clock.lastReceive
  {
  }

  /** The next tick is due in time, and a stall has been reported only if it is one. */
  predicate Sound(interval: nat, s: Lone) {
    var c := s.clock;
    && c.lastReceive <= s.now && c.lastSend <= s.now <= c.nextTick
    && c.nextTick <= c.lastReceive + interval + interval / 2
    && (c.stalled ==> s.now > c.lastReceive + interval)
  }

  lemma StartIsSound(interval: nat, now: int)
    ensures Sound(interval, Lone(now, K.Started(interval, now)))
  {
  }

  /** After a tick that reports nothing the next one is at least a sixteenth of the interval away. */
  lemma NextIsSound(interval: nat, s: Lone, t: Turn)
    requires Sound(interval, s) && Possible(s, t)
    ensures var m := Next(interval, s, t);
      && Sound(interval, m) && s.now <= m.now
      && (t.Tick? && !m.clock.stalled ==> m.clock.nextTick >= s.clock.nextTick + interval / 16)
      && (t.Tick? && m.clock.stalled ==> m.clock.nextTick == s.clock.nextTick)
      && (!t.Tick? ==> m.clock.nextTick == s.clock.nextTick && !m.clock.stalled)
      && (!t.Receive? ==> m.clock.lastReceive == s.clock.lastReceive)
  {
  }

  lemma {:induction false} RunIsSound(interval: nat, s: Lone, ts: seq<Turn>)
    requires Sound(interval, s) && Run(interval, s, ts).Ok?
    ensures Sound(interval, Run(interval, s, ts).value) && s.now <= Run(interval, s, ts).value.now
  {
    hide Sound, Possible, Next;
    if ts != [] {
      RunIsSound(interval, s, ts[..|ts| - 1]);
      NextIsSound(interval, Run(interval, s, ts[..|ts| - 1]).value, ts[|ts| - 1]);
    }
  }

  /** So much for every tick. */
  function Spent(ts: seq<Turn>, unit: nat): nat {
    if ts == [] then 0 else Spent(ts[..|ts| - 1], unit) + if ts[|ts| - 1].Tick? then unit else 0
  }

  lemma {:induction false} SpentIsProduct(ts: seq<Turn>, unit: nat)
    ensures Spent(ts, unit) == Ticks(ts) * unit
  {
    if ts != [] {
      var front := ts[..|ts| - 1];
      SpentIsProduct(front, unit);
      assert (Ticks(front) + 1) * unit == Ticks(front) * unit + unit;
    }
  }

  /** While nothing is received, ticks that report nothing use up the time there is. */
  lemma {:induction false} SilenceSpends(interval: nat, s: Lone, ts: seq<Turn>, unit: nat)
    requires Sound(interval, s) && Run(interval, s, ts).Ok? && Silent(ts) && unit == interval / 16
    ensures var m := Run(interval, s, ts).value;
      && m.clock.lastReceive == s.clock.lastReceive
      && (!m.clock.stalled ==> Spent(ts, unit) <= m.clock.nextTick - s.clock.nextTick)
      && (m.clock.stalled && !s.clock.stalled ==>
            Ticks(ts) > 0 && Spent(ts, unit) - unit <= m.clock.nextTick - s.clock.nextTick)
  {
    hide Sound, Possible, Next;
    if ts != [] {
      var front, last := ts[..|ts| - 1], ts[|ts| - 1];
      SilenceSpends(interval, s, front, unit);
      RunIsSound(interval, s, front);
      var m := Run(interval, s, front).value;
      NextIsSound(interval, m, last);
      OnlyWhileListening(m, last);
    }
  }

  lemma OnlyWhileListening(s: Lone, t: Turn)
    requires Possible(s, t)
    ensures !s.clock.stalled
  {
  }

  /** Ticks that spend at most 24 units, or one more, are at most 24, or one more. */
  lemma TicksFit(ts: seq<Turn>, unit: nat, oneMore: bool)
    requires unit > 0 && (oneMore ==> Ticks(ts) > 0)
    ensures Spent(ts, unit) - (if oneMore then unit else 0) <= 24 * unit ==> Ticks(ts) <= if oneMore then 25 else 24
  {
    hide Ticks, Spent;
    SpentIsProduct(ts, unit);
    var n := if oneMore then Ticks(ts) - 1 else Ticks(ts);
    assert Ticks(ts) * unit == n * unit + if oneMore then unit else 0;
    if n > 24 {
      assert n * unit == 24 * unit + (n - 24) * unit;
    }
  }

  /** A silent peer is noticed. After any run in which the last message came at some time, and any
      run on in which none comes: no more than one and a half intervals have passed since, a stall has
      been reported only after more than one interval, has been after 25 ticks, and until it has the
      next tick will come. */
  lemma SilenceIsNoticed(seconds: u16, start: int, before: seq<Turn>, silent: seq<Turn>)
    requires seconds > 0 && Silent(silent)
    requires var interval := K.Interval(seconds);
      var s := Run(interval, Lone(start, K.Started(interval, start)), before);
      s.Ok? && !s.value.clock.stalled && Run(interval, s.value, silent).Ok?
    ensures var interval := K.Interval(seconds);
      var s := Run(interval, Lone(start, K.Started(interval, start)), before).value;
      var m, r := Run(interval, s, silent).value, s.clock.lastReceive;
      && m.now <= r + interval + interval / 2
      && (m.clock.stalled ==> m.now > r + interval) && (Ticks(silent) >= 25 ==> m.clock.stalled)
      && Ticks(silent) <= 25
      && (!m.clock.stalled ==>
            && Possible(m, Pass(m.clock.nextTick)) && m.clock.nextTick <= r + interval + interval / 2
            && Possible(m.(now := m.clock.nextTick), Tick))
  {
    var interval := K.Interval(seconds);
    hide Run, K.Interval;
    var s0 := Lone(start, K.Started(interval, start));
    StartIsSound(interval, start);
    RunIsSound(interval, s0, before);
    var s := Run(interval, s0, before).value;
    RunIsSound(interval, s, silent);
    var unit := interval / 16;
    SilenceSpends(interval, s, silent, unit);
    Sixteenths(seconds);
    TicksFit(silent, unit, Run(interval, s, silent).value.clock.stalled);
  }

  lemma Sixteenths(seconds: u16)
    requires seconds > 0
    ensures K.Interval(seconds) == 16 * (K.Interval(seconds) / 16) && K.Interval(seconds) / 16 > 0
  {
    assert K.Interval(seconds) == 16 * (seconds * 62_500_000);
  }
}
