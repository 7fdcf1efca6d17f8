/** Exactly which bundles can lock two managers behind bounded channels. */
module BoundedExact {
  import opened Bytes
  import opened Messages
  import opened Blocks
  import opened BundleCodec
  import opened Transfer
  import opened TransferRuns
  import opened BoundedRuns
  import opened BoundedLiveness
  import opened BoundedLocks

  /* ---- handing bundles to Send ---- */

  predicate Sendable(env: Env, bundles: seq<seq<byte>>) {
    && |bundles| <= TWO64
    && forall i :: 0 <= i < |bundles| ==> |bundles[i]| <= MAX_LEN && ReadBundle(env, bundles[i]).Done?
  }

  function Starts(bundles: seq<seq<byte>>, atB: bool): seq<Act> {
    seq(|bundles|, i requires 0 <= i < |bundles| => Act(atB, Manage(Start(bundles[i]))))
  }

  /** Nothing is under way, and the peers have this many calls and segments that are not cut. */
  predicate Fresh(s: Session, callsA: nat, callsB: nat, i: nat, j: nat) {
    && s.ab == EMPTY_PATH && s.ba == EMPTY_PATH
    && |s.net.a.sends| == callsA && |s.net.b.sends| == callsB && Remaining(s.net, i, j)
  }

  lemma StartEnabled(caps: Caps, env: Env, s: Session, data: seq<byte>)
    requires |s.net.a.sends| < TWO64 && |data| <= MAX_LEN && ReadBundle(env, data).Done? && !s.net.a.crashed
    ensures Enabled(caps, env, s, Manage(Start(data)))
  {
    hide ReadBundle;
  }

  lemma StartShape(caps: Caps, env: Env, s: Session, data: seq<byte>)
    requires Enabled(caps, env, s, Manage(Start(data)))
    ensures After(caps, env, s, Manage(Start(data))) == s.(net := s.net.(a := StartSend(s.net.a, data)))
    ensures |StartSend(s.net.a, data).sends| == |s.net.a.sends| + 1
  {
    hide ReadBundle, HasRoom;
    assert s.ab.(outbox := s.ab.outbox + 0) == s.ab;
  }

  lemma StartOne(s: Session, data: seq<byte>, callsA: nat, callsB: nat, i: nat, j: nat)
    requires Fresh(s, callsA, callsB, i, j)
    ensures var p := StartSend(s.net.a, data);
      && p.mtu == s.net.a.mtu
      && Fresh(s.(net := s.net.(a := p)), callsA + 1, callsB, i + SegmentCount(|data|, s.net.a.mtu), j)
  {
    hide Unsent, SegmentCount;
    StartCounts(s.net.a, data);
  }

  /** One more call after a run, at either peer. */
  lemma StartAtA(
      caps: Caps, env: Env, start: Session, acts: seq<Act>, s: Session, data: seq<byte>,
      callsA: nat, callsB: nat, i: nat, j: nat)
    returns (t: Session)
    requires Fresh(s, callsA, callsB, i, j) && callsA < TWO64 && |data| <= MAX_LEN && ReadBundle(env, data).Done?
    requires Play(caps, env, start, acts) == Ok(s) && Sound(caps, env, s)
    ensures Play(caps, env, start, acts + [Act(false, Manage(Start(data)))]) == Ok(t)
    ensures t.net.a.mtu == s.net.a.mtu && t.net.b.mtu == s.net.b.mtu
    ensures Fresh(t, callsA + 1, callsB, i + SegmentCount(|data|, s.net.a.mtu), j)
    ensures Sound(caps, env, t)
  {
    hide Sound, Fresh, Enabled, After, ReadBundle, SegmentCount, Play, StartSend;
    MtuUsable(s, callsA, callsB, i, j);
    SoundSender(caps, env, s);
    StartEnabled(caps, env, s, data);
    StartShape(caps, env, s, data);
    StartOne(s, data, callsA, callsB, i, j);
    TurnKeeps(caps, env, s, Manage(Start(data)));
    PlayOne(caps, env, start, acts, Act(false, Manage(Start(data))));
    t := After(caps, env, s, Manage(Start(data)));
  }

  lemma StartAtB(
      caps: Caps, env: Env, start: Session, acts: seq<Act>, s: Session, data: seq<byte>,
      callsA: nat, callsB: nat, i: nat, j: nat)
    returns (t: Session)
    requires Fresh(s, callsA, callsB, i, j) && callsB < TWO64 && |data| <= MAX_LEN && ReadBundle(env, data).Done?
    requires Play(caps, env, start, acts) == Ok(s) && Sound(caps, env, s)
    ensures Play(caps, env, start, acts + [Act(true, Manage(Start(data)))]) == Ok(t)
    ensures t.net.a.mtu == s.net.a.mtu && t.net.b.mtu == s.net.b.mtu
    ensures Fresh(t, callsA, callsB + 1, i, j + SegmentCount(|data|, s.net.b.mtu))
    ensures Sound(caps, env, t)
  {
    hide Sound, Fresh, Enabled, After, ReadBundle, SegmentCount, Play, StartSend;
    MtuUsable(s, callsA, callsB, i, j);
    TurnedSound(caps, env, s);
    FreshTurned(s, callsA, callsB, i, j);
    SoundSender(caps, env, Turned(s));
    StartEnabled(caps, env, Turned(s), data);
    StartShape(caps, env, Turned(s), data);
    StartOne(Turned(s), data, callsB, callsA, j, i);
    TurnKeeps(caps, env, Turned(s), Manage(Start(data)));
    PlayOne(caps, env, start, acts, Act(true, Manage(Start(data))));
    var u := After(caps, env, Turned(s), Manage(Start(data)));
    t := Turned(u);
    TurnedSound(caps, env, u);
    FreshTurned(u, callsB + 1, callsA, j + SegmentCount(|data|, s.net.b.mtu), i);
  }

  lemma MtuUsable(s: Session, callsA: nat, callsB: nat, i: nat, j: nat)
    requires Fresh(s, callsA, callsB, i, j)
    ensures Usable(s.net.a.mtu) && Usable(s.net.b.mtu) && |s.net.a.sends| == callsA && |s.net.b.sends| == callsB
  {
  }

  lemma FreshTurned(s: Session, callsA: nat, callsB: nat, i: nat, j: nat)
    ensures Fresh(Turned(s), callsB, callsA, j, i) <==> Fresh(s, callsA, callsB, i, j)
  {
    hide Remaining;
    RemainingTurned(s, i, j);
  }

  lemma StartsMore(bundles: seq<seq<byte>>, atB: bool)
    requires bundles != []
    ensures var last := |bundles| - 1;
            Starts(bundles, atB) == Starts(bundles[..last], atB) + [Act(atB, Manage(Start(bundles[last])))]
  {
  }

  lemma SendableFront(env: Env, bundles: seq<seq<byte>>)
    requires Sendable(env, bundles) && bundles != []
    ensures Sendable(env, bundles[..|bundles| - 1])
    ensures var data := bundles[|bundles| - 1]; |data| <= MAX_LEN && ReadBundle(env, data).Done?
    ensures |bundles| <= TWO64
  {
  }

  lemma NewIsFresh(caps: Caps, env: Env, mtuA: u64, mtuB: u64)
    requires Usable(mtuA) && Usable(mtuB)
    ensures Fresh(NewSession(mtuA, mtuB), 0, 0, 0, 0) && Sound(caps, env, NewSession(mtuA, mtuB))
    ensures NewSession(mtuA, mtuB).net.a.mtu == mtuA && NewSession(mtuA, mtuB).net.b.mtu == mtuB
  {
    hide Sound;
    NewSessionSound(caps, env, mtuA, mtuB);
  }

  lemma {:induction false} AllStartedAtA(caps: Caps, env: Env, mtuA: u64, mtuB: u64, fromA: seq<seq<byte>>)
    returns (s: Session)
    requires Usable(mtuA) && Usable(mtuB) && Sendable(env, fromA)
    ensures Play(caps, env, NewSession(mtuA, mtuB), Starts(fromA, false)) == Ok(s)
    ensures s.net.a.mtu == mtuA && s.net.b.mtu == mtuB && Fresh(s, |fromA|, 0, Segments(fromA, mtuA), 0)
    ensures Sound(caps, env, s)
  {
    hide Sound, Fresh, Play, NewSession, Starts, SegmentCount, ReadBundle, Sendable, Segments;
    NewIsFresh(caps, env, mtuA, mtuB);
    if fromA == [] {
      s := NewSession(mtuA, mtuB);
      NoStartsAtAll(false, mtuA);
      NoActs(caps, env, s);
    } else {
      var last := |fromA| - 1;
      SendableFront(env, fromA);
      var t := AllStartedAtA(caps, env, mtuA, mtuB, fromA[..last]);
      StartsMore(fromA, false);
      SegmentsMore(fromA[..last], fromA[last], mtuA);
      assert fromA[..last] + [fromA[last]] == fromA;
      s := StartAtA(caps, env, NewSession(mtuA, mtuB), Starts(fromA[..last], false), t, fromA[last],
                    last, 0, Segments(fromA[..last], mtuA), 0);
    }
  }

  lemma NoStartsAtAll(atB: bool, mtu: u64)
    requires mtu >= 1
    ensures Starts([], atB) == [] && Segments([], mtu) == 0
  {
  }

  lemma {:induction false} AllStarted(
      caps: Caps, env: Env, mtuA: u64, mtuB: u64, fromA: seq<seq<byte>>, fromB: seq<seq<byte>>)
    returns (s: Session)
    requires Usable(mtuA) && Usable(mtuB) && Sendable(env, fromA) && Sendable(env, fromB)
    ensures Play(caps, env, NewSession(mtuA, mtuB), Starts(fromA, false) + Starts(fromB, true)) == Ok(s)
    ensures s.net.a.mtu == mtuA && s.net.b.mtu == mtuB
    ensures Fresh(s, |fromA|, |fromB|, Segments(fromA, mtuA), Segments(fromB, mtuB))
    ensures Sound(caps, env, s)
    decreases |fromB|
  {
    hide Sound, Fresh, Play, NewSession, Starts, SegmentCount, ReadBundle, Sendable, Segments;
    var front := Starts(fromA, false);
    if fromB == [] {
      s := AllStartedAtA(caps, env, mtuA, mtuB, fromA);
      NoStartsAtAll(true, mtuB);
      assert front + [] == front;
    } else {
      var last := |fromB| - 1;
      SendableFront(env, fromB);
      var t := AllStarted(caps, env, mtuA, mtuB, fromA, fromB[..last]);
      StartsMore(fromB, true);
      SegmentsMore(fromB[..last], fromB[last], mtuB);
      assert fromB[..last] + [fromB[last]] == fromB;
      assert front + Starts(fromB, true)
          == front + Starts(fromB[..last], true) + [Act(true, Manage(Start(fromB[last])))];
      s := StartAtB(caps, env, NewSession(mtuA, mtuB), front + Starts(fromB[..last], true), t, fromB[last],
                    |fromA|, last, Segments(fromA, mtuA), Segments(fromB[..last], mtuB));
    }
  }

  /* ---- what a run was given ---- */

  lemma {:induction false} GivenAppend(acts: seq<Act>, more: seq<Act>, atB: bool)
    ensures Given(acts + more, atB) == Given(acts, atB) + Given(more, atB)
    decreases |more|
  {
    if more == [] {
      assert acts + more == acts;
    } else {
      GivenAppend(acts, more[..|more| - 1], atB);
      assert (acts + more)[..|acts + more| - 1] == acts + more[..|more| - 1];
    }
  }

  lemma {:induction false} NothingGiven(acts: seq<Act>, atB: bool)
    requires NoStarts(acts)
    ensures Given(acts, atB) == []
  {
    if acts != [] {
      NothingGiven(acts[..|acts| - 1], atB);
    }
  }

  lemma {:induction false} StartsGive(bundles: seq<seq<byte>>, atB: bool)
    ensures Given(Starts(bundles, atB), atB) == bundles && Given(Starts(bundles, atB), !atB) == []
  {
    if bundles != [] {
      var last := |bundles| - 1;
      StartsGive(bundles[..last], atB);
      assert Starts(bundles, atB)[..last] == Starts(bundles[..last], atB);
    }
  }

  lemma GivenThen(fromA: seq<seq<byte>>, fromB: seq<seq<byte>>, acts: seq<Act>)
    requires NoStarts(acts)
    ensures var all := Starts(fromA, false) + Starts(fromB, true) + acts;
            Given(all, false) == fromA && Given(all, true) == fromB
  {
    hide Given, Starts, NoStarts;
    var a, b := Starts(fromA, false), Starts(fromB, true);
    StartsGive(fromA, false);
    StartsGive(fromB, true);
    forall atB ensures Given(a + b + acts, atB) == Given(a, atB) + Given(b, atB) {
      GivenAppend(a + b, acts, atB);
      GivenAppend(a, b, atB);
      NothingGiven(acts, atB);
    }
    assert fromA + [] == fromA && [] + fromB == fromB;
  }

  /* ---- the exact condition ---- */

  predicate SomePending(sends: seq<Sending>) {
    exists k :: 0 <= k < |sends| && sends[k].verdict != Success
  }

  /** Nothing can happen but new calls of Send, and some call has not succeeded. */
  ghost predicate Stuck(caps: Caps, env: Env, s: Session) {
    Quiet(caps, env, s) && (SomePending(s.net.a.sends) || SomePending(s.net.b.sends))
  }

  lemma TurnedStuck(caps: Caps, env: Env, s: Session)
    ensures Stuck(caps, env, Turned(s)) <==> Stuck(caps, env, s)
  {
    hide Quiet;
    TurnedQuiet(caps, env, s);
  }

  lemma StuckIsFull(caps: Caps, env: Env, s: Session)
    requires 1 <= caps.exchange <= caps.wire && Stuck(caps, env, s) && Sound(caps, env, s)
    ensures |s.net.ab| + |s.net.ba| >= 2 * caps.exchange + 2
  {
    hide Quiet, Sound;
    TurnedSound(caps, env, s);
    TurnedQuiet(caps, env, s);
    if |s.net.ab| + |s.net.ba| <= 2 * caps.exchange + 1 {
      forall k | 0 <= k < |s.net.a.sends| ensures s.net.a.sends[k].verdict == Success {
        QuietSucceeds(caps, env, s, k);
      }
      forall k | 0 <= k < |s.net.b.sends| ensures s.net.b.sends[k].verdict == Success {
        QuietSucceeds(caps, env, Turned(s), k);
      }
    }
  }

  /** A lock is for good: whatever else is sent and happens, the peer stays locked and the call whose
      segment its manager holds never succeeds. */
  lemma LockIsForGood(caps: Caps, env: Env, s: Session, acts: seq<Act>)
    requires Locked(caps, s) && Play(caps, env, s, acts).Ok? && Sound(caps, env, s)
    ensures Locked(caps, Play(caps, env, s, acts).value) && SegmentFirst(s.net.ba)
    ensures var t := Play(caps, env, s, acts).value; var k := s.net.ba[0].transferId;
            k < |t.net.b.sends| && t.net.b.sends[k].verdict != Success
  {
    hide Inv, Play;
    LockStays(caps, env, s, acts);
    PlayKeeps(caps, env, s, acts);
    HeldIsPending(env, Play(caps, env, s, acts).value.net);
  }

  lemma StuckFrom(caps: Caps, env: Env, s: Session, i: nat, j: nat) returns (u: Session)
    requires Fresh(s, |s.net.a.sends|, |s.net.b.sends|, i, j) && i <= j && i + j >= 2 * caps.exchange + 2
    requires 1 <= caps.exchange && 1 <= caps.wire && Sound(caps, env, s)
    ensures Stuck(caps, env, u)
    ensures Sound(caps, env, u) && Reaches(caps, env, s, u)
  {
    hide Sound, Play, Quiet, Remaining, Locked;
    var t := LockReached(caps, env, s, i, j);
    u := RunOut(caps, env, t);
    ReachesOn(caps, env, s, t, u);
    var acts :| NoStarts(acts) && Play(caps, env, t, acts) == Ok(u);
    LockIsForGood(caps, env, t, acts);
  }

  /** A run from new managers that hands these bundles to the two peers, in any order and at any time,
      and gets stuck. */
  ghost predicate StuckRun(
    caps: Caps, env: Env, mtuA: u64, mtuB: u64, fromA: seq<seq<byte>>, fromB: seq<seq<byte>>, acts: seq<Act>)
  {
    && Given(acts, false) == fromA && Given(acts, true) == fromB
    && Play(caps, env, NewSession(mtuA, mtuB), acts).Ok?
    && Stuck(caps, env, Play(caps, env, NewSession(mtuA, mtuB), acts).value)
  }

  lemma StuckNeedsSegments(
      caps: Caps, env: Env, mtuA: u64, mtuB: u64, fromA: seq<seq<byte>>, fromB: seq<seq<byte>>, acts: seq<Act>)
    requires 1 <= caps.exchange <= caps.wire && Usable(mtuA) && Usable(mtuB)
    requires StuckRun(caps, env, mtuA, mtuB, fromA, fromB, acts)
    ensures Segments(fromA, mtuA) + Segments(fromB, mtuB) >= 2 * caps.exchange + 2
  {
    hide Sound, Play, Stuck, NewSession, Unsent;
    NewSessionSound(caps, env, mtuA, mtuB);
    PlayKeeps(caps, env, NewSession(mtuA, mtuB), acts);
    LeftWasGiven(caps, env, mtuA, mtuB, acts);
    StuckIsFull(caps, env, Play(caps, env, NewSession(mtuA, mtuB), acts).value);
  }

  lemma SegmentsGetStuck(
      caps: Caps, env: Env, mtuA: u64, mtuB: u64, fromA: seq<seq<byte>>, fromB: seq<seq<byte>>)
    returns (acts: seq<Act>)
    requires 1 <= caps.exchange && 1 <= caps.wire && Usable(mtuA) && Usable(mtuB)
    requires Sendable(env, fromA) && Sendable(env, fromB)
    requires Segments(fromA, mtuA) + Segments(fromB, mtuB) >= 2 * caps.exchange + 2
    ensures StuckRun(caps, env, mtuA, mtuB, fromA, fromB, acts)
  {
    hide Sound, Play, Stuck, NewSession, Segments, Sendable, Starts, Given, NoStarts, Fresh;
    var s := AllStarted(caps, env, mtuA, mtuB, fromA, fromB);
    CallsOf(s, |fromA|, |fromB|, Segments(fromA, mtuA), Segments(fromB, mtuB));
    var u := StuckEither(caps, env, s, Segments(fromA, mtuA), Segments(fromB, mtuB));
    var more :| NoStarts(more) && Play(caps, env, s, more) == Ok(u);
    var starts := Starts(fromA, false) + Starts(fromB, true);
    PlayAppend(caps, env, NewSession(mtuA, mtuB), starts, more);
    GivenThen(fromA, fromB, more);
    acts := starts + more;
  }

  lemma CallsOf(s: Session, callsA: nat, callsB: nat, i: nat, j: nat)
    requires Fresh(s, callsA, callsB, i, j)
    ensures Fresh(s, |s.net.a.sends|, |s.net.b.sends|, i, j)
  {
  }

  lemma StuckEither(caps: Caps, env: Env, s: Session, i: nat, j: nat) returns (u: Session)
    requires Fresh(s, |s.net.a.sends|, |s.net.b.sends|, i, j) && i + j >= 2 * caps.exchange + 2
    requires 1 <= caps.exchange && 1 <= caps.wire && Sound(caps, env, s)
    ensures Stuck(caps, env, u) && Reaches(caps, env, s, u)
  {
    hide Sound, Stuck, Fresh, Reaches;
    if i <= j {
      u := StuckFrom(caps, env, s, i, j);
    } else {
      TurnedSound(caps, env, s);
      FreshTurned(s, |s.net.a.sends|, |s.net.b.sends|, i, j);
      var v := StuckFrom(caps, env, Turned(s), j, i);
      u := Turned(v);
      TurnedTwice(s);
      TurnedStuck(caps, env, v);
      ReachesTurned(caps, env, Turned(s), v);
    }
  }

  /** The exact condition, which a caller can check before: for any bundles handed to the two peers,
      with exchange channels of n messages, some run gets stuck if and only if the bundles are cut
      into 2n + 2 segments or more, whoever sends them. */
  lemma StuckExactly(caps: Caps, env: Env, mtuA: u64, mtuB: u64, fromA: seq<seq<byte>>, fromB: seq<seq<byte>>)
    requires 1 <= caps.exchange <= caps.wire && Usable(mtuA) && Usable(mtuB)
    requires Sendable(env, fromA) && Sendable(env, fromB)
    ensures (exists acts :: StuckRun(caps, env, mtuA, mtuB, fromA, fromB, acts))
       <==> Segments(fromA, mtuA) + Segments(fromB, mtuB) >= 2 * caps.exchange + 2
  {
    hide StuckRun, Segments, Sendable;
    if Segments(fromA, mtuA) + Segments(fromB, mtuB) >= 2 * caps.exchange + 2 {
      var acts := SegmentsGetStuck(caps, env, mtuA, mtuB, fromA, fromB);
    }
    if acts :| StuckRun(caps, env, mtuA, mtuB, fromA, fromB, acts) {
      StuckNeedsSegments(caps, env, mtuA, mtuB, fromA, fromB, acts);
    }
  }

  /** Traffic in one direction is enough: a single bundle of 2n + 2 segments can lock its receiver. */
  lemma OneWayGetsStuck(caps: Caps, env: Env, mtuA: u64, mtuB: u64, data: seq<byte>) returns (acts: seq<Act>)
    requires 1 <= caps.exchange && 1 <= caps.wire && Usable(mtuA) && Usable(mtuB)
    requires |data| <= MAX_LEN && ReadBundle(env, data).Done? && |data| > (2 * caps.exchange + 1) * mtuA
    ensures StuckRun(caps, env, mtuA, mtuB, [data], [], acts)
  {
    hide StuckRun, ReadBundle, SegmentCount;
    LongBundle(|data|, mtuA, 2 * caps.exchange + 1);
    SegmentsMore([], data, mtuA);
    assert [] + [data] == [data];
    acts := SegmentsGetStuck(caps, env, mtuA, mtuB, [data], []);
  }

  lemma {:induction false} LongBundle(n: nat, mtu: nat, k: nat)
    requires mtu >= 1 && n > k * mtu
    ensures SegmentCount(n, mtu) >= k + 1
    decreases k
  {
    if k > 0 {
      assert k * mtu == (k - 1) * mtu + mtu;
      assert (k - 1) * mtu >= 0;
      LongBundle(n - mtu, mtu, k - 1);
    }
  }
}
