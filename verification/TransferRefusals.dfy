/** Runs in which a peer may refuse segments, as the manager itself never does: a call of Send that
    has taken a refusal has failed for good, and one whose segment was refused never succeeds. */
module TransferRefusals {
  import opened Bytes
  import opened Messages
  import opened Blocks
  import opened BundleCodec
  import opened Transfer
  import opened TransferRuns

  /** What can happen at peer a: an event of an honest peer, the next segment is refused, or the
      cutting goroutine of a call that has failed takes its next turn. */
  datatype Deed = Do(event: Event) | Refuse(reason: u8) | TurnAfterFailure(k: nat)

  datatype Doing = Doing(atB: bool, deed: Deed)

  predicate Able(env: Env, n: Net, d: Deed) {
    match d
    case Do(e) => Can(env, n, e)
    case Refuse(_) => !n.a.crashed && !n.a.failed && n.ba != [] && n.ba[0].XferSegment?
    case TurnAfterFailure(k) =>
      !n.a.crashed && k < |n.a.sends| && n.a.sends[k].stage == Cutting && n.a.sends[k].verdict == Failure
  }

  function Effect(env: Env, n: Net, d: Deed): Net
    requires Able(env, n, d)
  {
    match d
    case Do(e) => Move(env, n, e)
    case Refuse(reason) => n.(ba := n.ba[1..], ab := n.ab + [XferRefuse(reason, n.ba[0].transferId)])
    case TurnAfterFailure(k) => n.(a := Cut(n.a, k).0, ab := n.ab + Cut(n.a, k).1)
  }

  predicate AbleAt(env: Env, n: Net, d: Doing) { Able(env, if d.atB then Flip(n) else n, d.deed) }

  function EffectAt(env: Env, n: Net, d: Doing): Net
    requires AbleAt(env, n, d)
  {
    if d.atB then Flip(Effect(env, Flip(n), d.deed)) else Effect(env, n, d.deed)
  }

  function Perform(env: Env, n: Net, ds: seq<Doing>): Result<Net> {
    if ds == [] then Ok(n)
    else
      match Perform(env, n, ds[..|ds| - 1])
      case Err => Err
      case Ok(m) => if AbleAt(env, m, ds[|ds| - 1]) then Ok(EffectAt(env, m, ds[|ds| - 1])) else Err
  }

  lemma LastDoing(env: Env, n: Net, ds: seq<Doing>)
    requires ds != [] && Perform(env, n, ds).Ok?
    ensures var front, last := Perform(env, n, ds[..|ds| - 1]), ds[|ds| - 1];
      front.Ok? && AbleAt(env, front.value, last) && Perform(env, n, ds) == Ok(EffectAt(env, front.value, last))
  {
    hide AbleAt, EffectAt;
  }

  /* ---- a call that takes a refusal ---- */

  /** Whatever the state: a call that takes anything but an acknowledgement has failed, listens no
      longer, and has cut and counted nothing. */
  lemma OtherFeedbackFails(env: Env, n: Net, k: nat)
    requires Can(env, n, TakeFeedback(k)) && !n.a.sends[k].feedback[0].XferAck?
    ensures var m := Move(env, n, TakeFeedback(k));
      && |m.a.sends| == |n.a.sends| && m.a.sends[k].verdict == Failure
      && m.a.sends[k].transfer.id !in m.a.outFeedback
      && m.a.sends[k].transfer == n.a.sends[k].transfer && m.a.sends[k].inLen == n.a.sends[k].inLen
      && m.ab == n.ab && m.ba == n.ba && m.b == n.b
  {
  }

  /** And a call that takes an acknowledgement has succeeded exactly when it acknowledges the length
      that the call has been told, as an int. */
  lemma AcknowledgedExactly(env: Env, n: Net, k: nat)
    requires Can(env, n, TakeFeedback(k)) && n.a.sends[k].feedback[0].XferAck?
    ensures var s, t := n.a.sends[k], Move(env, n, TakeFeedback(k)).a.sends[k];
      && t.inLen == ToInt(s.feedback[0].ackLen) && t.verdict != Failure
      && (t.verdict == Success <==> t.inLen == s.outLen)
  {
  }

  /** The cutting goroutine of a failed call stops at its next turn and writes nothing. */
  lemma FailedCutsNothing(env: Env, n: Net, k: nat)
    requires Able(env, n, TurnAfterFailure(k))
    ensures var m := Effect(env, n, TurnAfterFailure(k));
      && m.ab == n.ab && |m.a.sends| == |n.a.sends|
      && m.a.sends[k].stage == Abandoned && m.a.sends[k].transfer == n.a.sends[k].transfer
  {
    assert n.ab + [] == n.ab;
  }

  /** A call that has failed, with what it has cut so far. */
  predicate FailedWith(p: Peer, k: nat, transfer: Outgoing, l: nat) {
    k < |p.sends| && p.sends[k].verdict == Failure && p.sends[k].transfer == transfer && p.sends[k].l == l
  }

  lemma HandleKeepsCalls(env: Env, p: Peer, m: Message, k: nat)
    requires Registered(p) && k < |p.sends|
    ensures var q := Handle(env, p, m).0;
      && |q.sends| == |p.sends| && q.sends[k].verdict == p.sends[k].verdict
      && q.sends[k].transfer == p.sends[k].transfer && q.sends[k].l == p.sends[k].l
  {
    hide ReadBundle, InSegment, HandleSegment;
    if m.XferSegment? {
      SegmentOutcome(env, p, m);
    }
  }

  lemma CutKeepsFailure(p: Peer, j: nat, k: nat, transfer: Outgoing, l: nat)
    requires j < |p.sends| && FailedWith(p, k, transfer, l)
    ensures FailedWith(Cut(p, j).0, k, transfer, l)
  {
    hide OutSegment, OutRest;
  }

  lemma SettleKeepsFailure(p: Peer, j: nat, s: Sending, k: nat, transfer: Outgoing, l: nat)
    requires j < |p.sends| && p.sends[j].verdict == Pending && FailedWith(p, k, transfer, l)
    ensures FailedWith(Settle(p, j, s), k, transfer, l)
  {
  }

  lemma EffectKeepsFailure(env: Env, n: Net, d: Deed, k: nat, transfer: Outgoing, l: nat)
    requires Able(env, n, d) && FailedWith(n.a, k, transfer, l)
    ensures FailedWith(Effect(env, n, d).a, k, transfer, l)
  {
    hide Handle, Cut, Settle, WithLength, WithFeedback;
    match d
    case Do(e) =>
      match e {
        case Start(data) =>
        case Deliver => HandleKeepsCalls(env, n.a, n.ba[0], k);
        case CutNext(j) => CutKeepsFailure(n.a, j, k, transfer, l);
        case TakeLength(j) => SettleKeepsFailure(n.a, j, WithLength(n.a.sends[j]), k, transfer, l);
        case TakeFeedback(j) => SettleKeepsFailure(n.a, j, WithFeedback(n.a.sends[j]), k, transfer, l);
      }
    case Refuse(_) =>
    case TurnAfterFailure(j) => CutKeepsFailure(n.a, j, k, transfer, l);
  }

  /** A call that has failed stays so, and nothing more of it is cut, whatever happens. */
  lemma {:induction false} FailedForGood(env: Env, n: Net, ds: seq<Doing>, k: nat, transfer: Outgoing, l: nat)
    requires FailedWith(n.a, k, transfer, l) && Perform(env, n, ds).Ok?
    ensures FailedWith(Perform(env, n, ds).value.a, k, transfer, l)
  {
    hide FailedWith, Able, Effect;
    if ds != [] {
      var front, last := ds[..|ds| - 1], ds[|ds| - 1];
      LastDoing(env, n, ds);
      hide Perform;
      FailedForGood(env, n, front, k, transfer, l);
      var m := Perform(env, n, front).value;
      if last.atB {
        OtherSide(env, Flip(m), last.deed);
      } else {
        EffectKeepsFailure(env, m, last.deed, k, transfer, l);
      }
    }
  }

  lemma OtherSide(env: Env, n: Net, d: Deed)
    requires Able(env, n, d)
    ensures Effect(env, n, d).b == n.b
  {
    hide Handle, Cut, Settle, StartSend;
  }

  /** A call of Send that has taken a refusal never succeeds: in every run on, whoever refuses what
      else, it has failed and no further octet of it is cut. */
  lemma RefusalIsFailure(env: Env, n: Net, k: nat, ds: seq<Doing>)
    requires Can(env, n, TakeFeedback(k)) && n.a.sends[k].feedback[0].XferRefuse?
    requires Perform(env, Move(env, n, TakeFeedback(k)), ds).Ok?
    ensures var m := Perform(env, Move(env, n, TakeFeedback(k)), ds).value;
      && k < |m.a.sends| && m.a.sends[k].verdict == Failure
      && m.a.sends[k].transfer == n.a.sends[k].transfer && m.a.sends[k].l == n.a.sends[k].l
  {
    hide Perform;
    OtherFeedbackFails(env, n, k);
    FailedForGood(env, Move(env, n, TakeFeedback(k)), ds, k, n.a.sends[k].transfer, n.a.sends[k].l);
  }

  /** A late acknowledgement for a call that no longer listens ends the manager's loop. */
  lemma LateAnswerEndsManager(env: Env, n: Net)
    requires Can(env, n, Deliver)
    requires var m := n.ba[0];
      if m.XferAck? then m.ackId !in n.a.outFeedback
      else if m.XferRefuse? then m.refusedId !in n.a.outFeedback else !m.XferSegment?
    ensures var m := Move(env, n, Deliver);
      m.a.failed && m.a.sends == n.a.sends && m.ab == n.ab && !Can(env, m, Deliver)
  {
    assert n.ab + [] == n.ab;
  }

  /* ---- a call whose segment is refused ---- */

  /** The octets of a transfer that were refused in a run. */
  function Lost(env: Env, n: Net, ds: seq<Doing>, k: nat): nat
    requires Perform(env, n, ds).Ok?
  {
    if ds == [] then 0
    else
      var front, last := ds[..|ds| - 1], ds[|ds| - 1];
      var m := Perform(env, n, front).value;
      Lost(env, n, front, k)
      + if last.atB && last.deed.Refuse? && Belongs(m.ab[0], true, k) then |m.ab[0].data| else 0
  }

  /** The octets of a transfer under way. */
  function Flying(wire: seq<Message>, k: nat): nat { |DataOf(Pick(wire, true, k))| }

  predicate NoneEmpty(wire: seq<Message>, k: nat) {
    forall i :: 0 <= i < |wire| && Belongs(wire[i], true, k) ==> wire[i].data != []
  }

  /** Acknowledgements of the transfer are for some octets and at most so many. */
  predicate AcksUpTo(wire: seq<Message>, k: nat, most: int) {
    forall i :: 0 <= i < |wire| && Belongs(wire[i], false, k) ==> 1 <= wire[i].ackLen <= most
  }

  /** The call has counted, heard of and been told lengths that fit what can have been accepted. */
  predicate Fair(s: Sending, accepted: int) {
    && s.l + |s.transfer.stream| == |s.data| <= MAX_LEN && 0 <= s.inLen <= accepted
    && s.outLen == (if s.stage == LengthTaken then |s.data| else 0)
    && (s.stage == LengthReady || s.stage == LengthTaken ==> s.transfer.stream == [])
    && (forall i :: 0 <= i < |s.feedback| && s.feedback[i].XferAck? ==> 1 <= s.feedback[i].ackLen <= accepted)
    && (s.verdict == Success ==> accepted == |s.data|)
  }

  /** What has left the sender, is no longer under way and was not refused. */
  function AcceptedOf(n: Net, k: nat, lost: nat): int
    requires k < |n.a.sends|
  {
    |n.a.sends[k].data| - |n.a.sends[k].transfer.stream| - Flying(n.ab, k) - lost
  }

  predicate Numbered(p: Peer) {
    && Usable(p.mtu) && |p.sends| <= TWO64 && p.outNextId == |p.sends| % TWO64 && !p.stopped
    && (forall id :: id in p.outFeedback ==> id < |p.sends| && p.outFeedback[id] == id)
    && forall k :: 0 <= k < |p.sends| ==> p.sends[k].transfer.id == k
  }

  predicate Frames(n: Net) {
    && Numbered(n.a) && TransferRuns.Known(n.ab, true, |n.a.sends|)
    && TransferRuns.Known(n.ba, false, |n.a.sends|)
    && forall id :: id in n.b.inTransfers ==> id < |n.a.sends| && n.b.inTransfers[id].id == id
  }

  /** One transfer, when lost octets of it have been refused. */
  predicate Bounded(n: Net, k: nat, lost: nat) {
    if k >= |n.a.sends| then lost == 0
    else
      && AcceptedOf(n, k, lost) >= 0 && Fair(n.a.sends[k], AcceptedOf(n, k, lost))
      && NoneEmpty(n.ab, k) && AcksUpTo(n.ba, k, AcceptedOf(n, k, lost))
      && (k < TWO64 && k in n.b.inTransfers ==> |n.b.inTransfers[k].buf| <= AcceptedOf(n, k, lost))
  }

  lemma FlyingHead(wire: seq<Message>, k: nat)
    requires wire != []
    ensures Flying(wire, k) == Flying(wire[1..], k) + if Belongs(wire[0], true, k) then |wire[0].data| else 0
  {
    PickHead(wire, true, k);
  }

  lemma FlyingMore(wire: seq<Message>, m: Message, k: nat)
    ensures Flying(wire + [m], k) == Flying(wire, k) + if Belongs(m, true, k) then |m.data| else 0
  {
    PickOne(wire, m, true, k);
    if Belongs(m, true, k) {
      DataOfLast(Pick(wire, true, k), m);
    }
  }

  lemma FlyingUnknown(wire: seq<Message>, k: nat)
    requires TransferRuns.Known(wire, true, k)
    ensures Flying(wire, k) == 0
  {
    PickUnknown(wire, true, k, k);
  }

  lemma StartBounds(env: Env, n: Net, data: seq<byte>, k: nat, lost: nat)
    requires Frames(n) && Bounded(n, k, lost) && Can(env, n, Start(data))
    ensures Frames(Move(env, n, Start(data))) && Bounded(Move(env, n, Start(data)), k, lost)
  {
    hide Flying, ReadBundle, Fair, NoneEmpty, AcksUpTo;
    SmallMod(|n.a.sends|, TWO64);
    StartFrames(env, n, data);
    if k == |n.a.sends| {
      FlyingUnknown(n.ab, k);
      NothingNamed(n, k);
      NewIsFair(data, k);
    }
  }

  lemma StartFrames(env: Env, n: Net, data: seq<byte>)
    requires Frames(n) && Can(env, n, Start(data))
    ensures Frames(Move(env, n, Start(data)))
  {
    hide ReadBundle;
    SmallMod(|n.a.sends|, TWO64);
  }

  lemma NothingNamed(n: Net, k: nat)
    requires Frames(n) && k == |n.a.sends|
    ensures NoneEmpty(n.ab, k) && AcksUpTo(n.ba, k, 0) && (k < TWO64 ==> k !in n.b.inTransfers)
  {
  }

  lemma NewIsFair(data: seq<byte>, id: nat)
    requires |data| <= MAX_LEN && id < TWO64
    ensures Fair(Sending(data, Outgoing(id, true, data), 0, Cutting, [], 0, 0, Pending), 0)
  {
  }

  /** A call cuts: what it cuts is under way instead of unsent. */
  lemma CutBounds(env: Env, n: Net, j: nat, k: nat, lost: nat)
    requires Frames(n) && Bounded(n, k, lost) && j < |n.a.sends| && n.a.sends[j].stage == Cutting
    ensures var m := n.(a := Cut(n.a, j).0, ab := n.ab + Cut(n.a, j).1); Frames(m) && Bounded(m, k, lost)
  {
    hide Flying, Cut;
    CutFacts(n.a, j);
    var out := Cut(n.a, j).1;
    if out == [] {
      assert n.ab + [] == n.ab;
    } else {
      assert out == [out[0]];
      FlyingMore(n.ab, out[0], k);
    }
  }

  lemma SegmentCut(t: Outgoing, mtu: u64)
    requires Usable(mtu)
    ensures var r, rest := OutSegment(t, mtu), OutRest(t, mtu);
      && !r.Panic? && rest.id == t.id
      && (r.Error? ==> rest.stream == t.stream == [])
      && (r.Value? ==> r.value.XferSegment? && r.value.transferId == t.id && r.value.data != []
                       && |t.stream| == |rest.stream| + |r.value.data|)
  {
    hide SegmentFlags;
  }

  lemma CutFacts(p: Peer, j: nat)
    requires Numbered(p) && j < |p.sends| && p.sends[j].stage == Cutting
    ensures var (q, out) := Cut(p, j);
      && q == p.(sends := q.sends) && |q.sends| == |p.sends|
      && (forall i :: 0 <= i < |p.sends| && i != j ==> q.sends[i] == p.sends[i])
      && var s, t := p.sends[j], q.sends[j];
      && t == s.(transfer := t.transfer, l := t.l, stage := t.stage) && t.transfer.id == s.transfer.id
      && t.l + |t.transfer.stream| == s.l + |s.transfer.stream| && t.stage != LengthTaken
      && (t.stage == LengthReady ==> t.transfer.stream == [])
      && (out == [] ==> |t.transfer.stream| == |s.transfer.stream|)
      && (out != [] ==>
            && |out| == 1 && out[0].XferSegment? && out[0].transferId == j && out[0].data != []
            && |s.transfer.stream| == |t.transfer.stream| + |out[0].data|)
  {
    hide OutSegment, OutRest;
    var t := p.sends[j].transfer;
    SegmentCut(t, p.mtu);
  }

  lemma TakeBounds(env: Env, n: Net, e: Event, j: nat, k: nat, lost: nat)
    requires e == TakeLength(j) || e == TakeFeedback(j)
    requires Frames(n) && Bounded(n, k, lost) && Can(env, n, e)
    ensures Frames(Move(env, n, e)) && Bounded(Move(env, n, e), k, lost)
  {
    hide Frames, Bounded, Flying, Fair, Settle, WithLength, WithFeedback;
    var s, t := n.a.sends[j], if e.TakeLength? then WithLength(n.a.sends[j]) else WithFeedback(n.a.sends[j]);
    TakenIsFair(s, e.TakeLength?, AcceptedOf(n, j, if j == k then lost else 0));
    SettleFrames(n, j, t);
    if j == k {
      AcceptedAtMost(n, k, lost);
    }
    SettleBounds(n, j, t, k, lost);
  }

  lemma AcceptedAtMost(n: Net, k: nat, lost: nat)
    requires k < |n.a.sends| && Bounded(n, k, lost)
    ensures Fair(n.a.sends[k], AcceptedOf(n, k, lost)) && AcceptedOf(n, k, lost) <= |n.a.sends[k].data|
  {
    hide Flying, AcksUpTo, NoneEmpty, Fair;
  }

  lemma SettleFrames(n: Net, j: nat, t: Sending)
    requires Frames(n) && j < |n.a.sends| && t.transfer == n.a.sends[j].transfer
    ensures Frames(n.(a := Settle(n.a, j, t)))
  {
    hide TransferRuns.Known;
  }

  lemma SettleBounds(n: Net, j: nat, t: Sending, k: nat, lost: nat)
    requires Bounded(n, k, lost) && j < |n.a.sends|
    requires t.transfer == n.a.sends[j].transfer && t.data == n.a.sends[j].data
    requires j == k ==> Fair(t, AcceptedOf(n, k, lost))
    ensures Bounded(n.(a := Settle(n.a, j, t)), k, lost)
  {
    hide Flying, AcksUpTo, NoneEmpty, Fair;
  }

  lemma TakenIsFair(s: Sending, length: bool, accepted: int)
    requires if length then s.stage == LengthReady else s.feedback != []
    ensures var t := if length then WithLength(s) else WithFeedback(s);
      && t.transfer == s.transfer && t.data == s.data
      && (Fair(s, accepted) && accepted <= |s.data| ==> Fair(t, accepted))
  {
  }

  /** The next message to a, which is none of b's own segments to be answered, goes to a call. */
  lemma FeedbackBounds(n: Net, id: u64, k: nat, lost: nat)
    requires Frames(n) && Bounded(n, k, lost) && n.ba != [] && Registered(n.a)
    requires (n.ba[0].XferAck? && id == n.ba[0].ackId) || n.ba[0].XferRefuse?
    ensures var m := n.(a := HandleFeedback(n.a, id, n.ba[0]), ba := n.ba[1..]); Frames(m) && Bounded(m, k, lost)
  {
    hide Flying, NoneEmpty;
  }

  lemma TailBounds(n: Net, k: nat, lost: nat)
    requires Frames(n) && Bounded(n, k, lost) && n.ba != []
    ensures Frames(n.(ba := n.ba[1..])) && Bounded(n.(ba := n.ba[1..]), k, lost)
  {
    hide Flying, NoneEmpty, Fair;
  }

  /** Anything that is no segment of a known transfer may go onto a's wire. */
  lemma WriteBounds(n: Net, m: Message, k: nat, lost: nat)
    requires Frames(n) && Bounded(n, k, lost) && !m.XferSegment?
    ensures Frames(n.(ab := n.ab + [m])) && Bounded(n.(ab := n.ab + [m]), k, lost)
  {
    hide Flying, AcksUpTo, Fair;
    FlyingMore(n.ab, m, k);
  }

  /** The receiving side of a does not matter to its own transfers. */
  lemma ReceivingBounds(n: Net, p: Peer, k: nat, lost: nat)
    requires Frames(n) && Bounded(n, k, lost)
    requires p == n.a.(inTransfers := p.inTransfers, finished := p.finished, failed := p.failed)
    ensures Frames(n.(a := p)) && Bounded(n.(a := p), k, lost)
  {
    hide Flying, AcksUpTo, Fair, NoneEmpty;
  }

  lemma SegmentOutcome(env: Env, p: Peer, m: Message)
    requires m.XferSegment?
    ensures var (q, out) := HandleSegment(env, p, m);
      && q == p.(inTransfers := q.inTransfers, finished := q.finished, failed := q.failed)
      && (out == [] || (|out| == 1 && out[0].XferAck?))
  {
    hide ReadBundle;
  }

  lemma OwnDeliverBounds(env: Env, n: Net, k: nat, lost: nat)
    requires Frames(n) && Bounded(n, k, lost) && Can(env, n, Deliver)
    ensures Frames(Move(env, n, Deliver)) && Bounded(Move(env, n, Deliver), k, lost)
  {
    hide Frames, Bounded, HandleSegment, HandleFeedback, Registered;
    var m := n.ba[0];
    assert n.ab + [] == n.ab;
    if m.XferAck? {
      FeedbackBounds(n, m.ackId, k, lost);
    } else if m.XferRefuse? {
      FeedbackBounds(n, m.refusedId, k, lost);
    } else {
      TailBounds(n, k, lost);
      var t := n.(ba := n.ba[1..]);
      if m.XferSegment? {
        SegmentOutcome(env, n.a, m);
        var (p, out) := HandleSegment(env, n.a, m);
        ReceivingBounds(t, p, k, lost);
        if out != [] {
          assert out == [out[0]];
          WriteBounds(t.(a := p), out[0], k, lost);
        }
      } else {
        ReceivingBounds(t, n.a.(failed := true), k, lost);
      }
    }
  }

  lemma OwnDeedBounds(env: Env, n: Net, d: Deed, k: nat, lost: nat)
    requires Frames(n) && Bounded(n, k, lost) && Able(env, n, d)
    ensures Frames(Effect(env, n, d)) && Bounded(Effect(env, n, d), k, lost)
  {
    hide Frames, Bounded, Cut, Handle, StartSend, Settle;
    match d
    case Do(e) =>
      match e {
        case Start(data) => StartBounds(env, n, data, k, lost);
        case CutNext(j) => CutBounds(env, n, j, k, lost);
        case Deliver => OwnDeliverBounds(env, n, k, lost);
        case TakeLength(j) => TakeBounds(env, n, e, j, k, lost);
        case TakeFeedback(j) => TakeBounds(env, n, e, j, k, lost);
      }
    case Refuse(reason) =>
      TailBounds(n, k, lost);
      WriteBounds(n.(ba := n.ba[1..]), XferRefuse(reason, n.ba[0].transferId), k, lost);
    case TurnAfterFailure(j) => CutBounds(env, n, j, k, lost);
  }

  /* ---- what the other peer does ---- */

  /** Messages to a that are no acknowledgements. */
  lemma NoAcksBounds(n: Net, b: Peer, out: seq<Message>, k: nat, lost: nat)
    requires Frames(n) && Bounded(n, k, lost) && b.inTransfers == n.b.inTransfers
    requires forall i :: 0 <= i < |out| ==> !out[i].XferAck?
    ensures var m := n.(b := b, ba := n.ba + out); Frames(m) && Bounded(m, k, lost)
  {
    hide Flying, NoneEmpty, Fair;
  }

  /** What a segment does to the receiver of its transfer: at most one acknowledgement, for what is
      then in the buffer. */
  lemma SegmentReceived(env: Env, p: Peer, m: Message, most: int)
    requires m.XferSegment? && m.data != [] && most + |m.data| <= MAX_LEN && 0 <= most
    requires forall id :: id in p.inTransfers ==> p.inTransfers[id].id == id
    requires m.transferId in p.inTransfers ==> |p.inTransfers[m.transferId].buf| <= most
    ensures var (q, out) := HandleSegment(env, p, m); var id := m.transferId;
      && (id in q.inTransfers ==> q.inTransfers[id].id == id && |q.inTransfers[id].buf| <= most + |m.data|)
      && (forall j :: j != id ==> (j in q.inTransfers <==> j in p.inTransfers)
                                  && (j in p.inTransfers ==> q.inTransfers[j] == p.inTransfers[j]))
      && (out == [] || (|out| == 1 && out[0].XferAck? && out[0].ackId == id && 1 <= out[0].ackLen <= most + |m.data|))
  {
    hide ReadBundle;
    SmallMod(|TransferFor(p, m.transferId).buf + m.data|, TWO64);
  }

  /** What a segment of another transfer does. */
  lemma OtherSegmentReceived(env: Env, p: Peer, m: Message)
    requires m.XferSegment? && forall id :: id in p.inTransfers ==> p.inTransfers[id].id == id
    ensures var (q, out) := HandleSegment(env, p, m); var id := m.transferId;
      && (id in q.inTransfers ==> q.inTransfers[id].id == id)
      && (forall j :: j != id ==> (j in q.inTransfers <==> j in p.inTransfers)
                                  && (j in p.inTransfers ==> q.inTransfers[j] == p.inTransfers[j]))
      && (out == [] || (|out| == 1 && out[0].XferAck? && out[0].ackId == id))
  {
    hide ReadBundle;
  }

  /** The next segment of the transfer is accepted. */
  lemma AcceptBounds(env: Env, n: Net, k: nat, lost: nat)
    requires Frames(n) && Bounded(n, k, lost) && n.ab != [] && Belongs(n.ab[0], true, k)
    ensures var (q, out) := HandleSegment(env, n.b, n.ab[0]);
            var m := n.(b := q, ab := n.ab[1..], ba := n.ba + out); Frames(m) && Bounded(m, k, lost)
  {
    hide Flying, HandleSegment;
    FlyingHead(n.ab, k);
    var most := AcceptedOf(n, k, lost);
    SegmentReceived(env, n.b, n.ab[0], most);
  }

  /** The next segment of another transfer is accepted or not. */
  lemma AcceptOtherBounds(env: Env, n: Net, k: nat, lost: nat)
    requires Frames(n) && Bounded(n, k, lost) && n.ab != [] && n.ab[0].XferSegment? && !Belongs(n.ab[0], true, k)
    ensures var (q, out) := HandleSegment(env, n.b, n.ab[0]);
            var m := n.(b := q, ab := n.ab[1..], ba := n.ba + out); Frames(m) && Bounded(m, k, lost)
  {
    hide Flying, HandleSegment, Fair;
    FlyingHead(n.ab, k);
    OtherSegmentReceived(env, n.b, n.ab[0]);
  }

  /** The next message from a is taken and not answered by an acknowledgement. */
  lemma TakenBounds(n: Net, b: Peer, out: seq<Message>, k: nat, lost: nat, more: nat)
    requires Frames(n) && Bounded(n, k, lost) && n.ab != [] && b.inTransfers == n.b.inTransfers
    requires forall i :: 0 <= i < |out| ==> !out[i].XferAck?
    requires more == if Belongs(n.ab[0], true, k) then |n.ab[0].data| else 0
    ensures var m := n.(b := b, ab := n.ab[1..], ba := n.ba + out); Frames(m) && Bounded(m, k, lost + more)
  {
    hide Flying;
    FlyingHead(n.ab, k);
  }

  lemma OtherDeedBounds(env: Env, n: Net, d: Deed, k: nat, lost: nat)
    requires Frames(n) && Bounded(n, k, lost) && Able(env, Flip(n), d)
    ensures var more := if d.Refuse? && Belongs(n.ab[0], true, k) then |n.ab[0].data| else 0;
            var m := Flip(Effect(env, Flip(n), d)); Frames(m) && Bounded(m, k, lost + more)
  {
    hide Frames, Bounded, HandleSegment, Registered, OutSegment, OutRest;
    assert n.ba + [] == n.ba;
    match d
    case Do(e) =>
      match e {
        case Deliver =>
          var m := n.ab[0];
          if m.XferSegment? {
            if Belongs(m, true, k) {
              AcceptBounds(env, n, k, lost);
            } else {
              AcceptOtherBounds(env, n, k, lost);
            }
          } else {
            var q := Handle(env, n.b, m).0;
            NotReceiving(env, n.b, m);
            TakenBounds(n, q, [], k, lost, 0);
          }
        case CutNext(j) => NoAcksBounds(n, Cut(n.b, j).0, Cut(n.b, j).1, k, lost);
        case Start(data) => NoAcksBounds(n, StartSend(n.b, data), [], k, lost);
        case TakeLength(j) => NoAcksBounds(n, Settle(n.b, j, WithLength(n.b.sends[j])), [], k, lost);
        case TakeFeedback(j) => NoAcksBounds(n, Settle(n.b, j, WithFeedback(n.b.sends[j])), [], k, lost);
      }
    case Refuse(reason) =>
      TakenBounds(n, n.b, [XferRefuse(reason, n.ab[0].transferId)], k, lost,
                  if Belongs(n.ab[0], true, k) then |n.ab[0].data| else 0);
    case TurnAfterFailure(j) => NoAcksBounds(n, Cut(n.b, j).0, Cut(n.b, j).1, k, lost);
  }

  lemma NotReceiving(env: Env, p: Peer, m: Message)
    requires Registered(p) && !m.XferSegment?
    ensures Handle(env, p, m).0.inTransfers == p.inTransfers && Handle(env, p, m).1 == []
  {
  }

  lemma {:induction false} RunBounds(env: Env, mtuA: u64, mtuB: u64, ds: seq<Doing>, k: nat)
    requires Usable(mtuA) && Usable(mtuB) && Perform(env, NewNet(mtuA, mtuB), ds).Ok?
    ensures var n := Perform(env, NewNet(mtuA, mtuB), ds).value;
            Frames(n) && Bounded(n, k, Lost(env, NewNet(mtuA, mtuB), ds, k))
  {
    if ds == [] {
      NewBounds(mtuA, mtuB, k);
    } else {
      hide Frames, Bounded, Able, Effect, NewNet;
      var front, last := ds[..|ds| - 1], ds[|ds| - 1];
      LastDoing(env, NewNet(mtuA, mtuB), ds);
      RunBounds(env, mtuA, mtuB, front, k);
      var m := Perform(env, NewNet(mtuA, mtuB), front).value;
      var lost := Lost(env, NewNet(mtuA, mtuB), front, k);
      if last.atB {
        OtherDeedBounds(env, m, last.deed, k, lost);
      } else {
        OwnDeedBounds(env, m, last.deed, k, lost);
      }
    }
  }

  lemma NewBounds(mtuA: u64, mtuB: u64, k: nat)
    requires Usable(mtuA) && Usable(mtuB)
    ensures Frames(NewNet(mtuA, mtuB)) && Bounded(NewNet(mtuA, mtuB), k, 0)
  {
  }

  /** In every run of two managers that may refuse segments: a call of Send any octet of which was
      refused never succeeds, whether it has taken the refusal yet or not. */
  lemma RefusedNeverSucceeds(env: Env, mtuA: u64, mtuB: u64, ds: seq<Doing>, k: nat)
    requires Usable(mtuA) && Usable(mtuB) && Perform(env, NewNet(mtuA, mtuB), ds).Ok?
    requires k < |Perform(env, NewNet(mtuA, mtuB), ds).value.a.sends|
    requires Lost(env, NewNet(mtuA, mtuB), ds, k) > 0
    ensures Perform(env, NewNet(mtuA, mtuB), ds).value.a.sends[k].verdict != Success
  {
    hide Perform, Lost, Flying;
    RunBounds(env, mtuA, mtuB, ds, k);
  }
}
