/** Two honest managers over reliable, ordered channels: in every run no octet of any transfer is
    lost, added or reordered, and Send succeeds only when the peer has the whole bundle. */
module TransferRuns {
  import opened Bytes
  import opened Messages
  import opened Blocks
  import opened BundleCodec
  import opened Transfer

  /* ---- the network ---- */

  /** Two managers and what is on the wire from a to b and from b to a. */
  datatype Net = Net(a: Peer, b: Peer, ab: seq<Message>, ba: seq<Message>)

  function Flip(n: Net): Net { Net(n.b, n.a, n.ba, n.ab) }

  /** What can happen at peer a; at peer b the same happens in the flipped network. */
  datatype Event =
    | Start(data: seq<byte>)
    | CutNext(k: nat)
    | Deliver
    | TakeLength(k: nat)
    | TakeFeedback(k: nat)

  datatype Step = Step(atB: bool, event: Event)

  /** Bundles are sent that parse, fewer than 2^64 of them, and nobody runs into a timeout. */
  predicate Can(env: Env, n: Net, e: Event) {
    !n.a.crashed
    && match e
       case Start(data) => |n.a.sends| < TWO64 && |data| <= MAX_LEN && ReadBundle(env, data).Done?
       case CutNext(k) => k < |n.a.sends| && n.a.sends[k].stage == Cutting && n.a.sends[k].verdict != Failure
       case Deliver => n.ba != [] && !n.a.failed && Registered(n.a)
       case TakeLength(k) => k < |n.a.sends| && n.a.sends[k].verdict == Pending && n.a.sends[k].stage == LengthReady
       case TakeFeedback(k) => k < |n.a.sends| && n.a.sends[k].verdict == Pending && n.a.sends[k].feedback != []
  }

  function Move(env: Env, n: Net, e: Event): Net
    requires Can(env, n, e)
  {
    match e
    case Start(data) => n.(a := StartSend(n.a, data))
    case CutNext(k) => n.(a := Cut(n.a, k).0, ab := n.ab + Cut(n.a, k).1)
    case Deliver =>
      var r := Handle(env, n.a, n.ba[0]);
      n.(a := r.0, ba := n.ba[1..], ab := n.ab + r.1)
    case TakeLength(k) => n.(a := Settle(n.a, k, WithLength(n.a.sends[k])))
    case TakeFeedback(k) => n.(a := Settle(n.a, k, WithFeedback(n.a.sends[k])))
  }

  /** The network after a run, or an error when a step was not possible. */
  function Run(env: Env, n: Net, steps: seq<Step>): Result<Net> {
    if steps == [] then Ok(n)
    else
      match Run(env, n, steps[..|steps| - 1])
      case Err => Err
      case Ok(m) =>
        var s := steps[|steps| - 1];
        if s.atB
        then if Can(env, Flip(m), s.event) then Ok(Flip(Move(env, Flip(m), s.event))) else Err
        else if Can(env, m, s.event) then Ok(Move(env, m, s.event)) else Err
  }

  /** The segment sizes for which a segment can be allocated and is not empty. */
  predicate Usable(mtu: u64) { 1 <= mtu <= MAX_LEN }

  function NewNet(mtuA: u64, mtuB: u64): Net { Net(NewPeer(mtuA), NewPeer(mtuB), [], []) }

  /* ---- one transfer in the network ---- */

  predicate Belongs(m: Message, segments: bool, id: nat) {
    if segments then m.XferSegment? && m.transferId == id else m.XferAck? && m.ackId == id
  }

  /** The segments, or the acknowledgements, of one transfer on a wire. */
  function Pick(wire: seq<Message>, segments: bool, id: nat): (r: seq<Message>)
    ensures forall i :: 0 <= i < |r| ==> Belongs(r[i], segments, id)
  {
    if wire == [] then []
    else (if Belongs(wire[0], segments, id) then [wire[0]] else []) + Pick(wire[1..], segments, id)
  }

  lemma {:induction false} PickAppend(wire: seq<Message>, out: seq<Message>, segments: bool, id: nat)
    ensures Pick(wire + out, segments, id) == Pick(wire, segments, id) + Pick(out, segments, id)
  {
    hide Belongs;
    if wire == [] {
      assert wire + out == out;
    } else {
      assert (wire + out)[1..] == wire[1..] + out;
      PickAppend(wire[1..], out, segments, id);
    }
  }

  lemma PickOne(wire: seq<Message>, m: Message, segments: bool, id: nat)
    ensures Pick(wire + [m], segments, id)
         == if Belongs(m, segments, id) then Pick(wire, segments, id) + [m] else Pick(wire, segments, id)
  {
    PickAppend(wire, [m], segments, id);
    assert [m][1..] == [];
    assert Pick([m], segments, id) == if Belongs(m, segments, id) then [m] else [];
  }

  function Received(p: Peer, id: u64): seq<byte> {
    if id in p.finished then p.finished[id]
    else if id in p.inTransfers then p.inTransfers[id].buf
    else []
  }

  /** One transfer as the whole network knows it: the sender's call, its segments and its
      acknowledgements on the wire, the octets received, whether END was received, and whether the
      sender still listens for feedback. */
  datatype View =
    View(s: Sending, flight: seq<Message>, acks: seq<Message>, received: seq<byte>, ended: bool, listening: bool)

  /** The k-th transfer from a to b. */
  function ViewOf(n: Net, k: nat): View
    requires k < |n.a.sends| <= TWO64
  {
    View(n.a.sends[k], Pick(n.ab, true, k), Pick(n.ba, false, k), Received(n.b, k),
         k in n.b.finished, k in n.a.outFeedback)
  }

  function DataOf(flight: seq<Message>): seq<byte>
    requires forall i :: 0 <= i < |flight| ==> flight[i].XferSegment?
  {
    if flight == [] then [] else flight[0].data + DataOf(flight[1..])
  }

  predicate AreSegments(flight: seq<Message>) {
    forall i :: 0 <= i < |flight| ==> flight[i].XferSegment?
  }

  /** Received, in flight and unsent octets make up the bundle. */
  predicate Conserved(v: View) {
    && AreSegments(v.flight)
    && v.received + (DataOf(v.flight) + v.s.transfer.stream) == v.s.data
    && v.s.l + |v.s.transfer.stream| == |v.s.data| <= MAX_LEN
  }

  /** END has left the sender. */
  predicate EndSent(v: View)
    requires AreSegments(v.flight)
  {
    v.ended || (v.flight != [] && HasEnd(v.flight[|v.flight| - 1].flags))
  }

  /** Segments are not empty, END is on the last one, and it is there if and only if the bundle
      does not fill its last segment. */
  predicate EndRule(v: View, mtu: u64)
    requires Usable(mtu)
  {
    && AreSegments(v.flight)
    && (forall i :: 0 <= i < |v.flight| ==> v.flight[i].data != [])
    && (forall i :: 0 <= i < |v.flight| - 1 ==> !HasEnd(v.flight[i].flags))
    && (v.ended ==> v.flight == [])
    && (v.s.transfer.stream != [] ==> !EndSent(v) && v.s.l % mtu == 0)
    && (v.s.transfer.stream == [] ==> (EndSent(v) <==> |v.s.data| % mtu != 0))
  }

  predicate AreAcks(ms: seq<Message>) {
    forall i :: 0 <= i < |ms| ==> ms[i].XferAck?
  }

  /** From the length Send knows, the acknowledgements under way rise strictly to what the peer has. */
  predicate Rising(from: int, acks: seq<Message>, to: int)
    requires AreAcks(acks)
    decreases |acks|
  {
    if acks == [] then from == to else from < acks[0].ackLen && Rising(acks[0].ackLen, acks[1..], to)
  }

  predicate AckRule(v: View) {
    0 <= v.s.inLen && AreAcks(v.s.feedback) && AreAcks(v.acks) && Rising(v.s.inLen, v.s.feedback + v.acks, |v.received|)
  }

  /** Send waits exactly as long as the lengths it compares can still differ. */
  predicate SendRule(v: View) {
    && (v.s.stage == Cutting || v.s.stage == LengthReady || v.s.stage == LengthTaken)
    && (v.s.stage != Cutting ==> v.s.transfer.stream == [])
    && v.s.outLen == (if v.s.stage == LengthTaken then |v.s.data| else 0)
    && v.s.verdict != Failure
    && (v.listening <==> v.s.verdict == Pending)
    && (v.s.verdict == Success ==> v.s.stage == LengthTaken)
    && (v.s.stage == LengthTaken ==> (v.s.verdict == Success <==> v.s.inLen == |v.s.data|))
  }

  predicate Good(v: View, mtu: u64)
    requires Usable(mtu)
  {
    Conserved(v) && EndRule(v, mtu) && AckRule(v) && SendRule(v)
  }

  /* ---- what each step does to one transfer ---- */

  lemma {:induction false} DataOfLast(flight: seq<Message>, m: Message)
    requires AreSegments(flight) && m.XferSegment?
    ensures DataOf(flight + [m]) == DataOf(flight) + m.data
  {
    if flight == [] {
      assert [m][1..] == [];
    } else {
      assert (flight + [m])[1..] == flight[1..] + [m];
      DataOfLast(flight[1..], m);
    }
  }

  lemma {:induction false} RisingLast(from: int, acks: seq<Message>, to: int, m: Message)
    requires AreAcks(acks) && Rising(from, acks, to) && m.XferAck? && to < m.ackLen
    ensures Rising(from, acks + [m], m.ackLen)
    decreases |acks|
  {
    if acks == [] {
      assert [m][1..] == [];
    } else {
      assert (acks + [m])[1..] == acks[1..] + [m];
      RisingLast(acks[0].ackLen, acks[1..], to, m);
    }
  }

  lemma {:induction false} RisingBound(from: int, acks: seq<Message>, to: int)
    requires AreAcks(acks) && Rising(from, acks, to)
    ensures from <= to && (acks != [] ==> from < acks[0].ackLen <= to)
    decreases |acks|
  {
    if acks != [] {
      RisingBound(acks[0].ackLen, acks[1..], to);
    }
  }

  lemma ReceivedLength(v: View)
    requires Conserved(v)
    ensures |v.received| + |DataOf(v.flight)| + |v.s.transfer.stream| == |v.s.data|
  {
    assert |v.received + (DataOf(v.flight) + v.s.transfer.stream)| == |v.s.data|;
  }

  lemma NewView(v: View, mtu: u64, data: seq<byte>, id: u64)
    requires Usable(mtu) && |data| <= MAX_LEN
    requires v == View(Sending(data, Outgoing(id, true, data), 0, Cutting, [], 0, 0, Pending), [], [], [], false, true)
    ensures Good(v, mtu)
  {
    assert [] + ([] + data) == data;
  }

  lemma CutConserves(v: View, mtu: u64, w: View)
    requires Usable(mtu) && Conserved(v) && v.s.transfer.stream != []
    requires var n := Taken(v.s.transfer.stream, mtu);
      && w.s.data == v.s.data && w.received == v.received && w.s.l == v.s.l + n
      && w.s.transfer.stream == v.s.transfer.stream[n..]
      && |w.flight| == |v.flight| + 1 && w.flight[..|v.flight|] == v.flight
      && var m := w.flight[|v.flight|]; m.XferSegment? && m.data == v.s.transfer.stream[..n]
    ensures Conserved(w)
  {
    var n := Taken(v.s.transfer.stream, mtu);
    var m := w.flight[|v.flight|];
    assert w.flight == v.flight + [m];
    DataOfLast(v.flight, m);
    Assoc(DataOf(v.flight), m.data, w.s.transfer.stream);
    assert m.data + w.s.transfer.stream == v.s.transfer.stream;
  }

  lemma SameResidue(l: nat, mtu: nat, r: nat)
    requires mtu >= 1 && l % mtu == 0 && r < mtu
    ensures (l + r) % mtu == r && (l + mtu) % mtu == 0
  {
    var q := l / mtu;
    assert l == mtu * q;
    ModUnique(l + r, mtu, q, r);
    assert l + mtu == mtu * (q + 1);
    ModUnique(l + mtu, mtu, q + 1, 0);
  }

  lemma CutEnds(v: View, mtu: u64, w: View)
    requires Usable(mtu) && Conserved(v) && EndRule(v, mtu) && v.s.transfer.stream != []
    requires var n := Taken(v.s.transfer.stream, mtu);
      && w.s.data == v.s.data && w.ended == v.ended && w.s.l == v.s.l + n
      && w.s.transfer.stream == v.s.transfer.stream[n..]
      && |w.flight| == |v.flight| + 1 && w.flight[..|v.flight|] == v.flight
      && var m := w.flight[|v.flight|];
      && m.XferSegment? && m.data == v.s.transfer.stream[..n] && (HasEnd(m.flags) <==> n < mtu)
    ensures EndRule(w, mtu)
  {
    hide DataOf;
    var n := Taken(v.s.transfer.stream, mtu);
    assert forall i :: 0 <= i < |v.flight| ==> w.flight[i] == w.flight[..|v.flight|][i];
    SameResidue(v.s.l, mtu, if n < mtu then n else 0);
  }

  lemma NextFlags(t: Outgoing, mtu: u64)
    requires Usable(mtu) && t.stream != []
    ensures OutSegment(t, mtu).Value?
    ensures var m := OutSegment(t, mtu).value; var n := Taken(t.stream, mtu);
            m.XferSegment? && m.transferId == t.id && m.data == t.stream[..n] && (HasEnd(m.flags) <==> n < mtu)
  {
  }

  /** The view after the goroutine has cut a segment. */
  lemma CutView(v: View, mtu: u64, w: View)
    requires Usable(mtu) && Good(v, mtu) && v.s.stage == Cutting && v.s.transfer.stream != []
    requires OutSegment(v.s.transfer, mtu).Value?
    requires var m := OutSegment(v.s.transfer, mtu).value;
             w == v.(s := v.s.(transfer := OutRest(v.s.transfer, mtu), l := v.s.l + |m.data|), flight := v.flight + [m])
    ensures Good(w, mtu)
  {
    NextFlags(v.s.transfer, mtu);
    hide Rising, DataOf, EndRule, Conserved, OutSegment;
    assert (v.flight + [OutSegment(v.s.transfer, mtu).value])[..|v.flight|] == v.flight;
    CutConserves(v, mtu, w);
    CutEnds(v, mtu, w);
  }

  /** The view after the goroutine has met the end of the stream. */
  lemma EofView(v: View, mtu: u64, w: View)
    requires Usable(mtu) && Good(v, mtu) && v.s.stage == Cutting && v.s.transfer.stream == []
    requires w == v.(s := v.s.(transfer := OutRest(v.s.transfer, mtu), stage := LengthReady))
    ensures Good(w, mtu)
  {
    assert v.s.transfer.stream[0..] == [];
  }

  lemma AcceptConserves(v: View, w: View)
    requires Conserved(v) && v.flight != []
    requires w.s == v.s && w.flight == v.flight[1..] && w.received == v.received + v.flight[0].data
    ensures Conserved(w) && |w.received| <= |v.s.data|
  {
    var m := v.flight[0];
    var tail := DataOf(v.flight[1..]);
    Assoc(m.data, tail, v.s.transfer.stream);
    Assoc(v.received, m.data, tail + v.s.transfer.stream);
    ReceivedLength(w);
  }

  lemma AcceptEnds(v: View, mtu: u64, w: View)
    requires Usable(mtu) && EndRule(v, mtu) && v.flight != []
    requires w.s == v.s && w.flight == v.flight[1..] && w.ended == HasEnd(v.flight[0].flags)
    ensures EndRule(w, mtu) && !v.ended && (w.ended ==> w.flight == [] && w.s.transfer.stream == [])
  {
    assert forall i :: 0 <= i < |w.flight| ==> w.flight[i] == v.flight[i + 1];
  }

  lemma AcceptAcks(v: View, w: View, ack: Message)
    requires AckRule(v) && w.s == v.s && w.acks == v.acks + [ack]
    requires ack.XferAck? && ack.ackLen == |w.received| > |v.received|
    ensures AckRule(w)
  {
    RisingLast(v.s.inLen, v.s.feedback + v.acks, |v.received|, ack);
    assert v.s.feedback + (v.acks + [ack]) == v.s.feedback + v.acks + [ack];
  }

  /** The view after the peer has taken the first segment in flight. */
  lemma AcceptView(v: View, mtu: u64, w: View)
    requires Usable(mtu) && Good(v, mtu) && v.flight != []
    requires var m := v.flight[0];
      var buf := v.received + m.data;
      w == v.(flight := v.flight[1..], received := buf, ended := HasEnd(m.flags),
              acks := v.acks + [XferAck(m.flags, m.transferId, |buf| % TWO64)])
    ensures Good(w, mtu) && !v.ended && |w.received| < TWO64
    ensures HasEnd(v.flight[0].flags) ==> w.received == v.s.data
  {
    AcceptConserves(v, w);
    AcceptEnds(v, mtu, w);
    hide Rising, EndSent, HasEnd;
    AcceptAcks(v, w, XferAck(v.flight[0].flags, v.flight[0].transferId, |w.received|));
    if w.ended {
      assert w.received + ([] + []) == w.received;
    }
  }

  /** The view after an acknowledgement has reached the sender's feedback channel. */
  lemma ArriveView(v: View, mtu: u64, w: View)
    requires Usable(mtu) && Good(v, mtu) && v.acks != []
    requires w == v.(s := v.s.(feedback := v.s.feedback + [v.acks[0]]), acks := v.acks[1..])
    ensures Good(w, mtu) && v.listening
  {
    assert v.s.feedback + [v.acks[0]] + v.acks[1..] == v.s.feedback + v.acks;
    RisingBound(v.s.inLen, v.s.feedback + v.acks, |v.received|);
    ReceivedLength(v);
  }

  /** The view after Send has received the total length. */
  lemma LengthView(v: View, mtu: u64, w: View)
    requires Usable(mtu) && Good(v, mtu) && v.s.stage == LengthReady && v.s.verdict == Pending
    requires w == v.(s := WithLength(v.s), listening := WithLength(v.s).verdict == Pending)
    ensures Good(w, mtu)
  {
  }

  /** The view after Send has received one acknowledgement. */
  lemma FeedbackView(v: View, mtu: u64, w: View)
    requires Usable(mtu) && Good(v, mtu) && v.s.verdict == Pending && v.s.feedback != []
    requires w == v.(s := WithFeedback(v.s), listening := WithFeedback(v.s).verdict == Pending)
    ensures Good(w, mtu)
  {
    assert (v.s.feedback + v.acks)[1..] == v.s.feedback[1..] + v.acks;
    RisingBound(v.s.inLen, v.s.feedback + v.acks, |v.received|);
    ReceivedLength(v);
  }

  /* ---- all transfers from a to b ---- */

  /** Every transfer named on the wire is one of the first n. */
  predicate Known(wire: seq<Message>, segments: bool, n: nat) {
    forall i :: 0 <= i < |wire| ==>
      if segments then wire[i].XferSegment? ==> wire[i].transferId < n
      else wire[i].XferAck? ==> wire[i].ackId < n
  }

  predicate Regular(wire: seq<Message>) {
    forall i :: 0 <= i < |wire| ==> wire[i].XferSegment? || wire[i].XferAck?
  }

  /** Transfer IDs count up from 0, so they are positions in the list of sends. */
  predicate Sender(env: Env, p: Peer) {
    && Usable(p.mtu) && |p.sends| <= TWO64 && p.outNextId == |p.sends| % TWO64
    && !p.stopped && !p.crashed
    && (forall id :: id in p.outFeedback ==> id < |p.sends| && p.outFeedback[id] == id)
    && forall k :: 0 <= k < |p.sends| ==> p.sends[k].transfer.id == k && ReadBundle(env, p.sends[k].data).Done?
  }

  predicate Receiver(p: Peer, n: nat) {
    && !p.failed
    && (forall id :: id in p.inTransfers ==>
          id < n && p.inTransfers[id].id == id && !p.inTransfers[id].endFlag && id !in p.finished)
    && forall id :: id in p.finished ==> id < n
  }

  predicate Frame(env: Env, n: Net) {
    && Sender(env, n.a) && Receiver(n.b, |n.a.sends|)
    && Known(n.ab, true, |n.a.sends|) && Known(n.ba, false, |n.a.sends|)
    && Regular(n.ab)
  }

  predicate AllGood(n: Net)
    requires |n.a.sends| <= TWO64 && Usable(n.a.mtu)
  {
    forall k :: 0 <= k < |n.a.sends| ==> Good(ViewOf(n, k), n.a.mtu)
  }

  predicate Half(env: Env, n: Net) {
    Frame(env, n) && AllGood(n)
  }

  /** Both directions. */
  predicate Inv(env: Env, n: Net) {
    Half(env, n) && Half(env, Flip(n))
  }

  lemma {:induction false} PickUnknown(wire: seq<Message>, segments: bool, id: nat, n: nat)
    requires Known(wire, segments, n) && n <= id
    ensures Pick(wire, segments, id) == []
  {
    if wire != [] {
      PickUnknown(wire[1..], segments, id, n);
    }
  }

  lemma PickHead(wire: seq<Message>, segments: bool, id: nat)
    requires wire != []
    ensures Pick(wire, segments, id)
         == if Belongs(wire[0], segments, id) then [wire[0]] + Pick(wire[1..], segments, id)
            else Pick(wire[1..], segments, id)
  {
  }

  /** A step that leaves every transfer's view alone keeps them all good. */
  lemma SameViews(n: Net, m: Net)
    requires |n.a.sends| <= TWO64 && Usable(n.a.mtu) && AllGood(n)
    requires m.a.sends == n.a.sends && m.a.mtu == n.a.mtu
    requires forall k :: 0 <= k < |n.a.sends| ==> ViewOf(m, k) == ViewOf(n, k)
    ensures AllGood(m)
  {
    hide Good, ViewOf;
  }

  /** A step that changes one view to a good one and leaves the others alone. */
  lemma OneView(n: Net, m: Net, k: nat)
    requires |n.a.sends| == |m.a.sends| <= TWO64 && m.a.mtu == n.a.mtu && Usable(n.a.mtu) && AllGood(n)
    requires k < |n.a.sends| && Good(ViewOf(m, k), m.a.mtu)
    requires forall j :: 0 <= j < |n.a.sends| && j != k ==> ViewOf(m, j) == ViewOf(n, j)
    ensures AllGood(m)
  {
    hide Good, ViewOf;
  }

  lemma HalfParts(env: Env, n: Net)
    ensures Half(env, n) <==> Frame(env, n) && AllGood(n)
  {
  }

  lemma ViewIsGood(env: Env, n: Net, k: nat)
    requires Half(env, n) && k < |n.a.sends|
    ensures |n.a.sends| <= TWO64 && Usable(n.a.mtu) && n.a.sends[k].transfer.id == k
    ensures Good(ViewOf(n, k), n.a.mtu)
  {
    hide Good, ViewOf, ReadBundle, Known, Regular, Receiver;
  }

  lemma SenderRuns(env: Env, n: Net)
    requires Half(env, n)
    ensures !n.a.crashed && !n.a.stopped
  {
  }

  lemma PendingListens(env: Env, n: Net, k: nat)
    requires Half(env, n) && k < |n.a.sends|
    ensures k in n.a.outFeedback <==> n.a.sends[k].verdict == Pending
  {
    ViewIsGood(env, n, k);
    hide Half, Conserved, EndRule, AckRule, Pick, Received;
  }

  /* ---- Send is called ---- */

  lemma StartKeeps(env: Env, n: Net, data: seq<byte>)
    requires Half(env, n) && Can(env, n, Start(data))
    ensures Half(env, Move(env, n, Start(data)))
  {
    hide Good, ReadBundle, Pick;
    var m := Move(env, n, Start(data));
    var id := |n.a.sends|;
    SmallMod(id, TWO64);
    PickUnknown(n.ab, true, id, id);
    PickUnknown(n.ba, false, id, id);
    NewView(ViewOf(m, id), n.a.mtu, data, id);
    forall k | 0 <= k < id ensures ViewOf(m, k) == ViewOf(n, k) && Good(ViewOf(m, k), m.a.mtu) {
    }
  }

  lemma StartKeepsOther(env: Env, n: Net, data: seq<byte>)
    requires Half(env, Flip(n)) && Can(env, n, Start(data))
    ensures Half(env, Flip(Move(env, n, Start(data))))
  {
    hide Good, ReadBundle, Pick;
    SameViews(Flip(n), Flip(Move(env, n, Start(data))));
  }

  /* ---- a segment is cut ---- */

  lemma KnownAppend(wire: seq<Message>, out: seq<Message>, segments: bool, n: nat)
    requires Known(wire, segments, n) && Known(out, segments, n) && Regular(wire) && Regular(out)
    ensures Known(wire + out, segments, n) && Regular(wire + out)
  {
  }

  lemma CutShape(env: Env, n: Net, k: nat)
    requires Half(env, n) && Can(env, n, CutNext(k))
    ensures var (p, out) := Cut(n.a, k);
      && p == n.a.(sends := p.sends) && |p.sends| == |n.a.sends|
      && (forall j :: 0 <= j < |n.a.sends| && j != k ==> p.sends[j] == n.a.sends[j])
      && p.sends[k].transfer.id == k && p.sends[k].data == n.a.sends[k].data
      && (out == [] || (|out| == 1 && out[0].XferSegment? && out[0].transferId == k))
  {
    hide Good, ReadBundle, Pick;
  }

  lemma CutKeeps(env: Env, n: Net, k: nat)
    requires Half(env, n) && Can(env, n, CutNext(k))
    ensures Half(env, Move(env, n, CutNext(k)))
  {
    hide Good, ReadBundle, Pick, Cut, Received, Receiver, Known, Regular;
    var m := Move(env, n, CutNext(k));
    var out := Cut(n.a, k).1;
    CutShape(env, n, k);
    CutViewOf(env, n, k);
    OutIsKnown(out, k, |n.a.sends|);
    KnownAppend(n.ab, out, true, |n.a.sends|);
    forall j | 0 <= j < |n.a.sends| && j != k ensures ViewOf(m, j) == ViewOf(n, j) {
      AppendElsewhere(n.ab, out, true, j);
    }
    OneView(n, m, k);
  }

  lemma OutIsKnown(out: seq<Message>, k: nat, n: nat)
    requires out == [] || (|out| == 1 && out[0].XferSegment? && out[0].transferId == k < n)
    ensures Known(out, true, n) && Regular(out)
  {
  }

  lemma AppendElsewhere(wire: seq<Message>, out: seq<Message>, segments: bool, id: nat)
    requires out == [] || (|out| == 1 && !Belongs(out[0], segments, id))
    ensures Pick(wire + out, segments, id) == Pick(wire, segments, id)
  {
    if out == [] {
      assert wire + out == wire;
    } else {
      assert out == [out[0]];
      PickOne(wire, out[0], segments, id);
    }
  }

  lemma CutViewOf(env: Env, n: Net, k: nat)
    requires Half(env, n) && Can(env, n, CutNext(k))
    ensures |Cut(n.a, k).0.sends| == |n.a.sends|
    ensures Good(ViewOf(Move(env, n, CutNext(k)), k), n.a.mtu)
  {
    hide Good, ReadBundle, Pick, Half, Received, OutSegment;
    ViewIsGood(env, n, k);
    SenderRuns(env, n);
    var v, w := ViewOf(n, k), ViewOf(Move(env, n, CutNext(k)), k);
    if v.s.transfer.stream == [] {
      assert OutSegment(v.s.transfer, n.a.mtu) == Error by { AtEnd(v.s.transfer, n.a.mtu); }
      assert n.ab + [] == n.ab;
      EofView(v, n.a.mtu, w);
    } else {
      NextFlags(v.s.transfer, n.a.mtu);
      PickOne(n.ab, OutSegment(v.s.transfer, n.a.mtu).value, true, k);
      CutView(v, n.a.mtu, w);
    }
  }

  lemma AtEnd(t: Outgoing, mtu: u64)
    requires Usable(mtu) && t.stream == []
    ensures OutSegment(t, mtu) == Error
  {
  }

  lemma CutKeepsOther(env: Env, n: Net, k: nat)
    requires Half(env, n) && Half(env, Flip(n)) && Can(env, n, CutNext(k))
    ensures Half(env, Flip(Move(env, n, CutNext(k))))
  {
    hide Good, ReadBundle, Pick, Cut;
    var m := Move(env, n, CutNext(k));
    var out := Cut(n.a, k).1;
    CutShape(env, n, k);
    forall j | 0 <= j < |n.b.sends| ensures ViewOf(Flip(m), j) == ViewOf(Flip(n), j) {
      AppendElsewhere(n.ab, out, false, j);
    }
    SameViews(Flip(n), Flip(m));
  }

  /* ---- Send receives ---- */

  lemma SettleKeeps(env: Env, n: Net, k: nat, s: Sending)
    requires Half(env, n) && k < |n.a.sends| && n.a.sends[k].verdict == Pending
    requires s.transfer == n.a.sends[k].transfer && s.data == n.a.sends[k].data
    requires Good(ViewOf(n, k).(s := s, listening := s.verdict == Pending), n.a.mtu)
    ensures Half(env, n.(a := Settle(n.a, k, s)))
  {
    hide Good, ReadBundle, Pick, Received, Known, Regular, Receiver;
    var m := n.(a := Settle(n.a, k, s));
    PendingListens(env, n, k);
    ViewIsGood(env, n, k);
    forall j | 0 <= j < |n.a.sends| && j != k ensures ViewOf(m, j) == ViewOf(n, j) {
    }
    assert ViewOf(m, k) == ViewOf(n, k).(s := s, listening := s.verdict == Pending);
    OneView(n, m, k);
  }

  lemma LengthKeeps(env: Env, n: Net, k: nat)
    requires Half(env, n) && Can(env, n, TakeLength(k))
    ensures Half(env, Move(env, n, TakeLength(k)))
  {
    hide Good, ReadBundle, Pick;
    var s := WithLength(n.a.sends[k]);
    LengthView(ViewOf(n, k), n.a.mtu, ViewOf(n, k).(s := s, listening := s.verdict == Pending));
    SettleKeeps(env, n, k, s);
  }

  lemma FeedbackKeeps(env: Env, n: Net, k: nat)
    requires Half(env, n) && Can(env, n, TakeFeedback(k))
    ensures Half(env, Move(env, n, TakeFeedback(k)))
  {
    hide Good, ReadBundle, Pick;
    var s := WithFeedback(n.a.sends[k]);
    FeedbackView(ViewOf(n, k), n.a.mtu, ViewOf(n, k).(s := s, listening := s.verdict == Pending));
    SettleKeeps(env, n, k, s);
  }

  lemma SettleKeepsOther(env: Env, n: Net, k: nat, s: Sending)
    requires Half(env, Flip(n)) && k < |n.a.sends|
    ensures Half(env, Flip(n.(a := Settle(n.a, k, s))))
  {
    hide Good, ReadBundle, Pick;
    SameViews(Flip(n), Flip(n.(a := Settle(n.a, k, s))));
  }

  /* ---- a message arrives ---- */

  /** The sender has a channel for the acknowledgement that arrives. */
  lemma AckFindsSend(env: Env, n: Net)
    requires Half(env, n) && n.ba != [] && n.ba[0].XferAck?
    ensures var k := n.ba[0].ackId;
      && k < |n.a.sends| && k in n.a.outFeedback && n.a.outFeedback[k] == k
      && ViewOf(n, k).acks != [] && ViewOf(n, k).acks[0] == n.ba[0]
      && Pick(n.ba[1..], false, k) == ViewOf(n, k).acks[1..]
      && Good(ViewOf(n, k).(s := n.a.sends[k].(feedback := n.a.sends[k].feedback + [n.ba[0]]),
                            acks := ViewOf(n, k).acks[1..]), n.a.mtu)
  {
    hide Good, ReadBundle, Pick, Received, Regular, Receiver;
    var k := n.ba[0].ackId;
    ViewIsGood(env, n, k);
    PickHead(n.ba, false, k);
    var v := ViewOf(n, k);
    ArriveView(v, n.a.mtu, v.(s := v.s.(feedback := v.s.feedback + [v.acks[0]]), acks := v.acks[1..]));
  }

  lemma AckKeeps(env: Env, n: Net)
    requires Half(env, n) && Can(env, n, Deliver) && n.ba[0].XferAck?
    ensures Half(env, Move(env, n, Deliver))
    ensures !Move(env, n, Deliver).a.failed
  {
    hide Good, ReadBundle, Pick, Received, Regular, Receiver;
    AckFindsSend(env, n);
    var k := n.ba[0].ackId;
    var m := Move(env, n, Deliver);
    assert n.ab + [] == n.ab;
    forall j | 0 <= j < |n.a.sends| && j != k ensures ViewOf(m, j) == ViewOf(n, j) {
      PickHead(n.ba, false, j);
    }
    OneView(n, m, k);
  }

  lemma FeedbackShape(p: Peer, id: u64, m: Message)
    requires Registered(p) && id in p.outFeedback
    ensures HandleFeedback(p, id, m) == p.(sends := HandleFeedback(p, id, m).sends)
  {
  }

  lemma AckShape(env: Env, n: Net)
    requires Half(env, n) && Can(env, n, Deliver) && n.ba[0].XferAck?
    ensures var m := Move(env, n, Deliver);
      m == Net(n.a.(sends := m.a.sends), n.b, n.ab, n.ba[1..])
  {
    hide Half, Pick, Good, ViewOf, HandleFeedback, HandleSegment, Registered;
    AckFindsSend(env, n);
    FeedbackShape(n.a, n.ba[0].ackId, n.ba[0]);
    assert n.ab + [] == n.ab;
  }

  lemma SendsDoNotReceive(p: Peer, sends: seq<Sending>, n: nat)
    ensures Receiver(p.(sends := sends), n) <==> Receiver(p, n)
    ensures forall id: u64 :: Received(p.(sends := sends), id) == Received(p, id)
  {
  }

  lemma KnownTail(wire: seq<Message>, segments: bool, n: nat)
    requires wire != [] && Known(wire, segments, n) && Regular(wire)
    ensures Known(wire[1..], segments, n) && Regular(wire[1..])
  {
  }

  lemma AckKeepsOther(env: Env, n: Net)
    requires Half(env, n) && Half(env, Flip(n)) && Can(env, n, Deliver) && n.ba[0].XferAck?
    ensures Half(env, Flip(Move(env, n, Deliver)))
  {
    AckShape(env, n);
    var m := Move(env, n, Deliver);
    hide Good, ReadBundle, Pick, Handle, Move, Sender, Received, Receiver, Known, Regular;
    SendsDoNotReceive(n.a, m.a.sends, |n.b.sends|);
    KnownTail(n.ba, true, |n.b.sends|);
    forall j | 0 <= j < |n.b.sends| ensures ViewOf(Flip(m), j) == ViewOf(Flip(n), j) {
      PickHead(n.ba, true, j);
    }
    SameViews(Flip(n), Flip(m));
  }

  /** The transfer a segment belongs to is still open, and the whole bundle parses. */
  lemma SegmentFindsTransfer(env: Env, n: Net)
    requires Half(env, Flip(n)) && n.ba != [] && n.ba[0].XferSegment?
    ensures var head := n.ba[0]; var k := head.transferId;
      && k < |n.b.sends| <= TWO64 && Usable(n.b.mtu) && k !in n.a.finished
      && TransferFor(n.a, k) == Incoming(k, false, Received(n.a, k))
      && (HasEnd(head.flags) ==> ReadBundle(env, Received(n.a, k) + head.data).Done?)
      && var v := ViewOf(Flip(n), k);
      && v.flight != [] && v.flight[0] == head && Pick(n.ba[1..], true, k) == v.flight[1..]
      && Good(v.(flight := v.flight[1..], received := v.received + head.data, ended := HasEnd(head.flags),
                 acks := v.acks + [XferAck(head.flags, k, |v.received + head.data| % TWO64)]), n.b.mtu)
  {
    hide Good, ReadBundle, Pick, HasEnd, Regular;
    var head := n.ba[0];
    var k := head.transferId;
    ViewIsGood(env, Flip(n), k);
    var v := ViewOf(Flip(n), k);
    PickHead(n.ba, true, k);
    AcceptView(v, n.b.mtu, v.(flight := v.flight[1..], received := v.received + head.data, ended := HasEnd(head.flags),
                              acks := v.acks + [XferAck(head.flags, k, |v.received + head.data| % TWO64)]));
    assert ReadBundle(env, n.b.sends[k].data).Done?;
  }

  /** A receiver that has all octets of a transfer up to buf. */
  function Took(p: Peer, id: u64, buf: seq<byte>, ended: bool): Peer {
    if ended then p.(inTransfers := p.inTransfers - {id}, finished := p.finished[id := buf])
    else p.(inTransfers := p.inTransfers[id := Incoming(id, false, buf)])
  }

  lemma HandleOpen(env: Env, p: Peer, m: Message, before: seq<byte>)
    requires m.XferSegment? && TransferFor(p, m.transferId) == Incoming(m.transferId, false, before)
    requires HasEnd(m.flags) ==> ReadBundle(env, before + m.data).Done?
    ensures var buf := before + m.data;
      HandleSegment(env, p, m)
      == (Took(p, m.transferId, buf, HasEnd(m.flags)), [XferAck(m.flags, m.transferId, |buf| % TWO64)])
  {
    hide ReadBundle, HasEnd, TransferFor;
  }

  lemma TookShape(p: Peer, n: nat, id: u64, buf: seq<byte>, ended: bool)
    requires Receiver(p, n) && id < n && id !in p.finished
    ensures var q := Took(p, id, buf, ended);
      && q == p.(inTransfers := q.inTransfers, finished := q.finished)
      && Receiver(q, n) && Received(q, id) == buf && (id in q.finished <==> ended)
      && forall j: u64 :: j != id ==> Received(q, j) == Received(p, j) && (j in q.finished <==> j in p.finished)
  {
  }

  /** What a segment of a known transfer does to the receiver. */
  lemma SegmentShape(env: Env, n: Net)
    requires Half(env, Flip(n)) && n.ba != [] && n.ba[0].XferSegment?
    ensures var head := n.ba[0]; var id := head.transferId;
      && id < |n.b.sends| <= TWO64
      && var (p, out) := HandleSegment(env, n.a, head);
      && var buf := Received(n.a, id) + head.data;
      && p == n.a.(inTransfers := p.inTransfers, finished := p.finished)
      && out == [XferAck(head.flags, id, |buf| % TWO64)]
      && Receiver(p, |n.b.sends|)
      && Received(p, id) == buf && (id in p.finished <==> HasEnd(head.flags))
      && forall j: u64 :: j != id ==> Received(p, j) == Received(n.a, j) && (j in p.finished <==> j in n.a.finished)
  {
    SegmentFindsTransfer(env, n);
    assert Receiver(n.a, |n.b.sends|) by { HalfParts(env, Flip(n)); hide Good, Pick, ReadBundle; }
    hide Half, ViewOf, ReadBundle, Pick, HasEnd, TransferFor, Good, Received, Receiver, Took, HandleSegment;
    var head := n.ba[0];
    var buf := Received(n.a, head.transferId) + head.data;
    HandleOpen(env, n.a, head, Received(n.a, head.transferId));
    TookShape(n.a, |n.b.sends|, head.transferId, buf, HasEnd(head.flags));
  }

  lemma SegmentKeepsOther(env: Env, n: Net)
    requires Half(env, Flip(n)) && Can(env, n, Deliver) && n.ba[0].XferSegment? && Regular(n.ab)
    ensures Half(env, Flip(Move(env, n, Deliver)))
  {
    hide Good, ReadBundle, Pick, HandleSegment, Received, Receiver, TransferFor, HasEnd;
    SegmentShape(env, n);
    SegmentFindsTransfer(env, n);
    var m := Move(env, n, Deliver);
    var head := n.ba[0];
    var k := head.transferId;
    var v := ViewOf(Flip(n), k);
    var ack := XferAck(head.flags, k, |v.received + head.data| % TWO64);
    PickOne(n.ab, ack, false, k);
    KnownAppend(n.ab, [ack], false, |n.b.sends|);
    forall j | 0 <= j < |n.b.sends| && j != k ensures ViewOf(Flip(m), j) == ViewOf(Flip(n), j) {
      PickHead(n.ba, true, j);
      AppendElsewhere(n.ab, [ack], false, j);
    }
    OneView(Flip(n), Flip(m), k);
  }

  lemma SegmentKeeps(env: Env, n: Net)
    requires Half(env, n) && Half(env, Flip(n)) && Can(env, n, Deliver) && n.ba[0].XferSegment?
    ensures Half(env, Move(env, n, Deliver))
  {
    hide Good, ReadBundle, Pick, HandleSegment, Received;
    SegmentShape(env, n);
    var m := Move(env, n, Deliver);
    var out := HandleSegment(env, n.a, n.ba[0]).1;
    KnownAppend(n.ab, out, true, |n.a.sends|);
    forall j | 0 <= j < |n.a.sends| ensures ViewOf(m, j) == ViewOf(n, j) {
      PickHead(n.ba, false, j);
      AppendElsewhere(n.ab, out, true, j);
    }
    SameViews(n, m);
  }

  /* ---- runs ---- */

  /** Every step at either peer keeps the invariant of both directions; in particular no manager
      ever fails, so no acknowledgement is for an unknown transfer. */
  lemma StepKeeps(env: Env, n: Net, e: Event)
    requires Inv(env, n) && Can(env, n, e)
    ensures Inv(env, Move(env, n, e))
  {
    hide Half, Move;
    match e
    case Start(data) =>
      StartKeeps(env, n, data);
      StartKeepsOther(env, n, data);
    case CutNext(k) =>
      CutKeeps(env, n, k);
      CutKeepsOther(env, n, k);
    case TakeLength(k) =>
      LengthKeeps(env, n, k);
      SettleKeepsOther(env, n, k, WithLength(n.a.sends[k]));
      MoveLength(env, n, k);
    case TakeFeedback(k) =>
      FeedbackKeeps(env, n, k);
      SettleKeepsOther(env, n, k, WithFeedback(n.a.sends[k]));
      MoveFeedback(env, n, k);
    case Deliver =>
      WiresAreRegular(env, n);
      if n.ba[0].XferAck? {
        AckKeeps(env, n);
        AckKeepsOther(env, n);
      } else {
        SegmentKeeps(env, n);
        SegmentKeepsOther(env, n);
      }
  }

  lemma MoveLength(env: Env, n: Net, k: nat)
    requires Can(env, n, TakeLength(k))
    ensures Move(env, n, TakeLength(k)) == n.(a := Settle(n.a, k, WithLength(n.a.sends[k])))
  {
  }

  lemma MoveFeedback(env: Env, n: Net, k: nat)
    requires Can(env, n, TakeFeedback(k))
    ensures Move(env, n, TakeFeedback(k)) == n.(a := Settle(n.a, k, WithFeedback(n.a.sends[k])))
  {
  }

  lemma WiresAreRegular(env: Env, n: Net)
    requires Inv(env, n)
    ensures Regular(n.ab) && Regular(n.ba)
  {
    hide Good, ReadBundle, Pick;
  }

  lemma NewNetInv(env: Env, mtuA: u64, mtuB: u64)
    requires Usable(mtuA) && Usable(mtuB)
    ensures Inv(env, NewNet(mtuA, mtuB))
  {
  }

  /** Reliable transfer, in every state of every run. */
  lemma {:induction false} RunKeeps(env: Env, mtuA: u64, mtuB: u64, steps: seq<Step>)
    requires Usable(mtuA) && Usable(mtuB) && Run(env, NewNet(mtuA, mtuB), steps).Ok?
    ensures Inv(env, Run(env, NewNet(mtuA, mtuB), steps).value)
  {
    hide Inv, Can, Move, Flip;
    if steps == [] {
      NewNetInv(env, mtuA, mtuB);
    } else {
      var front, s := steps[..|steps| - 1], steps[|steps| - 1];
      RunKeeps(env, mtuA, mtuB, front);
      var m := Run(env, NewNet(mtuA, mtuB), front).value;
      if s.atB {
        FlipKeeps(env, m);
        StepKeeps(env, Flip(m), s.event);
        FlipKeeps(env, Move(env, Flip(m), s.event));
      } else {
        StepKeeps(env, m, s.event);
      }
    }
  }

  lemma FlipKeeps(env: Env, n: Net)
    ensures Inv(env, Flip(n)) <==> Inv(env, n)
  {
    assert Flip(Flip(n)) == n;
  }

  /* ---- what the invariant says ---- */

  /** The network after a run as one of the two peers sees it: itself as a, the other one as b. */
  function Seen(env: Env, mtuA: u64, mtuB: u64, steps: seq<Step>, atB: bool): Net
    requires Run(env, NewNet(mtuA, mtuB), steps).Ok?
  {
    var n := Run(env, NewNet(mtuA, mtuB), steps).value;
    if atB then Flip(n) else n
  }

  lemma SeenIsHalf(env: Env, mtuA: u64, mtuB: u64, steps: seq<Step>, atB: bool)
    requires Usable(mtuA) && Usable(mtuB) && Run(env, NewNet(mtuA, mtuB), steps).Ok?
    ensures Half(env, Seen(env, mtuA, mtuB, steps, atB))
  {
    hide Run, Half;
    RunKeeps(env, mtuA, mtuB, steps);
  }

  /** Neither manager fails, in particular for an acknowledgement of an unknown transfer, and no
      program panics. */
  lemma NeverFails(env: Env, mtuA: u64, mtuB: u64, steps: seq<Step>)
    requires Usable(mtuA) && Usable(mtuB) && Run(env, NewNet(mtuA, mtuB), steps).Ok?
    ensures var n := Run(env, NewNet(mtuA, mtuB), steps).value;
            !n.a.failed && !n.b.failed && !n.a.crashed && !n.b.crashed
  {
    RunKeeps(env, mtuA, mtuB, steps);
    hide Good, ReadBundle, Pick, Run;
  }

  /** In every state of every run, what the peer has received of a transfer, what is in flight and
      what is not sent yet make up its bundle, and the acknowledgements that Send has not seen yet
      rise strictly from the last one it saw to what the peer has received. */
  lemma NothingLost(env: Env, mtuA: u64, mtuB: u64, steps: seq<Step>, atB: bool, k: nat)
    requires Usable(mtuA) && Usable(mtuB) && Run(env, NewNet(mtuA, mtuB), steps).Ok?
    requires k < |Seen(env, mtuA, mtuB, steps, atB).a.sends|
    ensures var n := Seen(env, mtuA, mtuB, steps, atB); var s := n.a.sends[k];
      && k < TWO64 && AreSegments(Pick(n.ab, true, k)) && AreAcks(s.feedback) && AreAcks(Pick(n.ba, false, k))
      && Received(n.b, k) + (DataOf(Pick(n.ab, true, k)) + s.transfer.stream) == s.data
      && Rising(s.inLen, s.feedback + Pick(n.ba, false, k), |Received(n.b, k)|)
  {
    hide Run, Seen, Half, Pick, Received, DataOf, Rising;
    SeenIsHalf(env, mtuA, mtuB, steps, atB);
    ViewIsGood(env, Seen(env, mtuA, mtuB, steps, atB), k);
  }

  /** A transfer's ID is its position among the calls of Send, so no two share one. */
  lemma DistinctIds(env: Env, mtuA: u64, mtuB: u64, steps: seq<Step>, atB: bool, j: nat, k: nat)
    requires Usable(mtuA) && Usable(mtuB) && Run(env, NewNet(mtuA, mtuB), steps).Ok?
    requires var n := Seen(env, mtuA, mtuB, steps, atB); j < k < |n.a.sends|
    ensures var n := Seen(env, mtuA, mtuB, steps, atB); n.a.sends[j].transfer.id != n.a.sends[k].transfer.id
  {
    hide Run, Seen, Half, Good;
    SeenIsHalf(env, mtuA, mtuB, steps, atB);
    ViewIsGood(env, Seen(env, mtuA, mtuB, steps, atB), j);
    ViewIsGood(env, Seen(env, mtuA, mtuB, steps, atB), k);
  }

  lemma GoodSuccess(v: View, mtu: u64)
    requires Usable(mtu) && Good(v, mtu) && v.s.verdict == Success
    ensures v.received == v.s.data && v.flight == [] && v.acks == []
    ensures v.ended <==> |v.s.data| % mtu != 0
  {
    RisingBound(v.s.inLen, v.s.feedback + v.acks, |v.received|);
    ReceivedLength(v);
    assert v.s.feedback + v.acks == [];
    assert |v.acks| == 0;
    NothingInFlight(v.flight);
    assert v.received + ([] + []) == v.received;
  }

  lemma NothingInFlight(flight: seq<Message>)
    requires AreSegments(flight) && |DataOf(flight)| == 0
    requires forall i :: 0 <= i < |flight| ==> flight[i].data != []
    ensures flight == []
  {
  }

  /** Reliable transfer: when a Send has succeeded, nothing of its transfer is left on the way and
      the peer has buffered exactly the bundle; the peer has ended the transfer if and only if the
      bundle's length is not a multiple of the segment size, for only a short segment carries END. */
  lemma SendSucceeds(env: Env, mtuA: u64, mtuB: u64, steps: seq<Step>, atB: bool, k: nat)
    requires Usable(mtuA) && Usable(mtuB) && Run(env, NewNet(mtuA, mtuB), steps).Ok?
    requires var n := Seen(env, mtuA, mtuB, steps, atB); k < |n.a.sends| && n.a.sends[k].verdict == Success
    ensures var n := Seen(env, mtuA, mtuB, steps, atB);
      && |n.a.sends| <= TWO64 && Usable(n.a.mtu)
      && Received(n.b, k) == n.a.sends[k].data
      && Pick(n.ab, true, k) == [] && Pick(n.ba, false, k) == []
      && (k in n.b.finished <==> |n.a.sends[k].data| % n.a.mtu != 0)
  {
    hide Run, Seen, Half, Good, Pick, Received;
    SeenIsHalf(env, mtuA, mtuB, steps, atB);
    var n := Seen(env, mtuA, mtuB, steps, atB);
    ViewIsGood(env, n, k);
    GoodSuccess(ViewOf(n, k), n.a.mtu);
  }

  /** The bundle a finished transfer hands out is the bundle that was sent. */
  lemma BundleArrives(env: Env, mtuA: u64, mtuB: u64, steps: seq<Step>, atB: bool, k: nat, b: Bundle)
    requires Usable(mtuA) && Usable(mtuB) && Run(env, NewNet(mtuA, mtuB), steps).Ok?
    requires Writable(b) && NormalBundle(env, b) && ValidBundle(env, b)
    requires var n := Seen(env, mtuA, mtuB, steps, atB);
             k < |n.a.sends| && n.a.sends[k].data == BundleBytes(env, b)
    ensures var n := Seen(env, mtuA, mtuB, steps, atB);
            k in n.b.finished ==> ReadBundle(env, n.b.finished[k]) == Done(b, [])
  {
    hide Run, Seen, Half, Good, Pick, BundleBytes, ReadBundle, Writable, NormalBundle, ValidBundle;
    SeenIsHalf(env, mtuA, mtuB, steps, atB);
    var n := Seen(env, mtuA, mtuB, steps, atB);
    ViewIsGood(env, n, k);
    if k in n.b.finished {
      EndedHasAll(ViewOf(n, k), n.a.mtu);
      assert BundleBytes(env, b) + [] == BundleBytes(env, b);
      BundleRoundTrip(env, b, []);
    }
  }

  lemma EndedHasAll(v: View, mtu: u64)
    requires Usable(mtu) && Good(v, mtu) && v.ended
    ensures v.received == v.s.data
  {
    assert v.received + ([] + []) == v.received;
  }

  /** When nothing is under way and a call of Send can neither cut nor take anything, it has succeeded:
      no call waits for something that does not come. */
  lemma QuietMeansDone(env: Env, mtuA: u64, mtuB: u64, steps: seq<Step>, atB: bool, k: nat)
    requires Usable(mtuA) && Usable(mtuB) && Run(env, NewNet(mtuA, mtuB), steps).Ok?
    requires var n := Seen(env, mtuA, mtuB, steps, atB);
      && k < |n.a.sends| && n.ab == [] && n.ba == []
      && !Can(env, n, CutNext(k)) && !Can(env, n, TakeLength(k)) && !Can(env, n, TakeFeedback(k))
    ensures Seen(env, mtuA, mtuB, steps, atB).a.sends[k].verdict == Success
  {
    hide Run, Seen, Half, Can;
    SeenIsHalf(env, mtuA, mtuB, steps, atB);
    QuietHalf(env, Seen(env, mtuA, mtuB, steps, atB), k);
  }

  lemma QuietHalf(env: Env, n: Net, k: nat)
    requires Half(env, n) && k < |n.a.sends| && n.ab == [] && n.ba == []
    requires !Can(env, n, CutNext(k)) && !Can(env, n, TakeLength(k)) && !Can(env, n, TakeFeedback(k))
    ensures n.a.sends[k].verdict == Success
  {
    hide Half, Good, Received;
    ViewIsGood(env, n, k);
    SenderRuns(env, n);
    QuietView(ViewOf(n, k), n.a.mtu);
  }

  lemma QuietView(v: View, mtu: u64)
    requires Usable(mtu) && Good(v, mtu) && v.flight == [] && v.acks == []
    requires v.s.verdict != Failure ==> v.s.stage != Cutting
    requires v.s.verdict == Pending ==> v.s.stage != LengthReady && v.s.feedback == []
    ensures v.s.verdict == Success
  {
    ReceivedLength(v);
  }
}
