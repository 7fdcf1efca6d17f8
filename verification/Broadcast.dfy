/** The bundle broadcasting connector: fragments with a two-octet header, outgoing and incoming
    transmissions, and the connector that files incoming ones under their transmission ID. */
module Broadcast {
  import opened Bytes

  /* ---- fragments ---- */

  datatype Fragment = Fragment(transmissionId: byte, identifier: byte, payload: seq<byte>)

  const HEADER_SIZE := 2

  function Bit(b: bool): nat { if b then 1 else 0 }

  /** NewFragment: five bits of sequence number, then start, end and fail. */
  function NewFragment(transmissionId: byte, sequenceNo: byte, start: bool, end: bool, fail: bool,
      payload: seq<byte>): Fragment
  {
    Fragment(transmissionId, 8 * (sequenceNo % 32) + 4 * Bit(start) + 2 * Bit(end) + Bit(fail), payload)
  }

  function SequenceNumber(f: Fragment): byte { f.identifier / 8 }

  predicate StartBit(f: Fragment) { f.identifier / 4 % 2 == 1 }

  predicate EndBit(f: Fragment) { f.identifier / 2 % 2 == 1 }

  predicate FailBit(f: Fragment) { f.identifier % 2 == 1 }

  function FragmentBytes(f: Fragment): (bs: seq<byte>)
    ensures |bs| == HEADER_SIZE + |f.payload|
  {
    [f.transmissionId, f.identifier] + f.payload
  }

  function ParseFragment(data: seq<byte>): Result<Fragment> {
    if |data| < HEADER_SIZE then Err else Ok(Fragment(data[0], data[1], data[2..]))
  }

  lemma FragmentRoundTrip(f: Fragment)
    ensures ParseFragment(FragmentBytes(f)) == Ok(f)
  {
    assert FragmentBytes(f)[2..] == f.payload;
  }

  /** The header's parts do not run into each other. */
  lemma HeaderBits(id: byte, no: byte, start: bool, end: bool, fail: bool, payload: seq<byte>)
    requires no < 32
    ensures var f := NewFragment(id, no, start, end, fail, payload);
      && SequenceNumber(f) == no && StartBit(f) == start && EndBit(f) == end && FailBit(f) == fail
  {
  }

  function NextSequenceNumber(no: byte): byte { (no + 1) % 256 % 16 }

  function ReportFailure(f: Fragment): Fragment {
    NewFragment(f.transmissionId, SequenceNumber(f), false, false, true, [])
  }

  /** The header in octets: the transmission ID, then five bits of number over three flags. */
  lemma HeaderOctets(id: byte, no: byte, start: bool, end: bool, fail: bool, payload: seq<byte>)
    requires no < 32
    ensures FragmentBytes(NewFragment(id, no, start, end, fail, payload))
         == [id, 8 * no + (if start then 4 else 0) + (if end then 2 else 0) + (if fail then 1 else 0)] + payload
  {
  }

  /** A failure report names the transmission, has the number of the fragment and the fail bit, and
      neither of the other bits nor a payload. */
  lemma FailureReported(f: Fragment)
    ensures var report := ReportFailure(f);
      && report.transmissionId == f.transmissionId && report.identifier == f.identifier - f.identifier % 8 + 1
      && report.payload == []
  {
  }

  /* ---- outgoing transmissions ---- */

  /** mtu is what a fragment's payload may have. */
  datatype Outgoing =
    Outgoing(transmissionId: byte, payload: seq<byte>, finished: bool, mtu: int, start: bool, nextSegmentNo: byte)

  function NewOutgoing(transmissionId: byte, payload: seq<byte>, mtu: int): Outgoing {
    Outgoing(transmissionId, payload, payload == [], mtu - HEADER_SIZE, true, 0)
  }

  /** WriteFragment: the fragment and the transmission after it; an MTU below the header size makes
      the program slice out of range. */
  function Written(t: Outgoing): Outcome<(Fragment, Outgoing)> {
    if t.finished then Error
    else if |t.payload| > t.mtu && t.mtu < 0 then Panic
    else
      var last := |t.payload| <= t.mtu;
      var n := if last then |t.payload| else t.mtu;
      var no := NextSequenceNumber(t.nextSegmentNo);
      Outcome.Value((NewFragment(t.transmissionId, no, t.start, last, false, t.payload[..n]),
                     Outgoing(t.transmissionId, t.payload[n..], last, t.mtu, false, no)))
  }

  class OutgoingTransmission {
    const transmissionId: byte
    const mtu: int
    var payload: seq<byte>
    var finished: bool
    var start: bool
    var nextSegmentNo: byte

    function Value(): Outgoing
      reads this
    {
      Outgoing(transmissionId, payload, finished, mtu, start, nextSegmentNo)
    }

    /** newPlainOutgoingTransmission. */
    constructor (transmissionId: byte, payload: seq<byte>, mtu: int)
      ensures Value() == NewOutgoing(transmissionId, payload, mtu)
      ensures finished <==> payload == []
    {
      this.transmissionId, this.payload, this.mtu := transmissionId, payload, mtu - HEADER_SIZE;
      finished := |payload| == 0;
      start, nextSegmentNo := true, 0;
    }

    /** WriteFragment. */
    method WriteFragment() returns (r: Outcome<Fragment>)
      modifies this
      ensures match Written(old(Value()))
        case Value((f, t)) => r == Outcome.Value(f) && Value() == t
        case Error => r == Error && Value() == old(Value())
        case Panic => r == Panic
    {
      if finished {
        return Error;
      }
      var nextPayload;
      if |payload| <= mtu {
        nextPayload := payload;
        payload := [];
        finished := true;
      } else if mtu < 0 {
        return Panic;
      } else {
        nextPayload := payload[..mtu];
        payload := payload[mtu..];
      }
      assert old(payload)[..|old(payload)|] == old(payload);
      nextSegmentNo := NextSequenceNumber(nextSegmentNo);
      r := Outcome.Value(NewFragment(transmissionId, nextSegmentNo, start, finished, false, nextPayload));
      start := false;
    }
  }

  /** All fragments of a transmission, as Send writes them. */
  function Fragments(t: Outgoing): seq<Fragment>
    requires t.mtu >= 1
    decreases |t.payload|, !t.finished
  {
    match Written(t)
    case Value((f, t')) => if t'.finished then [f] else [f] + Fragments(t')
    case _ => []
  }

  /** The loop of Send, when no failure is reported meanwhile: all fragments, or the error of an
      empty transmission, or a panic. With a modem MTU of exactly the header size it does not end. */
  method WriteFragments(t: OutgoingTransmission) returns (out: Outcome<seq<Fragment>>)
    requires t.mtu == 0 ==> t.finished
    modifies t
    ensures old(t.finished) ==> out == Error
    ensures !old(t.finished) && t.mtu >= 1 ==> out == Outcome.Value(Fragments(old(t.Value()))) && t.finished
    ensures !old(t.finished) && t.mtu < 0 ==> out == Panic
  {
    hide Written;
    var fs: seq<Fragment> := [];
    while true
      invariant t.finished == old(t.finished)
      invariant t.mtu >= 1 && !t.finished ==> fs + Fragments(t.Value()) == Fragments(old(t.Value()))
      decreases |t.payload|
    {
      ghost var before := t.Value();
      WrittenShrinks(before);
      if t.mtu >= 1 && !t.finished {
        FragmentsStep(before);
      }
      var f := t.WriteFragment();
      if !f.Value? {
        return if f.Error? then Error else Panic;
      }
      Append(fs, f.value, if t.finished then [] else Fragments(t.Value()));
      fs := fs + [f.value];
      if t.finished {
        assert fs + [] == fs;
        return Outcome.Value(fs);
      }
    }
  }

  lemma Append(fs: seq<Fragment>, f: Fragment, more: seq<Fragment>)
    ensures fs + ([f] + more) == fs + [f] + more
  {
  }

  /** Without room for payload a fragment takes nothing off it and is never the last. */
  lemma HeaderOnlyNeverEnds(t: Outgoing)
    requires t.mtu == 0 && t.payload != [] && !t.finished
    ensures Written(t).Value?
    ensures var t' := Written(t).value.1; t'.payload == t.payload && !t'.finished && t'.mtu == 0
  {
    assert t.payload[0..] == t.payload;
  }

  /** Without a payload nothing is written, whatever the MTU; with one, an MTU below the header size
      makes the first fragment panic. */
  lemma FirstOutcome(transmissionId: byte, payload: seq<byte>, mtu: int)
    ensures var r := Written(NewOutgoing(transmissionId, payload, mtu));
      && (r.Error? <==> payload == []) && (r.Panic? <==> payload != [] && mtu < 2)
  {
  }

  lemma WrittenShrinks(t: Outgoing)
    ensures t.finished ==> Written(t) == Error
    ensures !t.finished && t.mtu < 0 ==> Written(t) == Panic
    ensures !t.finished && t.mtu >= 1 ==>
      Written(t).Value? && var t' := Written(t).value.1; |t'.payload| < |t.payload| || t'.finished
  {
  }

  function PayloadOf(fs: seq<Fragment>): seq<byte> {
    if fs == [] then [] else PayloadOf(fs[..|fs| - 1]) + fs[|fs| - 1].payload
  }

  /** Fragment i of n, counting from a base. */
  predicate IsFragment(f: Fragment, transmissionId: byte, no: nat, start: bool, end: bool, mtu: int) {
    && f.transmissionId == transmissionId
    && SequenceNumber(f) == no % 16
    && StartBit(f) == start && EndBit(f) == end && !FailBit(f)
    && |f.payload| <= mtu
  }

  lemma {:induction false} PayloadOfFirst(f: Fragment, fs: seq<Fragment>)
    ensures PayloadOf([f] + fs) == f.payload + PayloadOf(fs)
  {
    if fs == [] {
      assert ([f] + fs)[..0] == [];
      assert PayloadOf([f] + fs) == PayloadOf(([f] + fs)[..0]) + f.payload;
      assert f.payload + [] == [] + f.payload;
    } else {
      var front, last := fs[..|fs| - 1], fs[|fs| - 1];
      PayloadOfFirst(f, front);
      assert ([f] + fs)[..|fs|] == [f] + front;
      Assoc(f.payload, PayloadOf(front), last.payload);
    }
  }

  lemma FirstFragment(t: Outgoing)
    requires t.mtu >= 1 && !t.finished && t.payload != []
    ensures Written(t).Value?
    ensures var (f, t') := Written(t).value;
      && IsFragment(f, t.transmissionId, t.nextSegmentNo + 1, t.start, t'.finished, t.mtu)
      && f.payload + t'.payload == t.payload
      && t' == Outgoing(t.transmissionId, t'.payload, t'.finished, t.mtu, false, (t.nextSegmentNo + 1) % 16)
      && (t'.finished <==> t'.payload == []) && |t'.payload| < |t.payload|
  {
    var (f, t') := Written(t).value;
    HeaderBits(t.transmissionId, NextSequenceNumber(t.nextSegmentNo), t.start, t'.finished, false, f.payload);
    hide NewFragment, SequenceNumber, StartBit, EndBit, FailBit;
  }

  lemma LaterNumber(f: Fragment, id: byte, no: nat, i: nat, end: bool, mtu: int)
    requires IsFragment(f, id, (no + 1) % 16 + 1 + i, false, end, mtu)
    ensures IsFragment(f, id, no + 1 + (i + 1), false, end, mtu)
  {
    hide SequenceNumber, StartBit, EndBit, FailBit;
  }

  /** Consecutive sequence numbers modulo 16 after the base, the start bit on at most the first,
      the end bit on the last only, and no fragment over the limit. */
  predicate Shape(fs: seq<Fragment>, id: byte, no: nat, start: bool, mtu: int) {
    && fs != []
    && forall i :: 0 <= i < |fs| ==> IsFragment(fs[i], id, no + 1 + i, start && i == 0, i == |fs| - 1, mtu)
  }

  lemma PrependShape(f: Fragment, more: seq<Fragment>, id: byte, no: nat, start: bool, mtu: int)
    requires IsFragment(f, id, no + 1, start, false, mtu) && Shape(more, id, (no + 1) % 16, false, mtu)
    ensures Shape([f] + more, id, no, start, mtu)
  {
    hide IsFragment;
    var fs := [f] + more;
    forall i | 0 < i < |fs| ensures IsFragment(fs[i], id, no + 1 + i, false, i == |fs| - 1, mtu) {
      assert fs[i] == more[i - 1];
      LaterNumber(fs[i], id, no, i - 1, i == |fs| - 1, mtu);
    }
  }

  lemma FragmentsStep(t: Outgoing)
    requires t.mtu >= 1 && Written(t).Value?
    ensures var (f, t') := Written(t).value;
            t'.mtu == t.mtu && Fragments(t) == [f] + if t'.finished then [] else Fragments(t')
  {
  }

  /** The fragments of a transmission have that shape and split its payload in order. */
  lemma {:induction false} FragmentsShape(t: Outgoing)
    requires t.mtu >= 1 && !t.finished && t.payload != []
    ensures Shape(Fragments(t), t.transmissionId, t.nextSegmentNo, t.start, t.mtu)
    ensures PayloadOf(Fragments(t)) == t.payload
    decreases |t.payload|
  {
    FirstFragment(t);
    FragmentsStep(t);
    hide Written, IsFragment, PayloadOf, Fragments;
    var (f, t') := Written(t).value;
    if t'.finished {
      PayloadOfFirst(f, []);
      PayloadOfNone();
    } else {
      FragmentsShape(t');
      PayloadOfFirst(f, Fragments(t'));
      hide Shape;
      PrependShape(f, Fragments(t'), t.transmissionId, t.nextSegmentNo, t.start, t.mtu);
    }
  }

  lemma PayloadOfNone()
    ensures PayloadOf([]) == []
  {
  }

  /** For a modem MTU of at least 3 and a payload, every fragment's octets fit the MTU. */
  lemma FragmentsFit(transmissionId: byte, payload: seq<byte>, mtu: int)
    requires mtu >= 3 && payload != []
    ensures var fs := Fragments(NewOutgoing(transmissionId, payload, mtu));
            forall i :: 0 <= i < |fs| ==> |FragmentBytes(fs[i])| <= mtu
  {
    FragmentsShape(NewOutgoing(transmissionId, payload, mtu));
  }

  /* ---- incoming transmissions ---- */

  datatype Incoming = Incoming(transmissionId: byte, payload: seq<byte>, finished: bool, prevSequenceNo: byte)

  /** NewIncomingTransmission. */
  function Opened(f: Fragment): Result<Incoming> {
    if !StartBit(f) then Err else Ok(Incoming(f.transmissionId, f.payload, EndBit(f), SequenceNumber(f)))
  }

  /** ReadFragment. */
  function Continued(t: Incoming, f: Fragment): Result<Incoming> {
    if t.finished || f.transmissionId != t.transmissionId || SequenceNumber(f) != NextSequenceNumber(t.prevSequenceNo)
       || StartBit(f)
    then Err
    else Ok(Incoming(t.transmissionId, t.payload + f.payload, EndBit(f), SequenceNumber(f)))
  }

  class IncomingTransmission {
    const transmissionId: byte
    var payload: seq<byte>
    var finished: bool
    var prevSequenceNo: byte

    function Value(): Incoming
      reads this
    {
      Incoming(transmissionId, payload, finished, prevSequenceNo)
    }

    constructor (f: Fragment)
      requires StartBit(f)
      ensures Ok(Value()) == Opened(f)
    {
      transmissionId, payload, finished, prevSequenceNo := f.transmissionId, f.payload, EndBit(f), SequenceNumber(f);
    }

    /** ReadFragment: a refused fragment changes nothing. */
    method ReadFragment(f: Fragment) returns (ok: bool)
      modifies this
      ensures ok == Continued(old(Value()), f).Ok?
      ensures Value() == if ok then Continued(old(Value()), f).value else old(Value())
    {
      if finished {
        return false;
      }
      if f.transmissionId != transmissionId {
        return false;
      }
      var expected := NextSequenceNumber(prevSequenceNo);
      if SequenceNumber(f) != expected {
        return false;
      }
      if StartBit(f) {
        return false;
      }
      payload := payload + f.payload;
      finished := EndBit(f);
      prevSequenceNo := SequenceNumber(f);
      ok := true;
    }
  }

  /** A receiver that is fed fragments one after the other, the first one opening a transmission. */
  function Receive(fs: seq<Fragment>): Result<Incoming> {
    if fs == [] then Err
    else if |fs| == 1 then Opened(fs[0])
    else
      match Receive(fs[..|fs| - 1])
      case Err => Err
      case Ok(t) => Continued(t, fs[|fs| - 1])
  }

  /** The fragments at the given positions, the others are lost. */
  function Survivors(fs: seq<Fragment>, kept: seq<nat>): (r: seq<Fragment>)
    requires forall j :: 0 <= j < |kept| ==> kept[j] < |fs|
    ensures |r| == |kept| && forall j :: 0 <= j < |kept| ==> r[j] == fs[kept[j]]
  {
    seq(|kept|, j requires 0 <= j < |kept| => fs[kept[j]])
  }

  predicate Ascending(kept: seq<nat>, n: nat) {
    && (forall j :: 0 <= j < |kept| ==> kept[j] < n)
    && forall j :: 0 < j < |kept| ==> kept[j - 1] < kept[j]
  }

  /** The losses that sequence numbers modulo 16 cannot show: whole multiples of 16 in a row. */
  predicate UnseenLosses(kept: seq<nat>) {
    && kept != [] && kept[0] == 0
    && forall j :: 0 < j < |kept| ==> (kept[j] as int - kept[j - 1]) % 16 == 1
  }

  /** Fragments of one transmission, from sequence number 1. */
  predicate Sequence(fs: seq<Fragment>, id: byte) {
    forall i :: 0 <= i < |fs| ==>
      && fs[i].transmissionId == id && SequenceNumber(fs[i]) == (i + 1) % 16
      && (StartBit(fs[i]) <==> i == 0) && (EndBit(fs[i]) <==> i == |fs| - 1)
  }

  lemma ExpectedNumber(i: nat, k: nat)
    requires i < k
    ensures NextSequenceNumber((i + 1) % 16) == (k + 1) % 16 <==> (k - i) % 16 == 1
  {
    assert NextSequenceNumber((i + 1) % 16) == (i + 2) % 16;
    var d := k - i;
    assert k + 1 == i + 1 + d;
    Sixteens(i + 1, d);
  }

  lemma Sixteens(a: nat, d: nat)
    requires d >= 1
    ensures (a + d) % 16 == (a + 1) % 16 <==> d % 16 == 1
  {
    SumModulo(a / 16, a % 16, d / 16, d % 16);
    SumModulo(a / 16, a % 16, 0, 1);
  }

  lemma SumModulo(p: nat, x: nat, q: nat, y: nat)
    requires x < 16 && y < 16
    ensures (16 * p + x + (16 * q + y)) % 16 == if x + y < 16 then x + y else x + y - 16
  {
  }

  lemma {:induction false} AscendingTo(kept: seq<nat>, n: nat, j: nat)
    requires Ascending(kept, n) && j < |kept| - 1
    ensures kept[j] < kept[|kept| - 1]
    decreases |kept| - j
  {
    if j + 1 < |kept| - 1 {
      AscendingTo(kept, n, j + 1);
    }
  }

  lemma UnseenFront(kept: seq<nat>)
    requires |kept| >= 2
    ensures UnseenLosses(kept) <==>
            UnseenLosses(kept[..|kept| - 1]) && (kept[|kept| - 1] as int - kept[|kept| - 2]) % 16 == 1
  {
    var front := kept[..|kept| - 1];
    assert forall j :: 0 <= j < |front| ==> front[j] == kept[j];
  }

  /** What a receiver knows that has accepted fragments up to number last. */
  function UpTo(fs: seq<Fragment>, id: byte, data: seq<byte>, last: nat): Incoming {
    Incoming(id, data, last == |fs| - 1, (last + 1) % 16)
  }

  lemma LossStep(fs: seq<Fragment>, id: byte, data: seq<byte>, prev: nat, last: nat)
    requires Sequence(fs, id) && prev < last < |fs|
    ensures Continued(UpTo(fs, id, data, prev), fs[last])
         == if (last - prev) % 16 == 1 then Ok(UpTo(fs, id, data + fs[last].payload, last)) else Err
  {
    ExpectedNumber(prev, last);
    hide SequenceNumber, StartBit, EndBit, NextSequenceNumber;
  }

  /** Exactly which losses go unnoticed: a receiver fed any in-order subsequence of a
      transmission's fragments accepts them all if and only if the first is there and what is
      missing between two of them is a multiple of 16; it is finished if and only if the last is
      there, and has what it was fed. */
  lemma {:induction false} LossesSeen(fs: seq<Fragment>, id: byte, kept: seq<nat>)
    requires Sequence(fs, id) && Ascending(kept, |fs|)
    ensures var r := Receive(Survivors(fs, kept));
      && (r.Ok? <==> UnseenLosses(kept))
      && (r.Ok? ==> kept != [] && r.value == UpTo(fs, id, PayloadOf(Survivors(fs, kept)), kept[|kept| - 1]))
    decreases |kept|
  {
    if |kept| >= 2 {
      var front, last, prev := kept[..|kept| - 1], kept[|kept| - 1], kept[|kept| - 2];
      hide Sequence, Continued, UnseenLosses, UpTo, Survivors, Receive, PayloadOf;
      LossesSeen(fs, id, front);
      SurvivorsLast(fs, kept);
      UnseenFront(kept);
      LossStep(fs, id, PayloadOf(Survivors(fs, front)), prev, last);
      ReceiveLast(Survivors(fs, kept));
    } else {
      FewSurvivors(fs, id, kept);
    }
  }

  lemma SurvivorsLast(fs: seq<Fragment>, kept: seq<nat>)
    requires Ascending(kept, |fs|) && kept != []
    ensures var front, last := kept[..|kept| - 1], kept[|kept| - 1];
      && Ascending(front, |fs|) && last < |fs|
      && var s := Survivors(fs, kept);
      && |s| == |kept| && s[|s| - 1] == fs[last] && s[..|s| - 1] == Survivors(fs, front)
      && PayloadOf(s) == PayloadOf(Survivors(fs, front)) + fs[last].payload
  {
    var s := Survivors(fs, kept);
    assert s[..|s| - 1] == Survivors(fs, kept[..|kept| - 1]);
  }

  lemma FewSurvivors(fs: seq<Fragment>, id: byte, kept: seq<nat>)
    requires Sequence(fs, id) && Ascending(kept, |fs|) && |kept| <= 1
    ensures var r := Receive(Survivors(fs, kept));
      && (r.Ok? <==> UnseenLosses(kept))
      && (r.Ok? ==> kept != [] && r.value == UpTo(fs, id, PayloadOf(Survivors(fs, kept)), kept[|kept| - 1]))
  {
    var s := Survivors(fs, kept);
    hide SequenceNumber, StartBit, EndBit, NextSequenceNumber;
    if |kept| == 1 {
      assert s[..0] == [];
      assert PayloadOf(s) == [] + s[0].payload;
    }
  }

  lemma ReceiveLast(s: seq<Fragment>)
    requires |s| >= 2
    ensures var front := Receive(s[..|s| - 1]);
            Receive(s) == if front.Ok? then Continued(front.value, s[|s| - 1]) else Err
  {
  }

  /** Fewer than 16 fragments are missing in a row. */
  predicate ShortLosses(kept: seq<nat>) {
    forall j :: 0 < j < |kept| ==> kept[j] as int - kept[j - 1] <= 16
  }

  lemma {:induction false} NothingMissing(kept: seq<nat>, j: nat)
    requires UnseenLosses(kept) && ShortLosses(kept) && j < |kept|
    requires forall i :: 0 < i < |kept| ==> kept[i - 1] < kept[i]
    ensures kept[j] == j
  {
    if j > 0 {
      NothingMissing(kept, j - 1);
    }
  }

  lemma TransmissionIsSequence(transmissionId: byte, payload: seq<byte>, mtu: int)
    requires mtu >= 3 && payload != []
    ensures Sequence(Fragments(NewOutgoing(transmissionId, payload, mtu)), transmissionId)
    ensures PayloadOf(Fragments(NewOutgoing(transmissionId, payload, mtu))) == payload
  {
    FragmentsShape(NewOutgoing(transmissionId, payload, mtu));
  }

  /** Loss detection: when fewer than 16 fragments in a row are ever missing, a receiver finishes
      if and only if nothing is missing, and then with exactly the payload. */
  lemma FinishedIsWhole(transmissionId: byte, payload: seq<byte>, mtu: int, kept: seq<nat>)
    requires mtu >= 3 && payload != []
    requires Ascending(kept, |Fragments(NewOutgoing(transmissionId, payload, mtu))|) && ShortLosses(kept)
    ensures var fs := Fragments(NewOutgoing(transmissionId, payload, mtu));
            var r := Receive(Survivors(fs, kept));
      && (r.Ok? && r.value.finished <==> |kept| == |fs|)
      && (r.Ok? && r.value.finished ==> r.value.payload == payload)
  {
    var fs := Fragments(NewOutgoing(transmissionId, payload, mtu));
    TransmissionIsSequence(transmissionId, payload, mtu);
    LossesSeen(fs, transmissionId, kept);
    UnseenExactly(kept, |fs|);
    hide Fragments, Receive, PayloadOf, Sequence, UnseenLosses, ShortLosses, Ascending;
    if |kept| == |fs| {
      assert Survivors(fs, kept) == fs;
    }
  }

  /** With short losses only, what is unnoticed and ends with the last fragment is nothing. */
  lemma UnseenExactly(kept: seq<nat>, n: nat)
    requires Ascending(kept, n) && ShortLosses(kept) && n > 0
    ensures kept != [] && UnseenLosses(kept) && kept[|kept| - 1] == n - 1 <==> |kept| == n
    ensures |kept| == n ==> forall j :: 0 <= j < n ==> kept[j] == j
  {
    if UnseenLosses(kept) {
      NothingMissing(kept, |kept| - 1);
    }
    if |kept| == n {
      AllKept(kept, n);
    }
  }

  lemma {:induction false} AtLeastPosition(kept: seq<nat>, n: nat, j: nat)
    requires Ascending(kept, n) && j < |kept|
    ensures kept[j] >= j
  {
    if j > 0 {
      AtLeastPosition(kept, n, j - 1);
    }
  }

  lemma {:induction false} AtMostPosition(kept: seq<nat>, n: nat, j: nat)
    requires Ascending(kept, n) && j < |kept|
    ensures kept[j] <= n - |kept| + j
    decreases |kept| - j
  {
    if j + 1 < |kept| {
      AtMostPosition(kept, n, j + 1);
    }
  }

  lemma AllKept(kept: seq<nat>, n: nat)
    requires Ascending(kept, n) && |kept| == n
    ensures forall j :: 0 <= j < |kept| ==> kept[j] == j
  {
    forall j | 0 <= j < |kept| ensures kept[j] == j {
      AtLeastPosition(kept, n, j);
      AtMostPosition(kept, n, j);
    }
  }

  lemma {:induction false} PayloadBound(fs: seq<Fragment>, room: nat)
    requires forall i :: 0 <= i < |fs| ==> |fs[i].payload| <= room
    ensures |PayloadOf(fs)| <= |fs| * room
  {
    if fs != [] {
      PayloadBound(fs[..|fs| - 1], room);
      assert |fs| * room == (|fs| - 1) * room + room;
    }
  }

  lemma OneMore(n: int, room: nat, len: nat)
    requires (n - 1) * room < len - room
    ensures n * room < len
  {
    assert n * room == (n - 1) * room + room;
  }

  /** A transmission has no more fragments than its payload needs. */
  lemma {:induction false} FragmentsNeeded(t: Outgoing)
    requires t.mtu >= 1 && !t.finished && t.payload != []
    ensures (|Fragments(t)| - 1) * t.mtu < |t.payload|
    decreases |t.payload|
  {
    FirstFragment(t);
    FragmentsStep(t);
    hide Written, Fragments, IsFragment;
    var t' := Written(t).value.1;
    if !t'.finished {
      FullFragment(t);
      FragmentsNeeded(t');
      OneMore(|Fragments(t')|, t.mtu, |t.payload|);
    } else {
      assert |Fragments(t)| - 1 == 0;
    }
  }

  lemma FullFragment(t: Outgoing)
    requires Written(t).Value? && !Written(t).value.1.finished
    ensures |Written(t).value.1.payload| == |t.payload| - t.mtu
  {
  }

  /** The positions of all of n fragments but the sixteen behind the first. */
  function AllButSixteen(n: nat): (kept: seq<nat>)
    requires n >= 18
    ensures |kept| == n - 16 && Ascending(kept, n) && UnseenLosses(kept) && kept[|kept| - 1] == n - 1
  {
    [0] + seq(n - 17, j requires 0 <= j < n - 17 => j + 17)
  }

  /** The bound is tight: of every transmission with 18 fragments or more, 16 fragments lost in a
      row right after the first go unnoticed, and the receiver finishes with a payload that is too
      short. */
  lemma SixteenLostUnnoticed(transmissionId: byte, payload: seq<byte>, mtu: int)
    requires mtu >= 3 && |payload| > 17 * (mtu - HEADER_SIZE)
    ensures var fs := Fragments(NewOutgoing(transmissionId, payload, mtu));
      && |fs| >= 18
      && var r := Receive(Survivors(fs, AllButSixteen(|fs|)));
      && r.Ok? && r.value.finished && |r.value.payload| < |payload|
  {
    var t := NewOutgoing(transmissionId, payload, mtu);
    var fs, room := Fragments(t), mtu - HEADER_SIZE;
    RoomForFragments(t);
    TransmissionIsSequence(transmissionId, payload, mtu);
    FragmentsNeeded(t);
    hide Fragments, Receive, PayloadOf, Sequence, Survivors, AllButSixteen;
    EnoughFragments(|fs|, room, |payload|);
    var s := Survivors(fs, AllButSixteen(|fs|));
    LossesSeen(fs, transmissionId, AllButSixteen(|fs|));
    PayloadBound(s, room);
    MulMonotone(|fs| - 16, |fs| - 1, room);
  }

  lemma RoomForFragments(t: Outgoing)
    requires t.mtu >= 1 && !t.finished && t.payload != []
    ensures forall i :: 0 <= i < |Fragments(t)| ==> |Fragments(t)[i].payload| <= t.mtu
    ensures |t.payload| <= |Fragments(t)| * t.mtu
  {
    FragmentsShape(t);
    hide Fragments, PayloadOf, SequenceNumber, StartBit, EndBit, FailBit;
    assert forall i :: 0 <= i < |Fragments(t)| ==> |Fragments(t)[i].payload| <= t.mtu;
    PayloadBound(Fragments(t), t.mtu);
  }

  lemma MulMonotone(a: nat, b: nat, room: nat)
    requires a <= b
    ensures a * room <= b * room
  {
    assert b * room == a * room + (b - a) * room;
  }

  lemma EnoughFragments(n: nat, room: nat, len: nat)
    requires 17 * room < len <= n * room
    ensures n >= 18
  {
    if n <= 17 {
      MulMonotone(n, 17, room);
    }
  }

  /* ---- the connector ---- */

  /** What handling a fragment puts into the connector's channels. */
  datatype Reaction = Reaction(fragmentOut: seq<Fragment>, failTransmission: seq<byte>, received: seq<seq<byte>>)

  /** handleIncomingFragment: unpack tells whether a payload decompresses and parses. */
  function Handled(unpack: seq<byte> -> bool, ts: map<byte, Incoming>, f: Fragment): (map<byte, Incoming>, Reaction) {
    var failure := Reaction([ReportFailure(f)], [], []);
    var id := f.transmissionId;
    if FailBit(f) then (ts, Reaction([], [id], []))
    else
      match (if id in ts then Continued(ts[id], f) else Opened(f))
      case Err => (ts - {id}, failure)
      case Ok(t) =>
        if !t.finished then (ts[id := t], Reaction([], [], []))
        else (ts - {id}, if unpack(t.payload) then Reaction([], [], [t.payload]) else failure)
  }

  class Connector {
    var transmissions: map<byte, Incoming>

    constructor ()
      ensures transmissions == map[]
    {
      transmissions := map[];
    }

    /** handleIncomingFragment. */
    method HandleIncomingFragment(unpack: seq<byte> -> bool, frag: Fragment) returns (r: Reaction)
      requires forall id :: id in transmissions ==> transmissions[id].transmissionId == id
      modifies this
      ensures (transmissions, r) == Handled(unpack, old(transmissions), frag)
      ensures forall id :: id in transmissions ==> transmissions[id].transmissionId == id
    {
      var failure := Reaction([ReportFailure(frag)], [], []);
      var id := frag.transmissionId;
      if FailBit(frag) {
        return Reaction([], [id], []);
      }
      var transmission;
      if id !in transmissions {
        var t := Opened(frag);
        assert transmissions - {id} == transmissions;
        if t.Err? {
          return failure;
        }
        transmission := t.value;
      } else {
        var t := Continued(transmissions[id], frag);
        if t.Err? {
          transmissions := transmissions - {transmissions[id].transmissionId};
          return failure;
        }
        transmission := t.value;
      }
      transmissions := transmissions[id := transmission];
      r := Reaction([], [], []);
      if transmission.finished {
        r := if unpack(transmission.payload) then Reaction([], [], [transmission.payload]) else failure;
        transmissions := transmissions - {transmission.transmissionId};
        assert transmissions == old(transmissions) - {id};
      }
    }
  }

  /** The connector after a stream of fragments from any number of senders. */
  function HandledAll(unpack: seq<byte> -> bool, stream: seq<Fragment>): map<byte, Incoming> {
    if stream == [] then map[]
    else Handled(unpack, HandledAll(unpack, stream[..|stream| - 1]), stream[|stream| - 1]).0
  }

  /** The fragments of one ID that are not failure reports. */
  function Own(stream: seq<Fragment>, id: byte): seq<Fragment> {
    if stream == [] then []
    else
      var front, last := Own(stream[..|stream| - 1], id), stream[|stream| - 1];
      if last.transmissionId == id && !FailBit(last) then front + [last] else front
  }

  /** A run: a start bit at its beginning only, consecutive numbers modulo 16, no end bit. */
  predicate IsRun(fs: seq<Fragment>) {
    && fs != [] && StartBit(fs[0])
    && (forall i :: 0 <= i < |fs| ==> !EndBit(fs[i]))
    && forall i :: 0 < i < |fs| ==>
         !StartBit(fs[i]) && SequenceNumber(fs[i]) == NextSequenceNumber(SequenceNumber(fs[i - 1]))
  }

  /** The run that is open after a sequence of fragments of one ID, as it depends on these alone:
      the next fragment continues it, or ends it, for better or worse. */
  function OpenRun(fs: seq<Fragment>): (run: seq<Fragment>)
    ensures run == [] || (IsRun(run) && |run| <= |fs| && run == fs[|fs| - |run|..])
  {
    hide SequenceNumber, StartBit, EndBit, NextSequenceNumber, IsRun;
    if fs == [] then []
    else
      var front, f := fs[..|fs| - 1], fs[|fs| - 1];
      var run := OpenRun(front);
      if run == [] then
        if StartBit(f) && !EndBit(f) then RunStarts(f); [f] else []
      else if SequenceNumber(f) == NextSequenceNumber(SequenceNumber(run[|run| - 1])) && !StartBit(f) && !EndBit(f)
      then
        RunGoesOn(run, f);
        SuffixGrows(front, run, f);
        assert fs == front + [f];
        run + [f]
      else []
  }

  lemma RunStarts(f: Fragment)
    requires StartBit(f) && !EndBit(f)
    ensures IsRun([f])
  {
  }

  lemma RunGoesOn(run: seq<Fragment>, f: Fragment)
    requires IsRun(run) && SequenceNumber(f) == NextSequenceNumber(SequenceNumber(run[|run| - 1]))
    requires !StartBit(f) && !EndBit(f)
    ensures IsRun(run + [f])
  {
    hide SequenceNumber, StartBit, EndBit, NextSequenceNumber;
  }

  lemma SuffixGrows(fs: seq<Fragment>, run: seq<Fragment>, f: Fragment)
    requires |run| <= |fs| && run == fs[|fs| - |run|..]
    ensures run + [f] == (fs + [f])[|fs| - |run|..]
  {
  }

  lemma OwnElsewhere(unpack: seq<byte> -> bool, ts: map<byte, Incoming>, f: Fragment, id: byte)
    requires f.transmissionId != id || FailBit(f)
    ensures id in Handled(unpack, ts, f).0 <==> id in ts
    ensures id in ts ==> Handled(unpack, ts, f).0[id] == ts[id]
  {
  }

  /** A stored transmission is unfinished, under its own ID, and has the octets of its run. */
  predicate Holds(ts: map<byte, Incoming>, id: byte, run: seq<Fragment>) {
    && (id in ts <==> run != [])
    && (run != [] ==> ts[id] == Incoming(id, PayloadOf(run), false, SequenceNumber(run[|run| - 1])))
  }

  lemma RunExtends(unpack: seq<byte> -> bool, ts: map<byte, Incoming>, f: Fragment, run: seq<Fragment>,
      next: seq<Fragment>)
    requires !FailBit(f) && Holds(ts, f.transmissionId, run)
    requires next == if run == [] then (if StartBit(f) && !EndBit(f) then [f] else [])
                     else if SequenceNumber(f) == NextSequenceNumber(SequenceNumber(run[|run| - 1]))
                             && !StartBit(f) && !EndBit(f)
                     then run + [f] else []
    ensures Holds(Handled(unpack, ts, f).0, f.transmissionId, next)
  {
    if run != [] {
      assert (run + [f])[..|run|] == run;
    } else {
      assert [f][..0] == [];
      assert PayloadOf([f]) == [] + f.payload;
    }
    hide SequenceNumber, StartBit, EndBit, FailBit, NextSequenceNumber, ReportFailure;
  }

  /** The connector's invariant: after any stream of fragments there is a transmission under an ID
      exactly when the fragments of that ID, whatever was received between them, end in an open
      run; it is unfinished and has exactly that run's octets. Finished and failed ones are gone. */
  lemma {:induction false} ConnectorHolds(unpack: seq<byte> -> bool, stream: seq<Fragment>, id: byte)
    ensures Holds(HandledAll(unpack, stream), id, OpenRun(Own(stream, id)))
    decreases |stream|
  {
    hide Holds, Handled, SequenceNumber, StartBit, EndBit, FailBit;
    if stream == [] {
      NothingHeld(id);
    } else {
      var front, last := stream[..|stream| - 1], stream[|stream| - 1];
      ConnectorHolds(unpack, front, id);
      var own := Own(front, id);
      if last.transmissionId == id && !FailBit(last) {
        assert (own + [last])[..|own|] == own;
        RunExtends(unpack, HandledAll(unpack, front), last, OpenRun(own), OpenRun(own + [last]));
      } else {
        OwnElsewhere(unpack, HandledAll(unpack, front), last, id);
        HeldAlike(HandledAll(unpack, front), HandledAll(unpack, stream), id, OpenRun(own));
      }
    }
  }

  lemma NothingHeld(id: byte)
    ensures Holds(map[], id, [])
  {
  }

  lemma HeldAlike(ts: map<byte, Incoming>, us: map<byte, Incoming>, id: byte, run: seq<Fragment>)
    requires Holds(ts, id, run) && (id in us <==> id in ts) && (id in ts ==> us[id] == ts[id])
    ensures Holds(us, id, run)
  {
  }

  /* ---- what the connector hands up ---- */

  /** A complete run: a start bit at its beginning only, an end bit at its end only, consecutive
      numbers modulo 16. */
  predicate IsComplete(fs: seq<Fragment>) {
    && fs != [] && StartBit(fs[0]) && EndBit(fs[|fs| - 1])
    && (forall i :: 0 <= i < |fs| - 1 ==> !EndBit(fs[i]))
    && forall i :: 0 < i < |fs| ==>
         !StartBit(fs[i]) && SequenceNumber(fs[i]) == NextSequenceNumber(SequenceNumber(fs[i - 1]))
  }

  /** The run a fragment completes behind the earlier fragments of its ID, or nothing. */
  function Completed(own: seq<Fragment>, f: Fragment): (run: seq<Fragment>)
    ensures run == [] || (IsComplete(run) && |run| <= |own| + 1 && run == (own + [f])[|own| + 1 - |run|..])
  {
    var run := OpenRun(own);
    if !EndBit(f) then []
    else if run == [] then (if StartBit(f) then [f] else [])
    else if SequenceNumber(f) == NextSequenceNumber(SequenceNumber(run[|run| - 1])) && !StartBit(f)
    then
      assert (own + [f])[|own| - |run|..] == own[|own| - |run|..] + [f];
      run + [f]
    else []
  }

  lemma ReceivedReaction(unpack: seq<byte> -> bool, ts: map<byte, Incoming>, f: Fragment)
    requires !FailBit(f)
    ensures var id := f.transmissionId;
            Handled(unpack, ts, f).1.received
            == match (if id in ts then Continued(ts[id], f) else Opened(f))
               case Ok(t) => if t.finished && unpack(t.payload) then [t.payload] else []
               case Err => []
  {
    hide FailBit, Continued, Opened, ReportFailure;
  }

  lemma CompletedReaction(unpack: seq<byte> -> bool, ts: map<byte, Incoming>, own: seq<Fragment>, f: Fragment)
    requires !FailBit(f) && Holds(ts, f.transmissionId, OpenRun(own))
    ensures var run := Completed(own, f);
            Handled(unpack, ts, f).1.received
            == if run != [] && unpack(PayloadOf(run)) then [PayloadOf(run)] else []
  {
    ReceivedReaction(unpack, ts, f);
    hide SequenceNumber, StartBit, EndBit, FailBit, NextSequenceNumber, Handled, OpenRun, IsRun, IsComplete;
    var run := OpenRun(own);
    if run == [] {
      PayloadOfOne(f);
    } else {
      PayloadOfLast(run, f);
    }
    hide PayloadOf;
  }

  /** What the connector reports behind any stream: a fragment with the fail bit is reported to the
      sending side; any other one is answered by a failure report exactly when it neither starts a run
      nor goes on with the open one, or completes one that does not unpack. */
  lemma ReportsExactly(unpack: seq<byte> -> bool, stream: seq<Fragment>, f: Fragment)
    ensures var r := Handled(unpack, HandledAll(unpack, stream), f).1;
            var own := Own(stream, f.transmissionId);
            var run := OpenRun(own);
      && (f.identifier % 2 == 1 ==> r == Reaction([], [f.transmissionId], []))
      && (f.identifier % 2 == 0 ==>
            && r.failTransmission == []
            && var fits := if run == [] then StartBit(f)
                           else !StartBit(f)
                                && SequenceNumber(f) == (SequenceNumber(run[|run| - 1]) + 1) % 16;
            r.fragmentOut == if !fits || (EndBit(f) && !unpack(PayloadOf(run) + f.payload))
                             then [Fragment(f.transmissionId, f.identifier - f.identifier % 8 + 1, [])] else [])
  {
    var own := Own(stream, f.transmissionId);
    ConnectorHolds(unpack, stream, f.transmissionId);
    FailureReported(f);
    hide ReportFailure, OpenRun, Own, HandledAll, PayloadOf, SequenceNumber;
    if OpenRun(own) == [] {
      PayloadOfNone();
      assert [] + f.payload == f.payload;
    }
  }

  lemma PayloadOfOne(f: Fragment)
    ensures PayloadOf([f]) == f.payload
  {
    assert [f][..0] == [];
    assert PayloadOf([f]) == [] + f.payload;
  }

  lemma PayloadOfLast(fs: seq<Fragment>, f: Fragment)
    ensures PayloadOf(fs + [f]) == PayloadOf(fs) + f.payload
  {
    assert (fs + [f])[..|fs|] == fs;
  }

  /** What the connector hands up for the last fragment of any stream it reads: exactly the payload of
      the run it completes among the fragments of its ID, if that unpacks. */
  lemma HandsUpExactly(unpack: seq<byte> -> bool, stream: seq<Fragment>, f: Fragment)
    ensures var run := Completed(Own(stream, f.transmissionId), f);
            Handled(unpack, HandledAll(unpack, stream), f).1.received
            == if !FailBit(f) && run != [] && unpack(PayloadOf(run)) then [PayloadOf(run)] else []
  {
    hide Completed;
    if !FailBit(f) {
      ConnectorHolds(unpack, stream, f.transmissionId);
      hide Handled;
      CompletedReaction(unpack, HandledAll(unpack, stream), Own(stream, f.transmissionId), f);
    }
  }

  /** Everything handed up over a stream. */
  function HandedUp(unpack: seq<byte> -> bool, stream: seq<Fragment>): seq<seq<byte>> {
    if stream == [] then []
    else
      var front, last := stream[..|stream| - 1], stream[|stream| - 1];
      HandedUp(unpack, front) + Handled(unpack, HandledAll(unpack, front), last).1.received
  }

  /** A payload is that of the complete run which the i-th fragment of a stream ends. */
  predicate EndsAt(stream: seq<Fragment>, i: nat, payload: seq<byte>) {
    && i < |stream| && !FailBit(stream[i])
    && var run := Completed(Own(stream[..i], stream[i].transmissionId), stream[i]);
    && IsComplete(run) && payload == PayloadOf(run)
  }

  /** Over any stream from any number of senders, every payload the connector hands up is the
      concatenation of a complete run of one ID. */
  lemma {:induction false} HandedUpAreComplete(unpack: seq<byte> -> bool, stream: seq<Fragment>, payload: seq<byte>)
    requires payload in HandedUp(unpack, stream)
    ensures unpack(payload) && exists i: nat :: EndsAt(stream, i, payload)
  {
    hide Handled, Completed, IsComplete, Own;
    var front, last := stream[..|stream| - 1], stream[|stream| - 1];
    if payload in HandedUp(unpack, front) {
      HandedUpAreComplete(unpack, front, payload);
      var i: nat :| EndsAt(front, i, payload);
      assert front[..i] == stream[..i];
      assert EndsAt(stream, i, payload);
    } else {
      HandsUpExactly(unpack, front, last);
      assert EndsAt(stream, |stream| - 1, payload);
    }
  }

  /* ---- failure reports nobody takes ---- */

  /** The connector's channel of failure reports holds this many; only a running Send takes them. */
  const FAIL_CAPACITY: nat := 64

  /** The reading goroutine: the transmissions, and the failure reports in the channel, with the one
      the goroutine waits to put there at the end. */
  datatype Listener = Listener(transmissions: map<byte, Incoming>, reports: seq<byte>)

  /** The next fragment is read and handled, or Send takes a report. */
  datatype Occurrence = Hear(fragment: Fragment) | Drain

  predicate CanOccur(l: Listener, o: Occurrence) {
    match o
    case Hear(_) => |l.reports| <= FAIL_CAPACITY
    case Drain => l.reports != []
  }

  function Occurred(unpack: seq<byte> -> bool, l: Listener, o: Occurrence): Listener
    requires CanOccur(l, o)
  {
    match o
    case Hear(f) =>
      var (ts, reaction) := Handled(unpack, l.transmissions, f);
      Listener(ts, l.reports + reaction.failTransmission)
    case Drain => l.(reports := l.reports[1..])
  }

  function Listen(unpack: seq<byte> -> bool, os: seq<Occurrence>): Result<Listener> {
    if os == [] then Ok(Listener(map[], []))
    else
      match Listen(unpack, os[..|os| - 1])
      case Err => Err
      case Ok(l) =>
        if CanOccur(l, os[|os| - 1]) then Ok(Occurred(unpack, l, os[|os| - 1])) else Err
  }

  /** The fragments that were read. */
  function Heard(os: seq<Occurrence>): seq<Fragment> {
    if os == [] then []
    else
      var front, last := Heard(os[..|os| - 1]), os[|os| - 1];
      if last.Hear? then front + [last.fragment] else front
  }

  function ReportCount(stream: seq<Fragment>): nat {
    if stream == [] then 0
    else ReportCount(stream[..|stream| - 1]) + if FailBit(stream[|stream| - 1]) then 1 else 0
  }

  function DrainCount(os: seq<Occurrence>): nat {
    if os == [] then 0 else DrainCount(os[..|os| - 1]) + if os[|os| - 1].Drain? then 1 else 0
  }

  lemma ReportedOnce(unpack: seq<byte> -> bool, ts: map<byte, Incoming>, f: Fragment)
    ensures |Handled(unpack, ts, f).1.failTransmission| == if FailBit(f) then 1 else 0
  {
    hide FailBit, Continued, Opened, ReportFailure;
  }

  /** Whatever is read and taken in whatever order, the transmissions are those of the fragments that
      were read, and the reports nobody has taken wait. */
  lemma {:induction false} ListenerHolds(unpack: seq<byte> -> bool, os: seq<Occurrence>)
    requires Listen(unpack, os).Ok?
    ensures var l := Listen(unpack, os).value;
      l.transmissions == HandledAll(unpack, Heard(os)) && |l.reports| + DrainCount(os) == ReportCount(Heard(os))
  {
    hide Handled, FailBit;
    if os != [] {
      var front, last := os[..|os| - 1], os[|os| - 1];
      ListenerHolds(unpack, front);
      if last.Hear? {
        var heard := Heard(front);
        assert (heard + [last.fragment])[..|heard|] == heard;
        ReportedOnce(unpack, HandledAll(unpack, heard), last.fragment);
      }
    }
  }

  /** When the connector reads on: exactly while no more than 64 failure reports wait for a Send. On
      the 65th an idle connector stops reading for good; up to then HandsUpExactly says what the
      fragments it reads make it hand up. */
  lemma HearsExactly(unpack: seq<byte> -> bool, os: seq<Occurrence>, f: Fragment)
    requires Listen(unpack, os).Ok?
    ensures Listen(unpack, os + [Hear(f)]).Ok? <==> ReportCount(Heard(os)) <= FAIL_CAPACITY + DrainCount(os)
  {
    hide Heard, ReportCount, DrainCount, Handled;
    ListenerHolds(unpack, os);
    assert (os + [Hear(f)])[..|os|] == os;
  }
}
