/** The messages of the TCP convergence layer in octets (RFC 9174, sections 4.2, 4.6, 4.8, 5.1, 5.2 and
    6.1): what is written for each, and which octets are read as one. */
module WireMessages {
  import opened Bytes
  import opened Messages

  lemma OneField(value: nat, width: nat)
    ensures FieldBytes([Field(value, width)]) == PutBE(value, width)
  {
    assert [Field(value, width)][..0] == [];
    assert [] + PutBE(value, width) == PutBE(value, width);
  }

  lemma TwoFields(a: Field, b: Field)
    ensures FieldBytes([a, b]) == PutBE(a.value, a.width) + PutBE(b.value, b.width)
  {
    OneField(a.value, a.width);
    assert [a, b][..1] == [a];
  }

  lemma ThreeFields(a: Field, b: Field, c: Field)
    ensures FieldBytes([a, b, c]) == PutBE(a.value, a.width) + PutBE(b.value, b.width) + PutBE(c.value, c.width)
  {
    TwoFields(a, b);
    assert [a, b, c][..2] == [a, b];
  }

  lemma FourFields(a: Field, b: Field, c: Field, d: Field)
    ensures FieldBytes([a, b, c, d])
         == PutBE(a.value, a.width) + PutBE(b.value, b.width) + PutBE(c.value, c.width) + PutBE(d.value, d.width)
  {
    ThreeFields(a, b, c);
    assert [a, b, c, d][..3] == [a, b, c];
  }

  lemma OneOctet(n: u8)
    ensures PutBE(n, 1) == [n]
  {
    assert PutBE(n / 256, 0) == [];
  }

  lemma ZeroWord()
    ensures PutBE(0, 4) == [0, 0, 0, 0]
  {
    assert PutBE(0, 1) == [0];
    assert PutBE(0, 2) == [0, 0];
    assert PutBE(0, 3) == [0, 0, 0];
  }

  /** The octets of every message; PutBE gives a number in so many octets, the most significant first
      (Bytes.BigEndian). */
  function Octets(m: Message): seq<byte> {
    match m
    case SessInit(keepalive, segmentMru, transferMru, nodeId) =>
      [0x07] + PutBE(keepalive, 2) + PutBE(segmentMru, 8) + PutBE(transferMru, 8) + PutBE(|nodeId|, 2) + nodeId
      + [0, 0, 0, 0]
    case SessTerm(flags, reason) => [0x05, flags, reason]
    case XferSegment(flags, id, data) =>
      [0x01, flags] + PutBE(id, 8) + [0, 0, 0, 0] + PutBE(|data|, 8) + data
    case XferAck(flags, id, len) => [0x02, flags] + PutBE(id, 8) + PutBE(len, 8)
    case XferRefuse(reason, id) => [0x03, reason] + PutBE(id, 8)
    case Keepalive => [0x04]
    case MsgReject(reason, header) => [0x06, reason, header]
    case Contact(flags) => [0x64, 0x74, 0x6E, 0x21, 0x04, flags]
  }

  lemma SessInitForm(m: Message)
    requires m.SessInit?
    ensures MessageBytes(m) == Octets(m)
  {
    hide PutBE, FieldBytes;
    FourFields(Field(m.keepalive, 2), Field(m.segmentMru, 8), Field(m.transferMru, 8), Field(|m.nodeId|, 2));
    ZeroWord();
    var a, b, c, d := PutBE(m.keepalive, 2), PutBE(m.segmentMru, 8), PutBE(m.transferMru, 8), PutBE(|m.nodeId|, 2);
    var end := [0, 0, 0, 0];
    assert [0x07] + (a + b + c + d + (m.nodeId + end)) == [0x07] + a + b + c + d + m.nodeId + end;
  }

  lemma SegmentForm(m: Message)
    requires m.XferSegment?
    ensures MessageBytes(m) == Octets(m)
  {
    hide PutBE, FieldBytes;
    FourFields(Field(m.flags, 1), Field(m.transferId, 8), Field(0, 4), Field(|m.data|, 8));
    OneOctet(m.flags);
    ZeroWord();
    var a, b, c := PutBE(m.transferId, 8), [0, 0, 0, 0], PutBE(|m.data|, 8);
    assert [0x01] + ([m.flags] + a + b + c + m.data) == [0x01, m.flags] + a + b + c + m.data;
  }

  /** Every message is written in these octets. */
  lemma WireForm(m: Message)
    ensures MessageBytes(m) == Octets(m)
  {
    hide PutBE, FieldBytes;
    match m
    case SessInit(_, _, _, _) => SessInitForm(m);
    case XferSegment(_, _, _) => SegmentForm(m);
    case SessTerm(flags, reason) =>
      TwoFields(Field(flags, 1), Field(reason, 1));
      OneOctet(flags);
      OneOctet(reason);
      assert [0x05] + ([flags] + [reason] + []) == [0x05, flags, reason];
    case XferAck(flags, id, len) =>
      ThreeFields(Field(flags, 1), Field(id, 8), Field(len, 8));
      OneOctet(flags);
      assert [0x02] + ([flags] + PutBE(id, 8) + PutBE(len, 8) + []) == [0x02, flags] + PutBE(id, 8) + PutBE(len, 8);
    case XferRefuse(reason, id) =>
      TwoFields(Field(reason, 1), Field(id, 8));
      OneOctet(reason);
      assert [0x03] + ([reason] + PutBE(id, 8) + []) == [0x03, reason] + PutBE(id, 8);
    case Keepalive => EmptyForm();
    case MsgReject(reason, header) =>
      TwoFields(Field(reason, 1), Field(header, 1));
      OneOctet(reason);
      OneOctet(header);
      assert [0x06] + ([reason] + [header] + []) == [0x06, reason, header];
    case Contact(flags) =>
      assert [0x64, 0x74, 0x6E, 0x21, 0x04] + [flags] == [0x64, 0x74, 0x6E, 0x21, 0x04, flags];
  }

  lemma EmptyForm()
    ensures MessageBytes(Keepalive) == [0x04]
  {
    assert FieldBytes([]) == [];
  }

  /* ---- what is read ---- */

  /** The reason codes there are. */
  predicate ReasonKnown(m: Message) {
    && (m.SessTerm? ==> m.termReason <= 5)
    && (m.XferRefuse? ==> m.refusal <= 6)
    && (m.MsgReject? ==> 1 <= m.rejection <= 3)
  }

  /** A SESS_INIT with these octets of extension items. */
  function ExtendedSessInit(m: Message, ext: seq<byte>): seq<byte>
    requires m.SessInit?
  {
    [0x07] + PutBE(m.keepalive, 2) + PutBE(m.segmentMru, 8) + PutBE(m.transferMru, 8) + PutBE(|m.nodeId|, 2) + m.nodeId
    + PutBE(|ext|, 4) + ext
  }

  /** A segment with these octets of extension items. */
  function ExtendedSegment(m: Message, ext: seq<byte>): seq<byte>
    requires m.XferSegment?
  {
    [0x01, m.flags] + PutBE(m.transferId, 8) + PutBE(|ext|, 4) + ext + PutBE(|m.data|, 8) + m.data
  }

  /** The octets of every message read as that message, and fail when its reason code is none. */
  lemma ReadsOctets(m: Message, rest: seq<byte>)
    requires Held(m) && (m.SessInit? ==> |m.nodeId| < 0x1_0000)
    ensures ReasonKnown(m) ==> ReadMessage(Octets(m) + rest) == Done(m, rest)
    ensures !ReasonKnown(m) ==> ReadMessage(Octets(m) + rest) == Failed
  {
    hide MessageBytes, ReadMessage, Octets, PutBE, Panics;
    WireForm(m);
    MessageRoundTrip(m, rest);
    if m.SessTerm? || m.XferRefuse? || m.MsgReject? {
      FixedMessageRoundTrip(m, rest);
    }
  }

  /** The same with extension items, which are skipped. */
  lemma ExtendedSessInitRead(m: Message, ext: seq<byte>, rest: seq<byte>)
    requires m.SessInit? && |m.nodeId| < 0x1_0000 && |ext| < 0x1_0000_0000
    ensures ReadMessage(ExtendedSessInit(m, ext) + rest) == Done(m, rest)
  {
    hide PutBE, FieldBytes, ReadFields, Pow256, ReadWord, Fields;
    var tail := m.nodeId + (PutBE(|ext|, 4) + (ext + rest));
    SessInitFields(m, tail);
    Pow256Words();
    SmallMod(|m.nodeId|, 0x1_0000);
    ReadRawWritten(m.nodeId, PutBE(|ext|, 4) + (ext + rest));
    ReadWordExact(|ext|, 4, ext + rest);
    ReadRawWritten(ext, rest);
    hide ReadRaw;
    assert ReadSessInit(FieldBytes(Fields(m)) + tail) == Done(m, rest);
    ExtendedSessInitForm(m, ext, rest);
  }

  lemma ExtendedSessInitForm(m: Message, ext: seq<byte>, rest: seq<byte>)
    requires m.SessInit?
    ensures var tail := m.nodeId + (PutBE(|ext|, 4) + (ext + rest));
      ReadMessage(ExtendedSessInit(m, ext) + rest) == ReadSessInit(FieldBytes(Fields(m)) + tail)
  {
    hide PutBE, FieldBytes, ReadSessInit, ReadMessage;
    var a, b, c, d := PutBE(m.keepalive, 2), PutBE(m.segmentMru, 8), PutBE(m.transferMru, 8), PutBE(|m.nodeId|, 2);
    var tail := m.nodeId + (PutBE(|ext|, 4) + (ext + rest));
    FourFields(Field(m.keepalive, 2), Field(m.segmentMru, 8), Field(m.transferMru, 8), Field(|m.nodeId|, 2));
    InFront([0x07], a, b, c, d);
    var front := a + b + c + d;
    Behind([0x07] + front, m.nodeId, PutBE(|ext|, 4), ext, rest);
    Assoc([0x07], front, tail);
    HeaderSplits(0x07, front + tail);
  }

  lemma InFront(h: seq<byte>, a: seq<byte>, b: seq<byte>, c: seq<byte>, d: seq<byte>)
    ensures h + a + b + c + d == h + (a + b + c + d)
  {
    Assoc(h, a, b);
    Assoc(h, a + b, c);
    Assoc(h, a + b + c, d);
  }

  lemma Behind(p: seq<byte>, a: seq<byte>, b: seq<byte>, c: seq<byte>, d: seq<byte>)
    ensures p + a + b + c + d == p + (a + (b + (c + d)))
  {
    Assoc(p + a + b, c, d);
    Assoc(p + a, b, c + d);
    Assoc(p, a, b + (c + d));
  }

  lemma HeaderSplits(code: byte, body: seq<byte>)
    requires code != CONTACT
    ensures ReadMessage([code] + body) == ReadBody(code, body)
  {
    assert ([code] + body)[1..] == body;
    hide ReadBody;
  }

  lemma ExtendedSegmentRead(m: Message, ext: seq<byte>, rest: seq<byte>)
    requires m.XferSegment? && Held(m) && |ext| < 0x1_0000_0000
    ensures ReadMessage(ExtendedSegment(m, ext) + rest) == Done(m, rest)
  {
    hide PutBE, FieldBytes, ReadFields, Pow256, ReadSegmentHead;
    OneOctet(m.flags);
    ThreeFields(Field(m.flags, 1), Field(m.transferId, 8), Field(|ext|, 4));
    SegmentHeadRead(m.flags, m.transferId, ext, |m.data|, m.data + rest);
    ReadRawWritten(m.data, rest);
    var s := ExtendedSegment(m, ext) + rest;
    assert s == [0x01] + (SegmentHeadBytes(m.flags, m.transferId, ext, |m.data|) + (m.data + rest));
    assert s[1..] == SegmentHeadBytes(m.flags, m.transferId, ext, |m.data|) + (m.data + rest);
    hide ExtendedSegment, SegmentHeadBytes;
    HeaderSplits(0x01, s[1..]);
  }

  /** Octets that start like no message are none, and neither is anything but the six octets of a
      contact header behind a 'd'. */
  lemma OtherOctetsFail(s: seq<byte>)
    ensures s == [] || s[0] == 0 || (s[0] > 0x07 && s[0] != 0x64) ==> ReadMessage(s) == Failed
    ensures s != [] && s[0] == 0x64 ==>
      ReadMessage(s) == if |s| >= 6 && s[..5] == [0x64, 0x74, 0x6E, 0x21, 0x04] then Done(Contact(s[5]), s[6..])
                        else Failed
  {
    if |s| >= 6 {
      assert s[..6][..5] == s[..5];
    }
  }

  /* ---- streams ---- */

  /** Reading goes on behind any well-formed messages as if nothing had been before. */
  lemma {:induction false} StreamGoesOn(ms: seq<Message>, tail: seq<byte>)
    requires forall i :: 0 <= i < |ms| ==> Held(ms[i]) && WellFormed(ms[i])
    ensures ReadStream(StreamBytes(ms) + tail) == (ms + ReadStream(tail).0, ReadStream(tail).1)
  {
    hide MessageBytes, ReadMessage, WellFormed, Held, Panics;
    if ms == [] {
      assert [] + tail == tail && [] + ReadStream(tail).0 == ReadStream(tail).0;
    } else {
      var rest := StreamBytes(ms[1..]) + tail;
      StreamGoesOn(ms[1..], tail);
      MessageRoundTrip(ms[0], rest);
      Assoc(MessageBytes(ms[0]), StreamBytes(ms[1..]), tail);
      ReadsFirst(ms[0], rest);
      assert [ms[0]] + (ms[1..] + ReadStream(tail).0) == ms + ReadStream(tail).0;
    }
  }

  lemma ReadsFirst(m: Message, rest: seq<byte>)
    requires ReadMessage(MessageBytes(m) + rest) == Done(m, rest) && !Panics(MessageBytes(m) + rest)
    ensures var (ms, ending) := ReadStream(rest); ReadStream(MessageBytes(m) + rest) == ([m] + ms, ending)
  {
    hide MessageBytes, ReadMessage, Panics;
  }

  /** How a connection ends behind any well-formed messages, which are all handed on: regularly when
      nothing follows, with an error on octets that start no message or a reason code that is none, and
      with a panic on a segment of more data than a slice can have. */
  lemma StreamEnds(ms: seq<Message>, bad: seq<byte>, flags: u8, id: u64, dataLen: u64)
    requires forall i :: 0 <= i < |ms| ==> Held(ms[i]) && WellFormed(ms[i])
    ensures ReadStream(StreamBytes(ms)) == (ms, AtEnd)
    ensures bad != [] && (bad[0] == 0 || (bad[0] > 0x07 && bad[0] != 0x64)) ==>
      ReadStream(StreamBytes(ms) + bad) == (ms, OnError)
    ensures flags > 6 ==> ReadStream(StreamBytes(ms) + ([0x03, flags] + PutBE(id, 8))) == (ms, OnError)
    ensures dataLen > MAX_LEN ==>
      ReadStream(StreamBytes(ms) + ([XFER_SEGMENT] + (SegmentHeadBytes(flags, id, [], dataLen) + bad))) == (ms, OnPanic)
  {
    hide ReadMessage, PutBE, SegmentHeadBytes, StreamBytes;
    StreamGoesOn(ms, []);
    assert StreamBytes(ms) + [] == StreamBytes(ms) && ms + [] == ms;
    if bad != [] && (bad[0] == 0 || (bad[0] > 0x07 && bad[0] != 0x64)) {
      StreamGoesOn(ms, bad);
      OtherOctetsFail(bad);
    }
    if flags > 6 {
      var refusal := [0x03, flags] + PutBE(id, 8);
      StreamGoesOn(ms, refusal);
      ReadsOctets(XferRefuse(flags, id), []);
      assert refusal + [] == refusal;
    }
    if dataLen > MAX_LEN {
      StreamGoesOn(ms, [XFER_SEGMENT] + (SegmentHeadBytes(flags, id, [], dataLen) + bad));
      PanicsExactly(flags, id, [], dataLen, bad);
    }
  }
}
