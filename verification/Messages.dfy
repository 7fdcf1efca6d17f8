/** The messages of the TCP convergence layer and their wire form: fixed big-endian fields, then
    octets whose length one of the fields announces. */
module Messages {
  import opened Bytes
  import opened Streams

  const XFER_SEGMENT: u8 := 0x01
  const XFER_ACK: u8 := 0x02
  const XFER_REFUSE: u8 := 0x03
  const KEEPALIVE: u8 := 0x04
  const SESS_TERM: u8 := 0x05
  const MSG_REJECT: u8 := 0x06
  const SESS_INIT: u8 := 0x07

  /** The contact header is no message of its own, but starts with an octet of its own. */
  const CONTACT: u8 := 0x64
  const CONTACT_HEAD: seq<byte> := [0x64, 0x74, 0x6E, 0x21, 0x04]

  const SEGMENT_END: u8 := 0x01
  const SEGMENT_START: u8 := 0x02

  datatype Message =
    | SessInit(keepalive: u16, segmentMru: u64, transferMru: u64, nodeId: seq<byte>)
    | SessTerm(termFlags: u8, termReason: u8)
    | XferSegment(flags: u8, transferId: u64, data: seq<byte>)
    | XferAck(ackFlags: u8, ackId: u64, ackLen: u64)
    | XferRefuse(refusal: u8, refusedId: u64)
    | Keepalive
    | MsgReject(rejection: u8, header: u8)
    | Contact(contactFlags: u8)

  predicate ValidRefusal(code: u8) { code <= 0x06 }

  predicate ValidTermination(code: u8) { code <= 0x05 }

  predicate ValidRejection(code: u8) { 0x01 <= code <= 0x03 }

  /** Go strings and slices have int lengths. */
  predicate Held(m: Message) {
    && (m.SessInit? ==> |m.nodeId| <= MAX_LEN)
    && (m.XferSegment? ==> |m.data| <= MAX_LEN)
  }

  /** Reason codes the reader knows, and a node ID whose length fits two octets. */
  predicate WellFormed(m: Message) {
    match m
    case SessInit(_, _, _, nodeId) => |nodeId| < 0x1_0000
    case SessTerm(_, reason) => ValidTermination(reason)
    case XferRefuse(reason, _) => ValidRefusal(reason)
    case MsgReject(reason, _) => ValidRejection(reason)
    case _ => true
  }

  /* ---- fields ---- */

  /** A number and the octets it is written in. */
  datatype Field = Field(value: nat, width: nat)

  function FieldBytes(fields: seq<Field>): seq<byte> {
    if fields == [] then []
    else FieldBytes(fields[..|fields| - 1]) + PutBE(fields[|fields| - 1].value, fields[|fields| - 1].width)
  }

  /** Fields of the given widths, one after the other. */
  function ReadFields(widths: seq<nat>, s: seq<byte>): (p: Parse<seq<nat>>)
    ensures p.Done? ==> |p.value| == |widths| && |p.rest| <= |s|
    ensures p.Done? ==> forall i :: 0 <= i < |widths| ==> p.value[i] < Pow256(widths[i])
  {
    if widths == [] then Done([], s)
    else
      var (front, r0) :- ReadFields(widths[..|widths| - 1], s);
      var (last, r1) :- ReadWord(widths[|widths| - 1], r0);
      Done(front + [last], r1)
  }

  function Widths(fields: seq<Field>): (ws: seq<nat>)
    ensures |ws| == |fields|
    ensures forall i :: 0 <= i < |fields| ==> ws[i] == fields[i].width
  {
    seq(|fields|, i requires 0 <= i < |fields| => fields[i].width)
  }

  /** Each field reads back modulo the power of 256 it was written in. */
  lemma {:induction false} FieldsRoundTrip(fields: seq<Field>, rest: seq<byte>)
    ensures var p := ReadFields(Widths(fields), FieldBytes(fields) + rest);
      && p.Done? && p.rest == rest
      && forall i :: 0 <= i < |fields| ==> p.value[i] == fields[i].value % Pow256(fields[i].width)
  {
    if fields == [] {
      assert [] + rest == rest;
    } else {
      hide PutBE, Pow256, ReadWord, ReadFields, FieldBytes, Widths;
      var front, last := fields[..|fields| - 1], fields[|fields| - 1];
      var word := PutBE(last.value, last.width);
      FieldsRoundTrip(front, word + rest);
      LastField(fields, rest);
      ReadWordWritten(last.value, last.width, rest);
      ReadLastField(Widths(fields), FieldBytes(fields) + rest);
    }
  }

  lemma LastField(fields: seq<Field>, rest: seq<byte>)
    requires fields != []
    ensures var front, last := fields[..|fields| - 1], fields[|fields| - 1];
      && Widths(fields) != [] && Widths(fields)[..|front|] == Widths(front) && Widths(fields)[|front|] == last.width
      && FieldBytes(fields) + rest == FieldBytes(front) + (PutBE(last.value, last.width) + rest)
  {
    hide PutBE;
    var front, last := fields[..|fields| - 1], fields[|fields| - 1];
    assert Widths(fields)[..|front|] == Widths(front);
    Assoc(FieldBytes(front), PutBE(last.value, last.width), rest);
  }

  lemma ReadLastField(widths: seq<nat>, s: seq<byte>)
    requires widths != [] && ReadFields(widths[..|widths| - 1], s).Done?
    requires var front := ReadFields(widths[..|widths| - 1], s); ReadWord(widths[|widths| - 1], front.rest).Done?
    ensures var front := ReadFields(widths[..|widths| - 1], s);
            var last := ReadWord(widths[|widths| - 1], front.rest);
            ReadFields(widths, s) == Done(front.value + [last.value], last.rest)
  {
    hide ReadWord, Pow256;
  }

  /** Fields that fit their width read back as they are. */
  lemma ExactFields(fields: seq<Field>, widths: seq<nat>, values: seq<nat>, rest: seq<byte>)
    requires |fields| == |widths| == |values|
    requires forall i :: 0 <= i < |fields| ==> fields[i] == Field(values[i], widths[i]) && values[i] < Pow256(widths[i])
    ensures ReadFields(widths, FieldBytes(fields) + rest) == Done(values, rest)
  {
    hide FieldBytes, ReadFields, Pow256;
    FieldsRoundTrip(fields, rest);
    assert Widths(fields) == widths;
    var p := ReadFields(widths, FieldBytes(fields) + rest);
    forall i | 0 <= i < |values| ensures p.value[i] == values[i] {
      SmallMod(values[i], Pow256(widths[i]));
    }
    assert p.value == values;
  }

  /* ---- messages ---- */

  function Code(m: Message): u8 {
    match m
    case SessInit(_, _, _, _) => SESS_INIT
    case SessTerm(_, _) => SESS_TERM
    case XferSegment(_, _, _) => XFER_SEGMENT
    case XferAck(_, _, _) => XFER_ACK
    case XferRefuse(_, _) => XFER_REFUSE
    case Keepalive => KEEPALIVE
    case MsgReject(_, _) => MSG_REJECT
    case Contact(_) => CONTACT
  }

  /** The fixed fields of a message behind its header octet. */
  function Fields(m: Message): seq<Field>
    requires !m.Contact?
  {
    match m
    case SessInit(keepalive, segmentMru, transferMru, nodeId) =>
      [Field(keepalive, 2), Field(segmentMru, 8), Field(transferMru, 8), Field(|nodeId|, 2)]
    case SessTerm(flags, reason) => [Field(flags, 1), Field(reason, 1)]
    case XferSegment(flags, id, data) => [Field(flags, 1), Field(id, 8), Field(0, 4), Field(|data|, 8)]
    case XferAck(flags, id, len) => [Field(flags, 1), Field(id, 8), Field(len, 8)]
    case XferRefuse(reason, id) => [Field(reason, 1), Field(id, 8)]
    case Keepalive => []
    case MsgReject(reason, header) => [Field(reason, 1), Field(header, 1)]
  }

  /** The octets behind the fixed fields. */
  function Trailer(m: Message): seq<byte> {
    match m
    case SessInit(_, _, _, nodeId) => nodeId + PutBE(0, 4)
    case XferSegment(_, _, data) => data
    case _ => []
  }

  /** Marshal. */
  function MessageBytes(m: Message): (bs: seq<byte>)
    ensures bs != [] && bs[0] == Code(m)
  {
    if m.Contact? then CONTACT_HEAD + [m.contactFlags]
    else [Code(m)] + (FieldBytes(Fields(m)) + Trailer(m))
  }

  function ReadSessInit(s: seq<byte>): (p: Parse<Message>)
    ensures p.Done? ==> |p.rest| <= |s|
  {
    Pow256Words();
    var (f, r0) :- ReadFields([2, 8, 8, 2], s);
    var (nodeId, r1) :- ReadRaw(f[3], r0);
    var (extLen, r2) :- ReadWord(4, r1);
    var (_, r3) :- ReadRaw(extLen, r2);
    Done(SessInit(f[0], f[1], f[2], nodeId), r3)
  }

  datatype SegmentHead = SegmentHead(flags: u8, transferId: u64, dataLen: u64)

  /** A segment up to its data, the extension items skipped. */
  function ReadSegmentHead(s: seq<byte>): (p: Parse<SegmentHead>)
    ensures p.Done? ==> |p.rest| <= |s|
  {
    Pow256Words();
    var (f, r0) :- ReadFields([1, 8, 4], s);
    var (_, r1) :- ReadRaw(f[2], r0);
    var (dataLen, r2) :- ReadWord(8, r1);
    Done(SegmentHead(f[0], f[1], dataLen), r2)
  }

  function ReadSegment(s: seq<byte>): (p: Parse<Message>)
    ensures p.Done? ==> |p.rest| <= |s|
  {
    var (h, r0) :- ReadSegmentHead(s);
    if h.dataLen > MAX_LEN then Failed
    else
      var (data, r1) :- ReadRaw(h.dataLen, r0);
      Done(XferSegment(h.flags, h.transferId, data), r1)
  }

  /** Whether a segment announces more data than a slice can have, whose allocation panics. */
  predicate Oversized(s: seq<byte>) {
    var p := ReadSegmentHead(s);
    p.Done? && p.value.dataLen > MAX_LEN
  }

  /** The Unmarshal of one message type, behind its header octet. */
  function ReadBody(code: u8, s: seq<byte>): (p: Parse<Message>)
    ensures p.Done? ==> |p.rest| <= |s|
  {
    Pow256Words();
    if code == SESS_INIT then ReadSessInit(s)
    else if code == SESS_TERM then
      var (f, rest) :- ReadFields([1, 1], s);
      if ValidTermination(f[1]) then Done(SessTerm(f[0], f[1]), rest) else Failed
    else if code == XFER_SEGMENT then ReadSegment(s)
    else if code == XFER_ACK then
      var (f, rest) :- ReadFields([1, 8, 8], s);
      Done(XferAck(f[0], f[1], f[2]), rest)
    else if code == XFER_REFUSE then
      var (f, rest) :- ReadFields([1, 8], s);
      if ValidRefusal(f[0]) then Done(XferRefuse(f[0], f[1]), rest) else Failed
    else if code == KEEPALIVE then Done(Keepalive, s)
    else if code == MSG_REJECT then
      var (f, rest) :- ReadFields([1, 1], s);
      if ValidRejection(f[0]) then Done(MsgReject(f[0], f[1]), rest) else Failed
    else Failed
  }

  function ReadContact(s: seq<byte>): (p: Parse<Message>)
    ensures p.Done? ==> |p.rest| < |s|
  {
    var (data, rest) :- ReadRaw(6, s);
    if data[..5] == CONTACT_HEAD then Done(Contact(data[5]), rest) else Failed
  }

  /** ReadMessage: the first octet selects the type and is read again by it. */
  function ReadMessage(s: seq<byte>): (p: Parse<Message>)
    ensures p.Done? ==> |p.rest| < |s|
  {
    if s == [] then Failed
    else if s[0] == CONTACT then ReadContact(s)
    else ReadBody(s[0], s[1..])
  }

  /** What Unmarshal comes to: a panic, an error or the message. */
  function Judged(panics: bool, p: Parse<Message>): Outcome<Message> {
    if panics then Panic else if p.Done? then Outcome.Value(p.value) else Error
  }

  /** Whether reading the next message panics. */
  predicate Panics(s: seq<byte>) {
    s != [] && s[0] == XFER_SEGMENT && Oversized(s[1..])
  }

  /* ---- one message ---- */

  /** The octets of a segment in front of its data, with a list of extension items. */
  function SegmentHeadBytes(flags: u8, id: u64, ext: seq<byte>, dataLen: u64): seq<byte> {
    FieldBytes([Field(flags, 1), Field(id, 8), Field(|ext|, 4)]) + (ext + PutBE(dataLen, 8))
  }

  /** The head of a segment reads back, whatever the extension items it skips, data lengths that no
      slice can have included. */
  lemma SegmentHeadRead(flags: u8, id: u64, ext: seq<byte>, dataLen: u64, rest: seq<byte>)
    requires |ext| < 0x1_0000_0000
    ensures ReadSegmentHead(SegmentHeadBytes(flags, id, ext, dataLen) + rest)
         == Done(SegmentHead(flags, id, dataLen), rest)
  {
    var fields := [Field(flags, 1), Field(id, 8), Field(|ext|, 4)];
    var len := PutBE(dataLen, 8);
    Pow256Words();
    hide FieldBytes, ReadFields, Pow256, PutBE;
    Assoc(FieldBytes(fields), ext + len, rest);
    Assoc(ext, len, rest);
    ExactFields(fields, [1, 8, 4], [flags, id, |ext|], ext + (len + rest));
    ReadRawWritten(ext, len + rest);
    ReadWordExact(dataLen, 8, rest);
  }

  /** Reading a segment panics exactly when its data length is more than a slice can have, whatever
      extension items are in front of it and whatever follows. */
  lemma PanicsExactly(flags: u8, id: u64, ext: seq<byte>, dataLen: u64, rest: seq<byte>)
    requires |ext| < 0x1_0000_0000
    ensures Panics([XFER_SEGMENT] + (SegmentHeadBytes(flags, id, ext, dataLen) + rest)) <==> dataLen > MAX_LEN
  {
    hide SegmentHeadBytes, ReadSegmentHead;
    var body := SegmentHeadBytes(flags, id, ext, dataLen) + rest;
    assert ([XFER_SEGMENT] + body)[1..] == body;
    SegmentHeadRead(flags, id, ext, dataLen, rest);
  }

  /** The head of a segment as it is written, with no extension items. */
  lemma SegmentHeadRoundTrip(flags: u8, id: u64, dataLen: u64, rest: seq<byte>)
    ensures ReadSegmentHead(FieldBytes([Field(flags, 1), Field(id, 8), Field(0, 4), Field(dataLen, 8)]) + rest)
         == Done(SegmentHead(flags, id, dataLen), rest)
  {
    var fields := [Field(flags, 1), Field(id, 8), Field(0, 4)];
    assert [Field(flags, 1), Field(id, 8), Field(0, 4), Field(dataLen, 8)][..3] == fields;
    assert [] + PutBE(dataLen, 8) == PutBE(dataLen, 8);
    assert FieldBytes([Field(flags, 1), Field(id, 8), Field(0, 4), Field(dataLen, 8)])
        == SegmentHeadBytes(flags, id, [], dataLen);
    hide FieldBytes, ReadSegmentHead, SegmentHeadBytes, PutBE;
    SegmentHeadRead(flags, id, [], dataLen, rest);
  }

  lemma SegmentRoundTrip(m: Message, rest: seq<byte>)
    requires m.XferSegment? && Held(m)
    ensures ReadSegment(FieldBytes(Fields(m)) + (m.data + rest)) == Done(m, rest)
    ensures !Oversized(FieldBytes(Fields(m)) + (m.data + rest))
  {
    SegmentHeadRoundTrip(m.flags, m.transferId, |m.data|, m.data + rest);
    hide FieldBytes, ReadSegmentHead;
    ReadRawWritten(m.data, rest);
  }

  lemma SessInitFields(m: Message, rest: seq<byte>)
    requires m.SessInit?
    ensures ReadFields([2, 8, 8, 2], FieldBytes(Fields(m)) + rest)
         == Done([m.keepalive, m.segmentMru, m.transferMru, |m.nodeId| % 0x1_0000], rest)
  {
    hide FieldBytes, ReadFields, Pow256, PutBE;
    Pow256Words();
    FieldsRoundTrip(Fields(m), rest);
    assert Widths(Fields(m)) == [2, 8, 8, 2];
    var p := ReadFields([2, 8, 8, 2], FieldBytes(Fields(m)) + rest);
    SmallMod(m.keepalive, Pow256(2));
    SmallMod(m.segmentMru, Pow256(8));
    SmallMod(m.transferMru, Pow256(8));
    assert p.value == [m.keepalive, m.segmentMru, m.transferMru, |m.nodeId| % 0x1_0000];
  }

  /** The length of a longer node ID is cut to two octets, so another one is read. */
  lemma SessInitRead(m: Message, rest: seq<byte>)
    requires m.SessInit?
    ensures var p := ReadSessInit(FieldBytes(Fields(m)) + (m.nodeId + (PutBE(0, 4) + rest)));
            if |m.nodeId| < 0x1_0000 then p == Done(m, rest) else p.Done? ==> p.value != m
  {
    hide FieldBytes, ReadFields, Pow256, PutBE, Fields, GetBE;
    var ext := PutBE(0, 4) + rest;
    Pow256Words();
    SessInitFields(m, m.nodeId + ext);
    if |m.nodeId| < 0x1_0000 {
      SmallMod(|m.nodeId|, 0x1_0000);
      ReadRawWritten(m.nodeId, ext);
      ReadWordExact(0, 4, rest);
      ReadRawWritten([], rest);
      assert [] + rest == rest;
    }
  }

  lemma FixedRoundTrip(m: Message, rest: seq<byte>)
    requires !m.SessInit? && !m.XferSegment? && !m.Contact?
    ensures ReadBody(Code(m), FieldBytes(Fields(m)) + rest) == if WellFormed(m) then Done(m, rest) else Failed
  {
    Pow256Words();
    if m.Keepalive? {
      assert FieldBytes(Fields(m)) + rest == rest;
    }
    hide FieldBytes, ReadFields, Pow256, ReadSessInit, ReadSegment;
    match m
    case SessTerm(flags, reason) => ExactFields(Fields(m), [1, 1], [flags, reason], rest);
    case XferAck(flags, id, len) => ExactFields(Fields(m), [1, 8, 8], [flags, id, len], rest);
    case XferRefuse(reason, id) => ExactFields(Fields(m), [1, 8], [reason, id], rest);
    case MsgReject(reason, header) => ExactFields(Fields(m), [1, 1], [reason, header], rest);
    case Keepalive =>
  }

  lemma ContactRoundTrip(m: Message, rest: seq<byte>)
    requires m.Contact?
    ensures ReadContact(MessageBytes(m) + rest) == Done(m, rest)
  {
    ReadRawWritten(MessageBytes(m), rest);
    assert MessageBytes(m)[..5] == CONTACT_HEAD;
  }

  /** A message reads back, leaving what follows, exactly when it is well-formed. */
  lemma MessageRoundTrip(m: Message, rest: seq<byte>)
    requires Held(m)
    ensures WellFormed(m) ==> ReadMessage(MessageBytes(m) + rest) == Done(m, rest)
    ensures !WellFormed(m) ==> var p := ReadMessage(MessageBytes(m) + rest); p.Done? ==> p.value != m
    ensures !Panics(MessageBytes(m) + rest)
  {
    hide MessageBytes, ReadMessage, Panics, WellFormed;
    if m.Contact? {
      ContactRoundTrip(m, rest);
      ContactIsWellFormed(m, rest);
    } else if m.SessInit? {
      SessInitRoundTrip(m, rest);
    } else if m.XferSegment? {
      WholeSegmentRoundTrip(m, rest);
    } else {
      FixedMessageRoundTrip(m, rest);
    }
  }

  lemma ContactIsWellFormed(m: Message, rest: seq<byte>)
    requires m.Contact?
    ensures WellFormed(m) && !Panics(MessageBytes(m) + rest)
    ensures ReadMessage(MessageBytes(m) + rest) == ReadContact(MessageBytes(m) + rest)
  {
    hide Oversized;
  }

  lemma SessInitRoundTrip(m: Message, rest: seq<byte>)
    requires m.SessInit?
    ensures WellFormed(m) ==> ReadMessage(MessageBytes(m) + rest) == Done(m, rest)
    ensures !WellFormed(m) ==> var p := ReadMessage(MessageBytes(m) + rest); p.Done? ==> p.value != m
    ensures !Panics(MessageBytes(m) + rest)
  {
    hide FieldBytes, Fields, ReadSessInit, ReadSegment, PutBE, Oversized;
    BehindHeader(Code(m), FieldBytes(Fields(m)), Trailer(m), rest);
    Assoc(m.nodeId, PutBE(0, 4), rest);
    SessInitRead(m, rest);
  }

  lemma WholeSegmentRoundTrip(m: Message, rest: seq<byte>)
    requires m.XferSegment? && Held(m)
    ensures WellFormed(m) && ReadMessage(MessageBytes(m) + rest) == Done(m, rest)
    ensures !Panics(MessageBytes(m) + rest)
  {
    hide FieldBytes, Fields, ReadSegment, PutBE, Oversized;
    BehindHeader(Code(m), FieldBytes(Fields(m)), Trailer(m), rest);
    SegmentRoundTrip(m, rest);
  }

  lemma FixedMessageRoundTrip(m: Message, rest: seq<byte>)
    requires !m.SessInit? && !m.XferSegment? && !m.Contact?
    ensures ReadMessage(MessageBytes(m) + rest) == if WellFormed(m) then Done(m, rest) else Failed
    ensures !Panics(MessageBytes(m) + rest)
  {
    hide FieldBytes, Fields, ReadBody, PutBE, Oversized, WellFormed;
    BehindHeader(Code(m), FieldBytes(Fields(m)), Trailer(m), rest);
    assert [] + rest == rest;
    FixedRoundTrip(m, rest);
  }

  lemma BehindHeader(code: u8, body: seq<byte>, trailer: seq<byte>, rest: seq<byte>)
    ensures var s := [code] + (body + trailer) + rest; s[0] == code && s[1..] == body + (trailer + rest)
  {
    Assoc(body, trailer, rest);
    assert ([code] + (body + trailer) + rest)[1..] == body + trailer + rest;
  }

  /* ---- streams ---- */

  function StreamBytes(ms: seq<Message>): seq<byte> {
    if ms == [] then [] else MessageBytes(ms[0]) + StreamBytes(ms[1..])
  }

  /** How a connection ends: with nothing left, with an error or with a panic. */
  datatype Ending = AtEnd | OnError | OnPanic

  /** ReadMessage again and again: the messages until reading ends, and how it does. */
  function ReadStream(s: seq<byte>): (seq<Message>, Ending)
    decreases |s|
  {
    if s == [] then ([], AtEnd)
    else if Panics(s) then ([], OnPanic)
    else
      match ReadMessage(s)
      case Done(m, rest) =>
        var (ms, ending) := ReadStream(rest);
        ([m] + ms, ending)
      case _ => ([], OnError)
  }

  /** A stream of encodings reads as exactly the messages that were written, down to the last
      octet, exactly when they are all well-formed. */
  lemma {:induction false} StreamRoundTrip(ms: seq<Message>)
    requires forall i :: 0 <= i < |ms| ==> Held(ms[i])
    ensures ReadStream(StreamBytes(ms)) == (ms, AtEnd) <==> forall i :: 0 <= i < |ms| ==> WellFormed(ms[i])
  {
    hide MessageBytes, ReadMessage, WellFormed, Held, Panics;
    if ms != [] {
      StreamRoundTrip(ms[1..]);
      MessageRoundTrip(ms[0], StreamBytes(ms[1..]));
      assert ms == [ms[0]] + ms[1..];
    }
  }

  /* ---- the program ---- */

  /** The loop of every Marshal over its fields. */
  method WriteFields(fields: seq<Field>, w: Writer)
    modifies w
    ensures w.out == old(w.out) + FieldBytes(fields)
  {
    var i := 0;
    while i < |fields|
      invariant 0 <= i <= |fields|
      invariant w.out == old(w.out) + FieldBytes(fields[..i])
    {
      assert fields[..i + 1][..i] == fields[..i];
      Assoc(old(w.out), FieldBytes(fields[..i]), PutBE(fields[i].value, fields[i].width));
      w.Write(PutBE(fields[i].value, fields[i].width));
      i := i + 1;
    }
    assert fields[..i] == fields;
  }

  /** Marshal. */
  method Marshal(m: Message, w: Writer)
    modifies w
    ensures w.out == old(w.out) + MessageBytes(m)
  {
    if m.Contact? {
      w.Write(CONTACT_HEAD + [m.contactFlags]);
    } else {
      w.Write([Code(m)]);
      WriteFields(Fields(m), w);
      w.Write(Trailer(m));
      Assoc(old(w.out) + [Code(m)], FieldBytes(Fields(m)), Trailer(m));
      Assoc(old(w.out), [Code(m)], FieldBytes(Fields(m)) + Trailer(m));
    }
  }

  /** The loop of every Unmarshal over its fields. */
  method PullFields(widths: seq<nat>, r: Reader) returns (p: Parse<seq<nat>>)
    modifies r
    ensures p == ReadFields(widths, old(r.data))
    ensures p.Done? ==> r.data == p.rest
  {
    var values: seq<nat> := [];
    var i := 0;
    while i < |widths|
      invariant 0 <= i <= |widths|
      invariant ReadFields(widths[..i], old(r.data)) == Done(values, r.data)
    {
      assert widths[..i + 1][..i] == widths[..i];
      var word := r.Pull(s => ReadWord(widths[i], s));
      if !word.Done? {
        FieldsStop(widths, i, old(r.data));
        return Failed;
      }
      values := values + [word.value];
      i := i + 1;
    }
    assert widths[..i] == widths;
    p := Done(values, r.data);
  }

  lemma {:induction false} FieldsStop(widths: seq<nat>, i: nat, s: seq<byte>)
    requires i < |widths| && ReadFields(widths[..i + 1], s) == Failed
    ensures ReadFields(widths, s) == Failed
    decreases |widths|
  {
    if i + 1 < |widths| {
      assert widths[..|widths| - 1][..i + 1] == widths[..i + 1];
      FieldsStop(widths[..|widths| - 1], i, s);
    } else {
      assert widths[..i + 1] == widths;
    }
  }

  /** SessionInitMessage.Unmarshal. */
  method UnmarshalSessInit(r: Reader) returns (p: Parse<Message>)
    modifies r
    ensures p == ReadSessInit(old(r.data))
    ensures p.Done? ==> r.data == p.rest
  {
    Pow256Words();
    var f :- PullFields([2, 8, 8, 2], r);
    var nodeId :- r.Pull(s => ReadRaw(f.0[3], s));
    var extLen :- r.Pull(s => ReadWord(4, s));
    var ext :- r.Pull(s => ReadRaw(extLen.0, s));
    p := Done(SessInit(f.0[0], f.0[1], f.0[2], nodeId.0), r.data);
  }

  /** DataTransmissionMessage.Unmarshal. */
  method UnmarshalSegment(r: Reader) returns (m: Outcome<Message>)
    modifies r
    ensures m == Judged(Oversized(old(r.data)), ReadSegment(old(r.data)))
    ensures m.Value? ==> r.data == ReadSegment(old(r.data)).rest
  {
    Pow256Words();
    var f := PullFields([1, 8, 4], r);
    if !f.Done? {
      return Error;
    }
    var ext := r.Pull(s => ReadRaw(f.value[2], s));
    if !ext.Done? {
      return Error;
    }
    var dataLen := r.Pull(s => ReadWord(8, s));
    if !dataLen.Done? {
      return Error;
    }
    if dataLen.value > MAX_LEN {
      return Panic;
    }
    var data := r.Pull(s => ReadRaw(dataLen.value, s));
    m := if data.Done? then Outcome.Value(XferSegment(f.value[0], f.value[1], data.value)) else Error;
  }

  /** The other messages' Unmarshal. */
  method UnmarshalBody(code: u8, r: Reader) returns (p: Parse<Message>)
    requires code != XFER_SEGMENT
    modifies r
    ensures p == ReadBody(code, old(r.data))
    ensures p.Done? ==> r.data == p.rest
  {
    Pow256Words();
    if code == SESS_INIT {
      p := UnmarshalSessInit(r);
    } else if code == SESS_TERM {
      var f :- PullFields([1, 1], r);
      p := if ValidTermination(f.0[1]) then Done(SessTerm(f.0[0], f.0[1]), r.data) else Failed;
    } else if code == XFER_ACK {
      var f :- PullFields([1, 8, 8], r);
      p := Done(XferAck(f.0[0], f.0[1], f.0[2]), r.data);
    } else if code == XFER_REFUSE {
      var f :- PullFields([1, 8], r);
      p := if ValidRefusal(f.0[0]) then Done(XferRefuse(f.0[0], f.0[1]), r.data) else Failed;
    } else if code == KEEPALIVE {
      p := Done(Keepalive, r.data);
    } else if code == MSG_REJECT {
      var f :- PullFields([1, 1], r);
      p := if ValidRejection(f.0[0]) then Done(MsgReject(f.0[0], f.0[1]), r.data) else Failed;
    } else {
      p := Failed;
    }
  }

  /** ReadMessage: the header octet read first is put in front again for the contact header. */
  method NextMessage(r: Reader) returns (m: Outcome<Message>)
    modifies r
    ensures m == Judged(Panics(old(r.data)), ReadMessage(old(r.data)))
    ensures m.Value? ==> r.data == ReadMessage(old(r.data)).rest
  {
    if r.data == [] {
      return Error;
    }
    if r.data[0] == CONTACT {
      var p := r.Pull(ReadContact);
      return Judged(false, p);
    }
    var head := r.Pull(s => ReadRaw(1, s));
    if head.value[0] == XFER_SEGMENT {
      m := UnmarshalSegment(r);
    } else {
      var p := UnmarshalBody(head.value[0], r);
      m := Judged(false, p);
    }
  }

  lemma StreamResume(s: seq<byte>, before: seq<Message>)
    requires s != []
    ensures match Judged(Panics(s), ReadMessage(s))
      case Value(m) => Behind(before, ReadStream(s)) == Behind(before + [m], ReadStream(ReadMessage(s).rest))
      case Error => ReadStream(s) == ([], OnError)
      case Panic => ReadStream(s) == ([], OnPanic)
  {
    hide Panics, ReadMessage;
    if Judged(Panics(s), ReadMessage(s)).Value? {
      var m, ms := ReadMessage(s).value, ReadStream(ReadMessage(s).rest).0;
      assert before + ([m] + ms) == before + [m] + ms;
    }
  }

  function Behind(before: seq<Message>, r: (seq<Message>, Ending)): (seq<Message>, Ending) {
    (before + r.0, r.1)
  }

  lemma BehindNothing(before: seq<Message>, r: (seq<Message>, Ending))
    ensures Behind([], r) == r && Behind(before, ([], r.1)) == (before, r.1)
  {
    assert [] + r.0 == r.0 && before + [] == before;
  }

  /** Reading a whole connection: every message is handed on before the next one is read. */
  method ReadAll(r: Reader) returns (ms: seq<Message>, ending: Ending)
    modifies r
    ensures (ms, ending) == ReadStream(old(r.data))
  {
    hide ReadMessage, Panics, Behind;
    ms := [];
    BehindNothing([], ReadStream(r.data));
    while r.data != []
      invariant Behind(ms, ReadStream(r.data)) == ReadStream(old(r.data))
      decreases |r.data|
    {
      StreamResume(r.data, ms);
      BehindNothing(ms, ReadStream(r.data));
      var m := NextMessage(r);
      if !m.Value? {
        return ms, if m.Error? then OnError else OnPanic;
      }
      ms := ms + [m.value];
    }
    BehindNothing(ms, ([], AtEnd));
    ending := AtEnd;
  }
}
