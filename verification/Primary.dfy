/** The primary block's CBOR form and its validity check. */
module Primary {
  import opened Bytes
  import opened Cbor
  import opened Endpoint
  import opened Blocks

  predicate WritablePrimary(p: PrimaryBlock) {
    && p.crcType <= CRC_32
    && Valid(p.destination) && Fits(p.destination)
    && Valid(p.source) && Fits(p.source)
    && Valid(p.reportTo) && Fits(p.reportTo)
  }

  predicate IsFragment(p: PrimaryBlock) { Has(p.flags, IS_FRAGMENT) }

  function ArrayLen(p: PrimaryBlock): (n: u64)
    ensures n == 8 || n == 9 || n == 10 || n == 11
  {
    (if IsFragment(p) then 10 else 8) + (if p.crcType == CRC_NO then 0 else 1)
  }

  function PutHead(p: PrimaryBlock, tail: seq<byte>): seq<byte> {
    Head(ARRAY, ArrayLen(p)) + PutUInt(DTN_VERSION, PutUInt(p.flags, PutUInt(p.crcType, tail)))
  }

  function PutEndpoints(p: PrimaryBlock, tail: seq<byte>): seq<byte>
    requires WritablePrimary(p)
  {
    EndpointBytes(p.destination) + (EndpointBytes(p.source) + (EndpointBytes(p.reportTo) + tail))
  }

  function PutFragment(p: PrimaryBlock, tail: seq<byte>): seq<byte> {
    if IsFragment(p) then PutUInt(p.fragmentOffset, PutUInt(p.totalDataLength, tail)) else tail
  }

  function PutTimes(p: PrimaryBlock, tail: seq<byte>): seq<byte> {
    Head(ARRAY, 2) + PutUInt(p.time, PutUInt(p.sequenceNumber, PutUInt(p.lifetime, PutFragment(p, tail))))
  }

  function PutBody(p: PrimaryBlock, tail: seq<byte>): seq<byte>
    requires WritablePrimary(p)
  {
    PutHead(p, PutEndpoints(p, PutTimes(p, tail)))
  }

  /** PrimaryBlock.MarshalCbor. */
  function PrimaryBytes(env: Env, p: PrimaryBlock): seq<byte>
    requires WritablePrimary(p)
  {
    PutBody(p, []) + CrcField(env, p.crcType, PutBody(p, []))
  }

  datatype HeadFields = HeadFields(arrayLen: u64, flags: u64, crcType: u64)
  datatype EndpointFields = EndpointFields(destination: EndpointID, source: EndpointID, reportTo: EndpointID)
  datatype TimeFields = TimeFields(time: u64, sequenceNumber: u64, lifetime: u64, offset: u64, total: u64)

  function ReadHeadFields(s: seq<byte>): (p: Parse<HeadFields>)
    ensures p.Done? ==> |p.rest| < |s| && 8 <= p.value.arrayLen <= 11
  {
    var (n, r0) :- ReadArrayLength(s);
    if !(8 <= n <= 11) then Failed
    else
      var (version, r1) :- ReadUInt(r0);
      if version != DTN_VERSION then Failed
      else
        var (flags, r2) :- ReadUInt(r1);
        var (crcType, r3) :- ReadUInt(r2);
        Done(HeadFields(n, flags, crcType), r3)
  }

  function ReadEndpoints(s: seq<byte>): (p: Parse<EndpointFields>)
    ensures p.Done? ==> |p.rest| < |s|
  {
    var (destination, r0) :- ReadEndpoint(s).Wrapped();
    var (source, r1) :- ReadEndpoint(r0).Wrapped();
    var (reportTo, r2) :- ReadEndpoint(r1).Wrapped();
    Done(EndpointFields(destination, source, reportTo), r2)
  }

  function ReadTimestamp(s: seq<byte>): (p: Parse<(u64, u64)>)
    ensures p.Done? ==> |p.rest| < |s|
  {
    var (n, r0) :- ReadArrayLength(s);
    if n != 2 then Failed
    else
      var (time, r1) :- ReadUInt(r0);
      var (sequenceNumber, r2) :- ReadUInt(r1);
      Done((time, sequenceNumber), r2)
  }

  function ReadFragmentFields(present: bool, s: seq<byte>): (p: Parse<(u64, u64)>)
    ensures p.Done? ==> |p.rest| <= |s|
  {
    if !present then Done((0, 0), s)
    else
      var (offset, r0) :- ReadUInt(s);
      var (total, r1) :- ReadUInt(r0);
      Done((offset, total), r1)
  }

  function ReadTimes(arrayLen: u64, s: seq<byte>): (p: Parse<TimeFields>)
    ensures p.Done? ==> |p.rest| < |s|
  {
    var (stamp, r0) :- ReadTimestamp(s).Wrapped();
    var (lifetime, r1) :- ReadUInt(r0);
    var (frag, r2) :- ReadFragmentFields(arrayLen == 10 || arrayLen == 11, r1);
    Done(TimeFields(stamp.0, stamp.1, lifetime, frag.0, frag.1), r2)
  }

  function Assemble(h: HeadFields, e: EndpointFields, t: TimeFields): PrimaryBlock {
    PrimaryBlock(DTN_VERSION, h.flags, h.crcType, e.destination, e.source, e.reportTo,
                 t.time, t.sequenceNumber, t.lifetime, t.offset, t.total)
  }

  /** Everything before the checksum, with the announced array length. */
  function ReadFields(s: seq<byte>): (p: Parse<(u64, PrimaryBlock)>)
    ensures p.Done? ==> |p.rest| < |s|
  {
    var (h, r0) :- ReadHeadFields(s);
    var (e, r1) :- ReadEndpoints(r0);
    var (t, r2) :- ReadTimes(h.arrayLen, r1);
    Done((h.arrayLen, Assemble(h, e, t)), r2)
  }

  /** PrimaryBlock.UnmarshalCbor: whether fragment fields and a checksum follow is decided by the
      array length alone. */
  function ReadPrimary(env: Env, s: seq<byte>): (p: Parse<PrimaryBlock>)
    ensures p.Done? ==> |p.rest| < |s|
  {
    match ReadFields(s)
    case Done(fields, rest) => ReadTail(env, fields, s[..|s| - |rest|], rest)
    case Broke(after) => Broke(after)
    case Failed => Failed
  }

  /** The checksum, if the array length announces one. */
  function ReadTail(env: Env, fields: (u64, PrimaryBlock), crcBuff: seq<byte>, s: seq<byte>): (p: Parse<PrimaryBlock>)
    ensures p.Done? ==> |p.rest| <= |s|
  {
    if fields.0 == 9 || fields.0 == 11 then
      var (_, rest) :- ReadCrc(env, fields.1.crcType, crcBuff, s);
      Done(fields.1, rest)
    else Done(fields.1, s)
  }

  /** What a primary block turns into when it is written and read again. */
  function ReadBackPrimary(p: PrimaryBlock): PrimaryBlock
    requires WritablePrimary(p)
  {
    p.(version := DTN_VERSION,
       destination := Canon(p.destination), source := Canon(p.source), reportTo := Canon(p.reportTo),
       fragmentOffset := if IsFragment(p) then p.fragmentOffset else 0,
       totalDataLength := if IsFragment(p) then p.totalDataLength else 0)
  }

  predicate NormalPrimary(p: PrimaryBlock) {
    && p.version == DTN_VERSION
    && Normal(p.destination) && Normal(p.source) && Normal(p.reportTo)
    && (!IsFragment(p) ==> p.fragmentOffset == 0 && p.totalDataLength == 0)
  }

  lemma ReadBackFixedPoint(p: PrimaryBlock)
    requires WritablePrimary(p)
    ensures ReadBackPrimary(p) == p <==> NormalPrimary(p)
  {
    CanonFixedPoint(p.destination);
    CanonFixedPoint(p.source);
    CanonFixedPoint(p.reportTo);
  }

  lemma HeadFieldsRoundTrip(p: PrimaryBlock, tail: seq<byte>)
    ensures ReadHeadFields(PutHead(p, tail)) == Done(HeadFields(ArrayLen(p), p.flags, p.crcType), tail)
  {
    var t1 := PutUInt(p.crcType, tail);
    var t0 := PutUInt(p.flags, t1);
    HeadRoundTrip(ARRAY, ArrayLen(p), PutUInt(DTN_VERSION, t0));
    PutUIntRead(DTN_VERSION, t0);
    PutUIntRead(p.flags, t1);
    PutUIntRead(p.crcType, tail);
  }

  lemma EndpointsRoundTrip(p: PrimaryBlock, tail: seq<byte>)
    requires WritablePrimary(p)
    ensures ReadEndpoints(PutEndpoints(p, tail))
         == Done(EndpointFields(Canon(p.destination), Canon(p.source), Canon(p.reportTo)), tail)
  {
    var t1 := EndpointBytes(p.reportTo) + tail;
    var t0 := EndpointBytes(p.source) + t1;
    EndpointRoundTrip(p.destination, t0);
    EndpointRoundTrip(p.source, t1);
    EndpointRoundTrip(p.reportTo, tail);
  }

  function WrittenTimes(p: PrimaryBlock): TimeFields {
    TimeFields(p.time, p.sequenceNumber, p.lifetime,
               if IsFragment(p) then p.fragmentOffset else 0, if IsFragment(p) then p.totalDataLength else 0)
  }

  lemma TimesRoundTrip(p: PrimaryBlock, tail: seq<byte>)
    ensures ReadTimes(ArrayLen(p), PutTimes(p, tail)) == Done(WrittenTimes(p), tail)
  {
    var t2 := PutFragment(p, tail);
    var t1 := PutUInt(p.lifetime, t2);
    var t0 := PutUInt(p.sequenceNumber, t1);
    HeadRoundTrip(ARRAY, 2, PutUInt(p.time, t0));
    PutUIntRead(p.time, t0);
    PutUIntRead(p.sequenceNumber, t1);
    PutUIntRead(p.lifetime, t2);
    if IsFragment(p) {
      PutUIntRead(p.fragmentOffset, PutUInt(p.totalDataLength, tail));
      PutUIntRead(p.totalDataLength, tail);
    }
  }

  lemma PutTimesAppend(p: PrimaryBlock, tail: seq<byte>, more: seq<byte>)
    ensures PutTimes(p, tail) + more == PutTimes(p, tail + more)
  {
    if IsFragment(p) {
      PutUIntAppend(p.totalDataLength, tail, more);
      PutUIntAppend(p.fragmentOffset, PutUInt(p.totalDataLength, tail), more);
    }
    var t2 := PutFragment(p, tail);
    var t1 := PutUInt(p.lifetime, t2);
    var t0 := PutUInt(p.sequenceNumber, t1);
    PutUIntAppend(p.lifetime, t2, more);
    PutUIntAppend(p.sequenceNumber, t1, more);
    PutUIntAppend(p.time, t0, more);
    assert PutTimes(p, tail) + more == Head(ARRAY, 2) + (PutUInt(p.time, t0) + more);
  }

  lemma PutEndpointsAppend(p: PrimaryBlock, tail: seq<byte>, more: seq<byte>)
    requires WritablePrimary(p)
    ensures PutEndpoints(p, tail) + more == PutEndpoints(p, tail + more)
  {
    var a, b, c := EndpointBytes(p.destination), EndpointBytes(p.source), EndpointBytes(p.reportTo);
    Assoc(a, b + (c + tail), more);
    Assoc(b, c + tail, more);
    Assoc(c, tail, more);
  }

  lemma PutHeadAppend(p: PrimaryBlock, tail: seq<byte>, more: seq<byte>)
    ensures PutHead(p, tail) + more == PutHead(p, tail + more)
  {
    var t1 := PutUInt(p.crcType, tail);
    var t0 := PutUInt(p.flags, t1);
    PutUIntAppend(p.crcType, tail, more);
    PutUIntAppend(p.flags, t1, more);
    PutUIntAppend(DTN_VERSION, t0, more);
    assert PutHead(p, tail) + more == Head(ARRAY, ArrayLen(p)) + (PutUInt(DTN_VERSION, t0) + more);
  }

  lemma PutBodyAppend(p: PrimaryBlock, more: seq<byte>)
    requires WritablePrimary(p)
    ensures PutBody(p, []) + more == PutBody(p, more)
  {
    assert [] + more == more;
    PutTimesAppend(p, [], more);
    PutEndpointsAppend(p, PutTimes(p, []), more);
    PutHeadAppend(p, PutEndpoints(p, PutTimes(p, [])), more);
  }

  lemma BodyRoundTrip(p: PrimaryBlock, tail: seq<byte>)
    requires WritablePrimary(p)
    ensures ReadFields(PutBody(p, tail)) == Done((ArrayLen(p), ReadBackPrimary(p)), tail)
  {
    HeadFieldsRoundTrip(p, PutEndpoints(p, PutTimes(p, tail)));
    EndpointsRoundTrip(p, PutTimes(p, tail));
    TimesRoundTrip(p, tail);
  }

  lemma ChecksumReplayed(env: Env, body: seq<byte>, n: u64, q: PrimaryBlock, rest: seq<byte>)
    requires q.crcType <= CRC_32
    requires n == 9 || n == 11 <==> q.crcType != CRC_NO
    requires var tail := CrcField(env, q.crcType, body) + rest; ReadFields(body + tail) == Done((n, q), tail)
    ensures ReadPrimary(env, body + (CrcField(env, q.crcType, body) + rest)) == Done(q, rest)
  {
    var tail := CrcField(env, q.crcType, body) + rest;
    var s := body + tail;
    assert s[..|s| - |tail|] == body;
    if q.crcType != CRC_NO {
      CrcFieldRoundTrip(env, q.crcType, body, rest);
    }
  }

  /** For all four layouts (fragment or not, checksum or not) a written primary block reads back,
      leaving what follows it. */
  lemma PrimaryRoundTrip(env: Env, p: PrimaryBlock, rest: seq<byte>)
    requires WritablePrimary(p)
    ensures ReadPrimary(env, PrimaryBytes(env, p) + rest) == Done(ReadBackPrimary(p), rest)
  {
    var body := PutBody(p, []);
    var tail := CrcField(env, p.crcType, body) + rest;
    PutBodyAppend(p, tail);
    BodyRoundTrip(p, tail);
    ChecksumReplayed(env, body, ArrayLen(p), ReadBackPrimary(p), rest);
    Assoc(body, CrcField(env, p.crcType, body), rest);
  }

  /** PrimaryBlock.CheckValid. */
  predicate ValidPrimary(p: PrimaryBlock) {
    && p.version == DTN_VERSION
    && !(IsFragment(p) && Has(p.flags, MUST_NOT_FRAGMENT))
    && (Has(p.flags, ADMINISTRATIVE_RECORD) ==> NoStatusRequests(p.flags))
    && Valid(p.destination) && Valid(p.source) && Valid(p.reportTo)
    && (p.source == DTN_NONE ==> Has(p.flags, MUST_NOT_FRAGMENT) && NoStatusRequests(p.flags))
  }

  predicate NoStatusRequests(flags: u64) {
    && !Has(flags, STATUS_RECEPTION) && !Has(flags, STATUS_FORWARD)
    && !Has(flags, STATUS_DELIVERY) && !Has(flags, STATUS_DELETION)
  }
}
