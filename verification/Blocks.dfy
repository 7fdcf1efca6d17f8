/** The blocks of a bundle, their validity checks and their CBOR form.  Values written are put in
    front of a tail, so that writing composes the way reading does. */
module Blocks {
  import opened Bytes
  import opened Cbor
  import opened Endpoint

  /** What the codec takes from its surroundings: the two checksum functions, whether the binary
      spray block has been registered beside the four built-in types, and whether the wall clock
      is past a creation time plus a lifetime. */
  datatype Env = Env(crc16: seq<byte> -> u16, crc32: seq<byte> -> u32, spray: bool, late: (u64, u64) -> bool)

  const PAYLOAD_TYPE: u64 := 1
  const PREVIOUS_NODE_TYPE: u64 := 6
  const BUNDLE_AGE_TYPE: u64 := 7
  const HOP_COUNT_TYPE: u64 := 10
  const BINARY_SPRAY_TYPE: u64 := 192

  predicate Known(env: Env, code: u64) {
    code == PAYLOAD_TYPE || code == PREVIOUS_NODE_TYPE || code == BUNDLE_AGE_TYPE || code == HOP_COUNT_TYPE
    || (code == BINARY_SPRAY_TYPE && env.spray)
  }

  datatype ExtensionBlock =
    | Payload(data: seq<byte>)
    | PreviousNode(endpoint: EndpointID)
    | BundleAge(age: u64)
    | HopCount(limit: u8, count: u8)
    | BinarySpray(copies: u64)
    | Generic(code: u64, opaqueData: seq<byte>)

  datatype CanonicalBlock = CanonicalBlock(number: u64, flags: u64, crcType: u64, value: ExtensionBlock)

  datatype PrimaryBlock = PrimaryBlock(
    version: u64, flags: u64, crcType: u64,
    destination: EndpointID, source: EndpointID, reportTo: EndpointID,
    time: u64, sequenceNumber: u64, lifetime: u64,
    fragmentOffset: u64, totalDataLength: u64)

  datatype Bundle = Bundle(primary: PrimaryBlock, blocks: seq<CanonicalBlock>)

  const DTN_VERSION: u64 := 7

  const CRC_NO: u64 := 0
  const CRC_16: u64 := 1
  const CRC_32: u64 := 2

  const IS_FRAGMENT: u64 := 0x000001
  const ADMINISTRATIVE_RECORD: u64 := 0x000002
  const MUST_NOT_FRAGMENT: u64 := 0x000004
  const STATUS_RECEPTION: u64 := 0x004000
  const STATUS_FORWARD: u64 := 0x010000
  const STATUS_DELIVERY: u64 := 0x020000
  const STATUS_DELETION: u64 := 0x040000

  const REPLICATE_BLOCK: u64 := 0x01
  const STATUS_REPORT_BLOCK: u64 := 0x02

  /** Whether a single-bit flag is set. */
  predicate Has(flags: u64, bit: u64)
    requires bit > 0
  {
    (flags / bit) % 2 == 1
  }

  function TypeCode(v: ExtensionBlock): u64 {
    match v
    case Payload(_) => PAYLOAD_TYPE
    case PreviousNode(_) => PREVIOUS_NODE_TYPE
    case BundleAge(_) => BUNDLE_AGE_TYPE
    case HopCount(_, _) => HOP_COUNT_TYPE
    case BinarySpray(_) => BINARY_SPRAY_TYPE
    case Generic(code, _) => code
  }

  /* ---- extension block values ---- */

  /** The values that marshal without an error and whose strings fit a Go length. */
  predicate WritableValue(v: ExtensionBlock) {
    match v
    case Payload(data) => |data| <= MAX_LEN
    case PreviousNode(e) => Valid(e) && Fits(e)
    case Generic(_, data) => |data| <= MAX_LEN
    case _ => true
  }

  /** The octets inside a block's byte string, as WriteBlock makes them. */
  function ValueBytes(v: ExtensionBlock): (bs: seq<byte>)
    requires WritableValue(v)
    ensures |bs| < TWO64
  {
    match v
    case Payload(data) => data
    case PreviousNode(e) => EndpointBytes(e)
    case BundleAge(age) => Head(UINT, age)
    case HopCount(limit, count) => Head(ARRAY, 2) + (Head(UINT, limit) + Head(UINT, count))
    case BinarySpray(copies) => Head(UINT, copies)
    case Generic(_, data) => data
  }

  function ReadHopCount(s: seq<byte>): Parse<ExtensionBlock> {
    var (n, r0) :- ReadArrayLength(s);
    if n != 2 then Failed
    else
      var (limit, r1) :- ReadUInt(r0);
      if limit > 255 then Failed
      else
        var (count, r2) :- ReadUInt(r1);
        if count > 255 then Failed else Done(HopCount(limit, count), r2)
  }

  /** ReadBlock after the byte string: the registered type for a code unmarshals its prefix, and
      any other code keeps the octets as they are. */
  function ReadValue(env: Env, code: u64, data: seq<byte>): Result<ExtensionBlock> {
    if code == PAYLOAD_TYPE then Ok(Payload(data))
    else if code == PREVIOUS_NODE_TYPE then
      var p := ReadEndpoint(data);
      if p.Done? then Ok(PreviousNode(p.value)) else Err
    else if code == BUNDLE_AGE_TYPE then
      var p := ReadUInt(data);
      if p.Done? then Ok(BundleAge(p.value)) else Err
    else if code == HOP_COUNT_TYPE then
      var p := ReadHopCount(data);
      if p.Done? then Ok(p.value) else Err
    else if code == BINARY_SPRAY_TYPE && env.spray then
      var p := ReadUInt(data);
      if p.Done? then Ok(BinarySpray(p.value)) else Err
    else Ok(Generic(code, data))
  }

  predicate NormalValue(env: Env, v: ExtensionBlock) {
    match v
    case PreviousNode(e) => Normal(e)
    case BinarySpray(_) => env.spray
    case Generic(code, _) => !Known(env, code)
    case _ => true
  }

  lemma HopCountRoundTrip(limit: u8, count: u8)
    ensures ReadHopCount(Head(ARRAY, 2) + (Head(UINT, limit) + Head(UINT, count))) == Done(HopCount(limit, count), [])
  {
    HeadRoundTrip(ARRAY, 2, Head(UINT, limit) + Head(UINT, count));
    HeadRoundTrip(UINT, limit, Head(UINT, count));
    assert Head(UINT, count) + [] == Head(UINT, count);
    HeadRoundTrip(UINT, count, []);
  }

  /** A value survives its octets exactly when its type is the one registered for its code and
      the endpoint inside is in normal form. */
  lemma ValueRoundTrip(env: Env, v: ExtensionBlock)
    requires WritableValue(v)
    ensures ReadValue(env, TypeCode(v), ValueBytes(v)) == Ok(v) <==> NormalValue(env, v)
  {
    hide ReadEndpoint, EndpointBytes, Valid, Fits, Canon, Normal, Head, ReadHead;
    var bs := ValueBytes(v);
    assert bs + [] == bs;
    match v
    case PreviousNode(e) =>
      EndpointRoundTrip(e, []);
      CanonFixedPoint(e);
    case BundleAge(age) => HeadRoundTrip(UINT, age, []);
    case BinarySpray(copies) => HeadRoundTrip(UINT, copies, []);
    case HopCount(limit, count) =>
      HopCountRoundTrip(limit, count);
    case _ =>
  }

  /* ---- checksums ---- */

  function Zeros(n: nat): (z: seq<byte>)
    ensures |z| == n
  {
    seq(n, _ => 0)
  }

  function CrcLen(crcType: u64): nat {
    if crcType == CRC_16 then 2 else if crcType == CRC_32 then 4 else 0
  }

  /** calculateCRCBuff: the checksum of what was written so far followed by an all-zero checksum
      field; an unknown type is an error. */
  function Checksum(env: Env, crcType: u64, buffer: seq<byte>): (r: Result<seq<byte>>)
    ensures r.Ok? <==> crcType <= CRC_32
    ensures r.Ok? ==> |r.value| == CrcLen(crcType)
  {
    if crcType > CRC_32 then Err
    else
      var whole := buffer + ByteString(Zeros(CrcLen(crcType)));
      if crcType == CRC_NO then Ok([])
      else if crcType == CRC_16 then Ok(PutBE(env.crc16(whole), 2))
      else Ok(PutBE(env.crc32(whole), 4))
  }

  /** The checksum field of a block whose type is one of the three, or nothing without a checksum. */
  function CrcField(env: Env, crcType: u64, body: seq<byte>): (bs: seq<byte>)
    requires crcType <= CRC_32
    ensures |bs| == if crcType == CRC_NO then 0 else 1 + CrcLen(crcType)
  {
    if crcType == CRC_NO then [] else ByteString(Checksum(env, crcType, body).value)
  }

  /** Reading a checksum field and comparing it with the replayed octets. */
  function ReadCrc(env: Env, crcType: u64, replayed: seq<byte>, s: seq<byte>): (p: Parse<seq<byte>>)
    ensures p.Done? ==> |p.rest| < |s|
  {
    match Checksum(env, crcType, replayed)
    case Err => Failed
    case Ok(expected) =>
      var (crc, rest) :- ReadByteString(s);
      if crc == expected then Done(crc, rest) else Failed
  }

  lemma CrcFieldRoundTrip(env: Env, crcType: u64, body: seq<byte>, rest: seq<byte>)
    requires CRC_NO < crcType <= CRC_32
    ensures ReadCrc(env, crcType, body, CrcField(env, crcType, body) + rest).Done?
    ensures ReadCrc(env, crcType, body, CrcField(env, crcType, body) + rest).rest == rest
  {
    ByteStringRoundTrip(Checksum(env, crcType, body).value, rest);
  }

  /* ---- canonical blocks ---- */

  function PutUInt(n: u64, tail: seq<byte>): seq<byte> {
    Head(UINT, n) + tail
  }

  predicate WritableBlock(cb: CanonicalBlock) {
    cb.crcType <= CRC_32 && WritableValue(cb.value)
  }

  function BlockFields(cb: CanonicalBlock, tail: seq<byte>): seq<byte> {
    PutUInt(TypeCode(cb.value), PutUInt(cb.number, PutUInt(cb.flags, PutUInt(cb.crcType, tail))))
  }

  function BlockBody(cb: CanonicalBlock): seq<byte>
    requires WritableBlock(cb)
  {
    Head(ARRAY, if cb.crcType == CRC_NO then 5 else 6) + BlockFields(cb, ByteString(ValueBytes(cb.value)))
  }

  /** CanonicalBlock.MarshalCbor. */
  function BlockBytes(env: Env, cb: CanonicalBlock): seq<byte>
    requires WritableBlock(cb)
  {
    BlockBody(cb) + CrcField(env, cb.crcType, BlockBody(cb))
  }

  /** The five fields of a block after its array head; an error of the value is wrapped. */
  function ReadBlockFields(env: Env, s: seq<byte>): (p: Parse<CanonicalBlock>)
    ensures p.Done? ==> |p.rest| < |s|
  {
    var (code, r0) :- ReadUInt(s);
    var (number, r1) :- ReadUInt(r0);
    var (flags, r2) :- ReadUInt(r1);
    var (crcType, r3) :- ReadUInt(r2);
    var (data, r4) :- ReadByteString(r3).Wrapped();
    match ReadValue(env, code, data)
    case Err => Failed
    case Ok(value) => Done(CanonicalBlock(number, flags, crcType, value), r4)
  }

  /** CanonicalBlock.UnmarshalCbor: the array head is replayed into the checksum buffer. */
  function ReadBlock(env: Env, s: seq<byte>): (p: Parse<CanonicalBlock>)
    ensures p.Done? ==> |p.rest| < |s|
  {
    var (n, r0) :- ReadArrayLength(s);
    if n != 5 && n != 6 then Failed
    else
      match ReadBlockFields(env, r0)
      case Done(cb, rest) => ReadBlockTail(env, n, cb, r0[..|r0| - |rest|], rest)
      case Broke(after) => Broke(after)
      case Failed => Failed
  }

  /** The checksum, if the array length announces one, over the replayed head and the octets seen. */
  function ReadBlockTail(env: Env, arrayLen: u64, cb: CanonicalBlock, seen: seq<byte>, s: seq<byte>):
    (p: Parse<CanonicalBlock>)
    ensures p.Done? ==> |p.rest| <= |s|
  {
    if arrayLen == 6 then
      var (_, rest) :- ReadCrc(env, cb.crcType, Head(ARRAY, 6) + seen, s);
      Done(cb, rest)
    else Done(cb, s)
  }

  lemma BlockFieldsAppend(cb: CanonicalBlock, tail: seq<byte>, more: seq<byte>)
    ensures BlockFields(cb, tail) + more == BlockFields(cb, tail + more)
  {
    PutUIntAppend(cb.crcType, tail, more);
    PutUIntAppend(cb.flags, PutUInt(cb.crcType, tail), more);
    PutUIntAppend(cb.number, PutUInt(cb.flags, PutUInt(cb.crcType, tail)), more);
    PutUIntAppend(TypeCode(cb.value), PutUInt(cb.number, PutUInt(cb.flags, PutUInt(cb.crcType, tail))), more);
  }

  lemma PutUIntAppend(n: u64, tail: seq<byte>, more: seq<byte>)
    ensures PutUInt(n, tail) + more == PutUInt(n, tail + more)
  {
  }

  lemma PutUIntRead(n: u64, tail: seq<byte>)
    ensures ReadUInt(PutUInt(n, tail)) == Done(n, tail)
  {
    HeadRoundTrip(UINT, n, tail);
  }

  lemma BlockFieldsRoundTrip(env: Env, cb: CanonicalBlock, rest: seq<byte>)
    requires WritableBlock(cb)
    ensures var p := ReadBlockFields(env, BlockFields(cb, ByteString(ValueBytes(cb.value)) + rest));
            match ReadValue(env, TypeCode(cb.value), ValueBytes(cb.value))
            case Err => p == Failed
            case Ok(v) => p == Done(cb.(value := v), rest)
  {
    var t3 := ByteString(ValueBytes(cb.value)) + rest;
    var t2 := PutUInt(cb.crcType, t3);
    var t1 := PutUInt(cb.flags, t2);
    var t0 := PutUInt(cb.number, t1);
    PutUIntRead(TypeCode(cb.value), t0);
    PutUIntRead(cb.number, t1);
    PutUIntRead(cb.flags, t2);
    PutUIntRead(cb.crcType, t3);
    ByteStringRoundTrip(ValueBytes(cb.value), rest);
  }

  lemma BlockChecksumReplayed(env: Env, n: u64, fields: seq<byte>, p: Parse<CanonicalBlock>, crcType: u64,
      rest: seq<byte>)
    requires n == (if crcType == CRC_NO then 5 else 6) && crcType <= CRC_32
    requires var r1 := CrcField(env, crcType, Head(ARRAY, n) + fields) + rest;
             ReadBlockFields(env, fields + r1) == p && (p.Done? ==> p.value.crcType == crcType && p.rest == r1)
    requires !p.Broke?
    ensures ReadBlock(env, Head(ARRAY, n) + (fields + (CrcField(env, crcType, Head(ARRAY, n) + fields) + rest)))
         == if p.Done? then Done(p.value, rest) else Failed
  {
    var body := Head(ARRAY, n) + fields;
    var r1 := CrcField(env, crcType, body) + rest;
    var r0 := fields + r1;
    HeadRoundTrip(ARRAY, n, r0);
    if n == 6 {
      assert r0[..|r0| - |r1|] == fields;
      CrcFieldRoundTrip(env, crcType, body, rest);
    }
  }

  /** Writing any marshallable block and reading it back passes the checksum test, leaves what
      follows, and changes at most the value. */
  lemma BlockRoundTrip(env: Env, cb: CanonicalBlock, rest: seq<byte>)
    requires WritableBlock(cb)
    ensures var p := ReadBlock(env, BlockBytes(env, cb) + rest);
            match ReadValue(env, TypeCode(cb.value), ValueBytes(cb.value))
            case Err => p == Failed
            case Ok(v) => p == Done(cb.(value := v), rest)
  {
    var n: u64 := if cb.crcType == CRC_NO then 5 else 6;
    var data := ByteString(ValueBytes(cb.value));
    var fields := BlockFields(cb, data);
    var field := CrcField(env, cb.crcType, BlockBody(cb));
    var r1 := field + rest;
    Assoc(BlockBody(cb), field, rest);
    Assoc(Head(ARRAY, n), fields, r1);
    BlockFieldsAppend(cb, data, r1);
    BlockFieldsRoundTrip(env, cb, r1);
    BlockChecksumReplayed(env, n, fields, ReadBlockFields(env, fields + r1), cb.crcType, rest);
  }

  /** The octet a block starts with is an array head, never the break code. */
  lemma BlockStartsWithArray(env: Env, cb: CanonicalBlock)
    requires WritableBlock(cb)
    ensures BlockBytes(env, cb) != [] && BlockBytes(env, cb)[0] != BREAK_CODE
  {
    var n: u64 := if cb.crcType == CRC_NO then 5 else 6;
    assert BlockBytes(env, cb)[0] == Head(ARRAY, n)[0];
  }
}
