/** Octets that are no bundle although they are close to one: wrong major types, array lengths,
    versions and schemes, and break codes in unexpected places. */
module Malformed {
  import opened Bytes
  import opened Cbor
  import opened Endpoint
  import opened Blocks
  import opened Primary
  import opened BundleCodec
  import opened Checksums

  /** Numbers, byte strings and arrays are told apart by the upper three bits of their first octet. */
  lemma MajorTypes(s: seq<byte>)
    ensures ReadUInt(s).Done? ==> s[0] < 0x20
    ensures ReadByteString(s).Done? ==> 0x40 <= s[0] < 0x60
    ensures ReadArrayLength(s).Done? ==> 0x80 <= s[0] < 0xA0
  {
  }

  /** The octets of a byte string are those behind its head, as many as that says. */
  lemma ByteStringRead(s: seq<byte>)
    requires ReadByteString(s).Done?
    ensures var p, h := ReadByteString(s), ReadHead(s);
      h.Done? && h.value.0 == 2 && |p.value| == h.value.1 && h.rest == p.value + p.rest
  {
  }

  lemma NumberRead(n: u64, rest: seq<byte>)
    ensures ReadUInt(Head(UINT, n) + rest) == Done(n, rest)
    ensures ReadArrayLength(Head(ARRAY, n) + rest) == Done(n, rest)
  {
    HeadRoundTrip(UINT, n, rest);
    HeadRoundTrip(ARRAY, n, rest);
  }

  /* ---- endpoints ---- */

  /** An endpoint is an array of two, scheme 1 or 2. */
  lemma EndpointArray(n: u64, scheme: u64, rest: seq<byte>)
    ensures ReadEndpoint(Head(ARRAY, n) + rest).Done? ==> n == 2
    ensures ReadEndpoint(Head(ARRAY, 2) + (Head(UINT, scheme) + rest)).Done? ==> scheme == 1 || scheme == 2
  {
    NumberRead(n, rest);
    NumberRead(2, Head(UINT, scheme) + rest);
    NumberRead(scheme, rest);
    hide ReadUInt, ReadArrayLength, Head, ReadDtn, ReadIpn;
  }

  /** Of scheme 1 any number is the null endpoint, and a text has to be //node/demux: neither "none"
      nor a byte string will do. */
  lemma DtnRead(n: u64, text: seq<byte>, rest: seq<byte>)
    requires |text| < TWO64
    ensures ReadDtn(Head(UINT, n) + rest) == Done(Dtn([], [], true), rest)
    ensures ReadDtn(Head(BYTE_STRING, n) + rest) == Failed
    ensures var p := ReadDtn(Head(TEXT_STRING, |text|) + (text + rest));
      p == if |text| >= 2 && text[..2] == [0x2F, 0x2F] && ParsePath(text[2..]).Ok?
           then Done(ParsePath(text[2..]).value, rest) else Failed
  {
    HeadRoundTrip(UINT, n, rest);
    HeadRoundTrip(BYTE_STRING, n, rest);
    HeadRoundTrip(TEXT_STRING, |text|, text + rest);
    ReadRawWritten(text, rest);
    hide ReadHead, Head;
    if ParseDtnSsp(text).Ok? && text != NONE_SSP {
      hide ParsePath;
    }
  }

  /** Of scheme 2 it is an array of two numbers, which may be 0. */
  lemma IpnRead(n: u64, node: u64, service: u64, rest: seq<byte>)
    ensures ReadIpn(Head(ARRAY, n) + rest).Done? ==> n == 2
    ensures ReadIpn(Head(ARRAY, 2) + (Head(UINT, node) + (Head(UINT, service) + rest)))
         == Done(Ipn(node, service), rest)
  {
    NumberRead(n, rest);
    NumberRead(2, Head(UINT, node) + (Head(UINT, service) + rest));
    NumberRead(node, Head(UINT, service) + rest);
    NumberRead(service, rest);
    hide ReadUInt, ReadArrayLength, Head;
  }

  /* ---- blocks ---- */

  /** A hop count is an array of two numbers below 256, and a timestamp one of two numbers. */
  lemma PairsRead(n: u64, x: u64, y: u64, rest: seq<byte>)
    ensures ReadHopCount(Head(ARRAY, n) + rest).Done? ==> n == 2
    ensures ReadTimestamp(Head(ARRAY, n) + rest).Done? ==> n == 2
    ensures ReadHopCount(Head(ARRAY, 2) + (Head(UINT, x) + (Head(UINT, y) + rest))).Done? <==> x < 256 && y < 256
    ensures ReadTimestamp(Head(ARRAY, 2) + (Head(UINT, x) + (Head(UINT, y) + rest))) == Done((x, y), rest)
  {
    NumberRead(n, rest);
    NumberRead(2, Head(UINT, x) + (Head(UINT, y) + rest));
    NumberRead(x, Head(UINT, y) + rest);
    NumberRead(y, rest);
    hide ReadUInt, ReadArrayLength, Head;
  }

  /** The content of a block is read as its type code says: 1, 6, 7, 10 and, where it is registered,
      192; of any other code the octets are kept. */
  lemma ContentRead(env: Env, code: u64, data: seq<byte>)
    ensures code == 1 ==> ReadValue(env, code, data) == Ok(Payload(data))
    ensures code == 6 ==>
      ReadValue(env, code, data)
      == if ReadEndpoint(data).Done? then Ok(PreviousNode(ReadEndpoint(data).value)) else Err
    ensures code == 7 ==>
      ReadValue(env, code, data) == if ReadUInt(data).Done? then Ok(BundleAge(ReadUInt(data).value)) else Err
    ensures code == 10 ==>
      ReadValue(env, code, data) == if ReadHopCount(data).Done? then Ok(ReadHopCount(data).value) else Err
    ensures code == 192 && env.spray ==>
      ReadValue(env, code, data) == if ReadUInt(data).Done? then Ok(BinarySpray(ReadUInt(data).value)) else Err
    ensures code != 1 && code != 6 && code != 7 && code != 10 && !(code == 192 && env.spray) ==>
      ReadValue(env, code, data) == Ok(Generic(code, data))
  {
    hide ReadEndpoint, ReadUInt, ReadHopCount;
  }

  /** A primary block is an array of eight to eleven items that starts with version 7. */
  lemma PrimaryArray(env: Env, n: u64, version: u64, rest: seq<byte>)
    ensures ReadPrimary(env, Head(ARRAY, n) + rest).Done? ==> 8 <= n <= 11
    ensures 8 <= n && ReadPrimary(env, Head(ARRAY, n) + (Head(UINT, version) + rest)).Done? ==> version == 7
  {
    hide ReadUInt, ReadArrayLength, Head, ReadEndpoints, ReadTimes, ReadTail;
    NumberRead(n, rest);
    NumberRead(n, Head(UINT, version) + rest);
    NumberRead(version, rest);
    HeadFails(Head(ARRAY, n) + rest);
    HeadFails(Head(ARRAY, n) + (Head(UINT, version) + rest));
    hide ReadFields;
  }

  lemma HeadFails(s: seq<byte>)
    ensures ReadFields(s).Done? ==> ReadHeadFields(s).Done?
  {
    hide ReadHeadFields, ReadEndpoints, ReadTimes;
  }

  /** Fragment fields are read exactly from arrays of ten and eleven items, whatever the flags say. */
  lemma FragmentFields(arrayLen: u64, time: u64, number: u64, lifetime: u64, rest: seq<byte>)
    ensures var s := Head(ARRAY, 2) + (Head(UINT, time) + (Head(UINT, number) + (Head(UINT, lifetime) + rest)));
      ReadTimes(arrayLen, s)
      == if arrayLen != 10 && arrayLen != 11 then Done(TimeFields(time, number, lifetime, 0, 0), rest)
         else
           match ReadUInt(rest)
           case Done(offset, r0) =>
             (match ReadUInt(r0)
              case Done(total, r1) => Done(TimeFields(time, number, lifetime, offset, total), r1)
              case Broke(after) => Broke(after)
              case Failed => Failed)
           case Broke(after) => Broke(after)
           case Failed => Failed
  {
    PairsRead(2, time, number, Head(UINT, lifetime) + rest);
    NumberRead(lifetime, rest);
    hide ReadUInt, Head, ReadTimestamp;
  }

  /* ---- break codes ---- */

  /** Numbers in front of a tail. */
  function Numbers(ns: seq<u64>, tail: seq<byte>): seq<byte> {
    if ns == [] then tail else Head(UINT, ns[0]) + Numbers(ns[1..], tail)
  }

  lemma BreakRead(rest: seq<byte>)
    ensures ReadUInt([BREAK_CODE] + rest) == Broke(rest)
    ensures ReadByteString([BREAK_CODE] + rest) == Broke(rest)
  {
    assert ([BREAK_CODE] + rest)[1..] == rest;
  }

  lemma FirstNumber(ns: seq<u64>, tail: seq<byte>)
    requires ns != []
    ensures ReadUInt(Numbers(ns, tail)) == Done(ns[0], Numbers(ns[1..], tail))
  {
    NumberRead(ns[0], Numbers(ns[1..], tail));
    hide ReadUInt, Head;
  }

  /** After up to three numbers of a block, the break code is passed on; after four it is an error. */
  lemma BreakInFields(env: Env, ns: seq<u64>, rest: seq<byte>)
    requires |ns| <= 4
    ensures ReadBlockFields(env, Numbers(ns, [BREAK_CODE] + rest)) == if |ns| <= 3 then Broke(rest) else Failed
  {
    hide ReadUInt, ReadByteString, ReadValue, Head;
    var tail := [BREAK_CODE] + rest;
    BreakRead(rest);
    if |ns| > 0 {
      FirstNumber(ns, tail);
      if |ns| > 1 {
        FirstNumber(ns[1..], tail);
        if |ns| > 2 {
          FirstNumber(ns[2..], tail);
          if |ns| > 3 {
            FirstNumber(ns[3..], tail);
          }
        }
      }
    }
  }

  /** The break code ends the list of blocks not only where a block would start: in the place of one of
      the four numbers of a block it ends it as well, and what was read of the block is dropped. In the
      place of the block's content it is an error. */
  lemma BreakInsideBlock(env: Env, n: u64, ns: seq<u64>, rest: seq<byte>)
    requires (n == 5 || n == 6) && |ns| <= 4
    ensures ReadBlocks(env, Head(ARRAY, n) + Numbers(ns, [BREAK_CODE] + rest))
         == if |ns| <= 3 then Done([], rest) else Failed
  {
    var tail := Numbers(ns, [BREAK_CODE] + rest);
    NumberRead(n, tail);
    BreakInFields(env, ns, rest);
    hide ReadArrayLength, Head, ReadBlockFields, ReadBlockTail, Numbers;
    assert ReadBlock(env, Head(ARRAY, n) + tail) == if |ns| <= 3 then Broke(rest) else Failed;
    hide ReadBlock;
  }

  /** And so it does in the place of a block's checksum: the whole block before it is dropped. */
  lemma BreakForChecksum(env: Env, cb: CanonicalBlock, rest: seq<byte>)
    requires WritableBlock(cb) && cb.crcType != CRC_NO && NormalValue(env, cb.value)
    ensures var written := BlockBytes(env, cb);
      && |written| > 1 + FieldLen(cb.crcType)
      && ReadBlocks(env, written[..|written| - 1 - FieldLen(cb.crcType)] + ([BREAK_CODE] + rest)) == Done([], rest)
  {
    hide ReadBlockFields, ReadValue, ValueBytes, Demanded, ReadArrayLength, BlockFields, WritableValue, Checksum,
         NormalValue, ReadByteString, BlockBody;
    var body, tail := BlockBody(cb), [BREAK_CODE] + rest;
    var items := BlockFields(cb, ByteString(ValueBytes(cb.value)));
    CrcFieldIs(env, cb.crcType, body);
    BodyRead(env, cb, tail);
    ValueRoundTrip(env, cb.value);
    BreakRead(rest);
    ChecksumIsDemanded(env, cb.crcType, Head(ARRAY, 6) + items);
    assert (items + tail)[..|items + tail| - |tail|] == items;
    assert ReadBlock(env, body + tail) == Broke(rest);
    hide ReadBlock;
    var written := BlockBytes(env, cb);
    assert written[..|written| - 1 - FieldLen(cb.crcType)] == body;
  }

  /** Wherever the primary block cannot be read, the bundle cannot, not even when a break code is why. */
  lemma NoPrimaryNoBundle(env: Env, s: seq<byte>)
    requires !ReadPrimary(env, s).Done?
    ensures ReadBundle(env, [0x9F] + s) == Failed
    ensures s != [] && s[0] != 0x9F ==> ReadBundle(env, s) == Failed
  {
    hide ReadPrimary, ReadBlocks;
    assert ([0x9F] + s)[1..] == s;
  }
}
