/** Checksums of received blocks (RFC 9171, sections 4.2.1 and 4.3): whatever octets arrive, a block
    is read exactly when its checksum field holds what the octets before it demand. */
module Checksums {
  import opened Bytes
  import opened Cbor
  import opened Blocks
  import opened Primary
  import opened BundleCodec

  /** What the checksum field must hold after these octets, which is computed with zeros in its place. */
  function Demanded(env: Env, crcType: u64, before: seq<byte>): seq<byte> {
    if crcType == 1 then PutBE(env.crc16(before + [0x42, 0, 0]), 2)
    else if crcType == 2 then PutBE(env.crc32(before + [0x44, 0, 0, 0, 0]), 4)
    else []
  }

  /** A byte string with the demanded octets is in front of s. */
  predicate FieldHolds(env: Env, crcType: u64, before: seq<byte>, s: seq<byte>) {
    crcType <= 2 && ReadByteString(s).Done? && ReadByteString(s).value == Demanded(env, crcType, before)
  }

  lemma EmptyFields()
    ensures ByteString(Zeros(2)) == [0x42, 0, 0]
    ensures ByteString(Zeros(4)) == [0x44, 0, 0, 0, 0]
  {
    assert Zeros(2) == [0, 0];
    assert Zeros(4) == [0, 0, 0, 0];
  }

  lemma ChecksumIsDemanded(env: Env, crcType: u64, before: seq<byte>)
    ensures Checksum(env, crcType, before) == if crcType <= 2 then Ok(Demanded(env, crcType, before)) else Err
  {
    EmptyFields();
    hide ByteString, Zeros;
  }

  lemma ReadCrcExactly(env: Env, crcType: u64, before: seq<byte>, s: seq<byte>)
    ensures ReadCrc(env, crcType, before, s).Done? <==> FieldHolds(env, crcType, before, s)
    ensures ReadCrc(env, crcType, before, s).Done? ==>
      ReadCrc(env, crcType, before, s).rest == ReadByteString(s).rest
    ensures !(s != [] && s[0] == BREAK_CODE) ==> !ReadCrc(env, crcType, before, s).Broke?
  {
    ChecksumIsDemanded(env, crcType, before);
    hide Checksum, Demanded;
  }

  /* ---- any octets ---- */

  /** A canonical block in front of s: an array of five items, or of six of which the last is the
      checksum over the array head and the items before it. */
  predicate BlockIntact(env: Env, s: seq<byte>) {
    && ReadArrayLength(s).Done? && ReadBlockFields(env, ReadArrayLength(s).rest).Done?
    && var (n, items) := (ReadArrayLength(s).value, ReadArrayLength(s).rest);
    && var (cb, field) := (ReadBlockFields(env, items).value, ReadBlockFields(env, items).rest);
    (n == 5 || (n == 6 && FieldHolds(env, cb.crcType, [0x86] + items[..|items| - |field|], field)))
  }

  /** For any octets: a canonical block is read exactly when it is intact, and is the one its items say. */
  lemma BlockReadExactly(env: Env, s: seq<byte>)
    ensures ReadBlock(env, s).Done? <==> BlockIntact(env, s)
    ensures ReadBlock(env, s).Done? ==> ReadBlock(env, s).value == ReadBlockFields(env, ReadArrayLength(s).rest).value
  {
    hide ReadArrayLength, ReadBlockFields, ReadCrc, FieldHolds;
    var p := ReadArrayLength(s);
    if p.Done? && (p.value == 5 || p.value == 6) {
      var q := ReadBlockFields(env, p.rest);
      if q.Done? {
        assert Head(ARRAY, 6) == [0x86];
        ReadCrcExactly(env, q.value.crcType, [0x86] + p.rest[..|p.rest| - |q.rest|], q.rest);
      }
    }
  }

  /** A primary block in front of s: an array of eight or ten items, or of nine or eleven of which
      the last is the checksum over everything before it. */
  predicate PrimaryIntact(env: Env, s: seq<byte>) {
    && ReadFields(s).Done?
    && var (n, p) := ReadFields(s).value;
    && var field := ReadFields(s).rest;
    (n == 8 || n == 10 || ((n == 9 || n == 11) && FieldHolds(env, p.crcType, s[..|s| - |field|], field)))
  }

  lemma FieldsLength(s: seq<byte>)
    requires ReadFields(s).Done?
    ensures 8 <= ReadFields(s).value.0 <= 11
  {
    hide ReadEndpoints, ReadTimes, ReadHeadFields;
  }

  /** For any octets: a primary block is read exactly when it is intact. */
  lemma PrimaryReadExactly(env: Env, s: seq<byte>)
    ensures ReadPrimary(env, s).Done? <==> PrimaryIntact(env, s)
    ensures ReadPrimary(env, s).Done? ==> ReadPrimary(env, s).value == ReadFields(s).value.1
  {
    hide ReadFields, ReadCrc, FieldHolds;
    if ReadFields(s).Done? {
      FieldsLength(s);
      var (fields, rest) := (ReadFields(s).value, ReadFields(s).rest);
      ReadCrcExactly(env, fields.1.crcType, s[..|s| - |rest|], rest);
    }
  }

  /** The block cb was intact in front of s. */
  predicate IntactAs(env: Env, s: seq<byte>, cb: CanonicalBlock) {
    BlockIntact(env, s) && ReadBlock(env, s).Done? && ReadBlock(env, s).value == cb
  }

  lemma {:induction false} BlocksIntact(env: Env, s: seq<byte>) returns (starts: seq<seq<byte>>)
    requires ReadBlocks(env, s).Done?
    ensures |starts| == |ReadBlocks(env, s).value|
    ensures forall i :: 0 <= i < |starts| ==> IntactAs(env, starts[i], ReadBlocks(env, s).value[i])
    decreases |s|
  {
    hide ReadBlock, BlockIntact;
    var p := ReadBlock(env, s);
    starts := [];
    if p.Done? {
      BlockReadExactly(env, s);
      var more := BlocksIntact(env, p.rest);
      starts := [s] + more;
    }
  }

  /** Whatever the octets a bundle was read from: its primary block and each of its blocks were
      intact where they were read. */
  lemma BundleIntact(env: Env, s: seq<byte>) returns (starts: seq<seq<byte>>)
    requires ReadBundle(env, s).Done?
    ensures s != [] && s[0] == 0x9F && PrimaryIntact(env, s[1..])
    ensures |starts| == |ReadBundle(env, s).value.blocks|
    ensures forall i :: 0 <= i < |starts| ==> IntactAs(env, starts[i], ReadBundle(env, s).value.blocks[i])
  {
    hide ReadBlocks, IntactAs, PrimaryIntact, ReadPrimary, ValidBundle;
    PrimaryReadExactly(env, s[1..]);
    starts := BlocksIntact(env, ReadPrimary(env, s[1..]).rest);
  }

  /* ---- a written block whose checksum was altered ---- */

  /** Octets whose last ones are replaced. */
  function Altered(written: seq<byte>, field: seq<byte>): seq<byte>
    requires |field| <= |written|
  {
    written[..|written| - |field|] + field
  }

  function FieldLen(crcType: u64): nat { if crcType == 1 then 2 else if crcType == 2 then 4 else 0 }

  lemma CrcFieldIs(env: Env, crcType: u64, body: seq<byte>)
    requires crcType == 1 || crcType == 2
    ensures CrcField(env, crcType, body) == [0x40 + FieldLen(crcType)] + Demanded(env, crcType, body)
    ensures |Demanded(env, crcType, body)| == FieldLen(crcType)
  {
    ChecksumIsDemanded(env, crcType, body);
    hide Checksum, Demanded;
  }

  lemma FieldRead(env: Env, crcType: u64, before: seq<byte>, field: seq<byte>, rest: seq<byte>)
    requires (crcType == 1 || crcType == 2) && |field| == FieldLen(crcType)
    ensures var p := ReadCrc(env, crcType, before, [0x40 + |field|] + field + rest);
      p == if field == Demanded(env, crcType, before) then Done(field, rest) else Failed
  {
    hide Demanded;
    ByteStringRoundTrip(field, rest);
    assert ByteString(field) == [0x40 + |field|] + field;
    ChecksumIsDemanded(env, crcType, before);
    hide Checksum, ReadByteString, ByteString;
  }

  lemma AlteredAt(body: seq<byte>, head: byte, demanded: seq<byte>, field: seq<byte>, rest: seq<byte>)
    requires |demanded| == |field|
    ensures var written := body + ([head] + demanded);
      && Altered(written, field) + rest == body + ([head] + field + rest)
      && written[|written| - |field|..] == demanded && written[..|written| - |field| - 1] == body
  {
    var written := body + ([head] + demanded);
    assert written == (body + [head]) + demanded;
  }

  lemma BodyRead(env: Env, cb: CanonicalBlock, tail: seq<byte>)
    requires WritableBlock(cb) && cb.crcType != CRC_NO
    ensures var items := BlockFields(cb, ByteString(ValueBytes(cb.value)));
      && BlockBody(cb) == [0x86] + items && BlockBody(cb) + tail == [0x86] + (items + tail)
      && ReadArrayLength([0x86] + (items + tail)) == Done(6, items + tail)
      && ReadBlockFields(env, items + tail)
         == match ReadValue(env, TypeCode(cb.value), ValueBytes(cb.value))
            case Err => Failed
            case Ok(v) => Done(cb.(value := v), tail)
  {
    hide ReadBlockFields, ReadValue, ValueBytes, BlockFields;
    var data := ByteString(ValueBytes(cb.value));
    var items := BlockFields(cb, data);
    assert Head(ARRAY, 6) == [0x86];
    Assoc([0x86], items, tail);
    HeadRoundTrip(ARRAY, 6, items + tail);
    BlockFieldsAppend(cb, data, tail);
    BlockFieldsRoundTrip(env, cb, tail);
  }

  /** A written block with a checksum ends with the demanded octets, and with any octets in their
      place it is read exactly when they are the same. */
  lemma AlteredBlock(env: Env, cb: CanonicalBlock, field: seq<byte>, rest: seq<byte>)
    requires WritableBlock(cb) && (cb.crcType == 1 || cb.crcType == 2) && |field| == FieldLen(cb.crcType)
    ensures var bs := BlockBytes(env, cb);
      && |field| < |bs|
      && bs[|bs| - |field|..] == Demanded(env, cb.crcType, bs[..|bs| - |field| - 1])
      && ReadBlock(env, Altered(bs, field) + rest)
         == if field == bs[|bs| - |field|..] then ReadBlock(env, bs + rest) else Failed
  {
    hide ReadBlock, ReadValue, ValueBytes, Demanded, ReadCrc, BlockFields, BlockBody, WritableValue, CrcField, Altered;
    var body, head := BlockBody(cb), 0x40 + |field|;
    var demanded := Demanded(env, cb.crcType, body);
    CrcFieldIs(env, cb.crcType, body);
    AlteredAt(body, head, demanded, field, rest);
    AlteredFieldRead(env, cb, field, rest);
    if field == demanded {
      SameAltered(BlockBytes(env, cb), demanded);
    }
  }

  /** Behind the items of a block, a field with other octets than demanded fails. */
  lemma AlteredFieldRead(env: Env, cb: CanonicalBlock, field: seq<byte>, rest: seq<byte>)
    requires WritableBlock(cb) && (cb.crcType == 1 || cb.crcType == 2) && |field| == FieldLen(cb.crcType)
    ensures field != Demanded(env, cb.crcType, BlockBody(cb)) ==>
      ReadBlock(env, BlockBody(cb) + ([0x40 + |field|] + field + rest)) == Failed
  {
    hide ReadBlockFields, ReadValue, ValueBytes, Demanded, ReadCrc, ReadArrayLength, BlockFields, BlockBody;
    var tail := [0x40 + |field|] + field + rest;
    BodyRead(env, cb, tail);
    var items := BlockFields(cb, ByteString(ValueBytes(cb.value)));
    assert (items + tail)[..|items + tail| - |tail|] == items;
    FieldRead(env, cb.crcType, BlockBody(cb), field, rest);
  }

  /** The same for a written primary block. */
  lemma AlteredPrimary(env: Env, p: PrimaryBlock, field: seq<byte>, rest: seq<byte>)
    requires WritablePrimary(p) && (p.crcType == 1 || p.crcType == 2) && |field| == FieldLen(p.crcType)
    ensures var bs := PrimaryBytes(env, p);
      && |field| < |bs|
      && bs[|bs| - |field|..] == Demanded(env, p.crcType, bs[..|bs| - |field| - 1])
      && ReadPrimary(env, Altered(bs, field) + rest)
         == if field == bs[|bs| - |field|..] then ReadPrimary(env, bs + rest) else Failed
  {
    hide ReadFields, Demanded, ReadCrc, PutBody, WritablePrimary;
    var body, head := PutBody(p, []), 0x40 + |field|;
    var demanded := Demanded(env, p.crcType, body);
    CrcFieldIs(env, p.crcType, body);
    AlteredAt(body, head, demanded, field, rest);
    var tail := [head] + field + rest;
    PutBodyAppend(p, tail);
    BodyRoundTrip(p, tail);
    assert (body + tail)[..|body + tail| - |tail|] == body;
    FieldRead(env, p.crcType, body, field, rest);
    if field == demanded {
      assert Altered(PrimaryBytes(env, p), demanded) == PrimaryBytes(env, p);
    }
  }

  /* ---- a written bundle one checksum of which was altered ---- */

  lemma {:induction false} BlocksBytesSplit(env: Env, blocks: seq<CanonicalBlock>, k: nat)
    requires WritableBlocks(blocks) && k < |blocks|
    ensures WritableBlocks(blocks[..k]) && WritableBlocks(blocks[k + 1..])
    ensures BlocksBytes(env, blocks)
         == BlocksBytes(env, blocks[..k]) + (BlockBytes(env, blocks[k]) + BlocksBytes(env, blocks[k + 1..]))
    decreases k
  {
    hide BlockBytes, WritableBlock;
    if k == 0 {
      assert BlocksBytes(env, blocks[..0]) == [];
    } else {
      BlocksBytesSplit(env, blocks[1..], k - 1);
      assert blocks[..k][1..] == blocks[1..][..k - 1] && blocks[1..][k..] == blocks[k + 1..];
      assert blocks[..k][0] == blocks[0];
    }
  }

  /** When the blocks before it have been read, an unreadable block makes reading fail. */
  lemma {:induction false} BadBlockFails(env: Env, blocks: seq<CanonicalBlock>, tail: seq<byte>)
    requires WritableBlocks(blocks) && ReadBlock(env, tail) == Failed
    ensures ReadBlocks(env, BlocksBytes(env, blocks) + tail) == Failed
    decreases |blocks|
  {
    hide ReadBlock, BlockBytes, WritableBlock, ReadValue, ValueBytes;
    if blocks == [] {
      assert BlocksBytes(env, blocks) + tail == tail;
      ReadBlocksStep(env, tail, Failed);
    } else {
      var more := BlocksBytes(env, blocks[1..]) + tail;
      Assoc(BlockBytes(env, blocks[0]), BlocksBytes(env, blocks[1..]), tail);
      BlockRoundTrip(env, blocks[0], more);
      BadBlockFails(env, blocks[1..], tail);
      ReadBlocksStep(env, BlockBytes(env, blocks[0]) + more, ReadBlock(env, BlockBytes(env, blocks[0]) + more));
    }
  }

  /** The octets of b with the checksum of its k-th block replaced. */
  function AlteredBundle(env: Env, b: Bundle, k: nat, field: seq<byte>): seq<byte>
    requires Writable(b) && k < |b.blocks| && |field| <= |BlockBytes(env, b.blocks[k])|
  {
    var before, behind := BlocksBytes(env, b.blocks[..k]), BlocksBytes(env, b.blocks[k + 1..]);
    [0x9F] + PrimaryBytes(env, b.primary) + before + Altered(BlockBytes(env, b.blocks[k]), field) + behind + [0xFF]
  }

  /** A marshalled bundle with other octets in place of a block's checksum is refused; with the same
      octets it is the marshalled bundle. */
  lemma AlteredBundleExactly(env: Env, b: Bundle, k: nat, field: seq<byte>, rest: seq<byte>)
    requires Writable(b) && k < |b.blocks| && (b.blocks[k].crcType == 1 || b.blocks[k].crcType == 2)
    requires |field| == FieldLen(b.blocks[k].crcType)
    ensures var bs := BlockBytes(env, b.blocks[k]);
      && |field| < |bs|
      && ReadBundle(env, AlteredBundle(env, b, k, field) + rest)
         == if field == bs[|bs| - |field|..] then ReadBundle(env, BundleBytes(env, b) + rest) else Failed
  {
    hide PrimaryBytes, BlockBytes, WritablePrimary, WritableBlock, ReadBlock, ReadPrimary, ValidBundle, Altered;
    var bs := BlockBytes(env, b.blocks[k]);
    var before, behind := BlocksBytes(env, b.blocks[..k]), BlocksBytes(env, b.blocks[k + 1..]);
    AlteredBlock(env, b.blocks[k], field, behind + [0xFF] + rest);
    if field == bs[|bs| - |field|..] {
      SameAltered(bs, field);
      BlocksBytesSplit(env, b.blocks, k);
      SameBundle(PrimaryBytes(env, b.primary), before, bs, behind);
    } else {
      var tail := Altered(bs, field) + (behind + [0xFF] + rest);
      BadBlockFails(env, b.blocks[..k], tail);
      PrimaryRoundTrip(env, b.primary, before + tail);
      Regrouped(PrimaryBytes(env, b.primary), before, Altered(bs, field), behind, rest);
      ReadSyntaxSteps(env, AlteredBundle(env, b, k, field) + rest, ReadBackPrimary(b.primary), before + tail);
    }
  }

  lemma SameAltered(bs: seq<byte>, field: seq<byte>)
    requires |field| <= |bs| && field == bs[|bs| - |field|..]
    ensures Altered(bs, field) == bs
  {
  }

  lemma SameBundle(primary: seq<byte>, before: seq<byte>, bs: seq<byte>, behind: seq<byte>)
    ensures [0x9F] + primary + before + bs + behind + [0xFF]
         == [INDEFINITE_ARRAY] + (primary + ((before + (bs + behind)) + [BREAK_CODE]))
  {
  }

  lemma Regrouped(primary: seq<byte>, before: seq<byte>, bs: seq<byte>, behind: seq<byte>, rest: seq<byte>)
    ensures var s := [0x9F] + primary + before + bs + behind + [0xFF] + rest;
      s[0] == INDEFINITE_ARRAY && s[1..] == primary + (before + (bs + (behind + [0xFF] + rest)))
  {
    var s := [0x9F] + primary + before + bs + behind + [0xFF] + rest;
    var t := primary + (before + (bs + (behind + [0xFF] + rest)));
    assert s == [0x9F] + t;
  }

  /** And so is one with other octets in place of the primary block's checksum. */
  lemma AlteredBundlePrimary(env: Env, b: Bundle, field: seq<byte>, rest: seq<byte>)
    requires Writable(b) && (b.primary.crcType == 1 || b.primary.crcType == 2)
    requires |field| == FieldLen(b.primary.crcType)
    ensures var bs := PrimaryBytes(env, b.primary);
      && |field| < |bs|
      && ReadBundle(env, [0x9F] + Altered(bs, field) + BlocksBytes(env, b.blocks) + [0xFF] + rest)
         == if field == bs[|bs| - |field|..] then ReadBundle(env, BundleBytes(env, b) + rest) else Failed
  {
    hide PrimaryBytes, BlocksBytes, WritablePrimary, WritableBlock, ReadBlocks, ReadPrimary, ValidBundle, Altered;
    var bs, behind := PrimaryBytes(env, b.primary), BlocksBytes(env, b.blocks);
    AlteredPrimary(env, b.primary, field, behind + [0xFF] + rest);
    if field == bs[|bs| - |field|..] {
      SameAltered(bs, field);
      assert [0x9F] + bs + behind + [0xFF] == BundleBytes(env, b);
    } else {
      var s := [0x9F] + Altered(bs, field) + behind + [0xFF] + rest;
      assert s[1..] == Altered(bs, field) + (behind + [0xFF] + rest);
    }
  }
}
