/** The bundle as a whole: its CBOR form, an indefinite array of one primary block and any number
    of canonical blocks, and the validity check that ends every read. */
module BundleCodec {
  import opened Bytes
  import opened Cbor
  import opened Endpoint
  import opened Blocks
  import opened Primary

  /* ---- validity ---- */

  /** CanonicalBlock.CheckValid. */
  predicate ValidBlock(cb: CanonicalBlock) {
    && (cb.value.PreviousNode? ==> Valid(cb.value.endpoint))
    && (cb.value.HopCount? ==> cb.value.count <= cb.value.limit)
    && (TypeCode(cb.value) == PAYLOAD_TYPE ==> cb.number == 1)
  }

  predicate DistinctNumbers(blocks: seq<CanonicalBlock>) {
    forall i, j :: 0 <= i < j < |blocks| ==> blocks[i].number != blocks[j].number
  }

  predicate DistinctTypes(blocks: seq<CanonicalBlock>) {
    forall i, j :: 0 <= i < j < |blocks| ==> TypeCode(blocks[i].value) != TypeCode(blocks[j].value)
  }

  /** ExtensionBlock: the first block of a type, or |blocks| when there is none. */
  function FindType(blocks: seq<CanonicalBlock>, code: u64): (i: nat)
    ensures i <= |blocks|
    ensures i < |blocks| ==> TypeCode(blocks[i].value) == code
    ensures forall j :: 0 <= j < i ==> TypeCode(blocks[j].value) != code
  {
    if blocks == [] || TypeCode(blocks[0].value) == code then 0 else 1 + FindType(blocks[1..], code)
  }

  predicate HasType(blocks: seq<CanonicalBlock>, code: u64) {
    FindType(blocks, code) < |blocks|
  }

  /** IsLifetimeExceeded: without a clock at the source the age block decides. */
  predicate LifetimeExceeded(env: Env, b: Bundle) {
    if b.primary.time == 0 then
      var i := FindType(b.blocks, BUNDLE_AGE_TYPE);
      i == |b.blocks| || !b.blocks[i].value.BundleAge? || b.blocks[i].value.age > b.primary.lifetime
    else env.late(b.primary.time, b.primary.lifetime)
  }

  /** Bundle.CheckValid. */
  predicate ValidBundle(env: Env, b: Bundle) {
    && ValidPrimary(b.primary)
    && (forall i :: 0 <= i < |b.blocks| ==> ValidBlock(b.blocks[i]))
    && b.blocks != []
    && (Has(b.primary.flags, ADMINISTRATIVE_RECORD) || b.primary.source == DTN_NONE ==>
          forall i :: 0 <= i < |b.blocks| ==> !Has(b.blocks[i].flags, STATUS_REPORT_BLOCK))
    && DistinctNumbers(b.blocks)
    && DistinctTypes(b.blocks)
    && TypeCode(b.blocks[|b.blocks| - 1].value) == PAYLOAD_TYPE
    && (b.primary.time == 0 ==> HasType(b.blocks, BUNDLE_AGE_TYPE))
    && !LifetimeExceeded(env, b)
  }

  /* ---- CBOR ---- */

  predicate WritableBlocks(blocks: seq<CanonicalBlock>) {
    forall i :: 0 <= i < |blocks| ==> WritableBlock(blocks[i])
  }

  /** The bundles MarshalCbor writes without an error. */
  predicate Writable(b: Bundle) {
    WritablePrimary(b.primary) && WritableBlocks(b.blocks)
  }

  function BlocksBytes(env: Env, blocks: seq<CanonicalBlock>): seq<byte>
    requires WritableBlocks(blocks)
  {
    if blocks == [] then [] else BlockBytes(env, blocks[0]) + BlocksBytes(env, blocks[1..])
  }

  /** Bundle.MarshalCbor. */
  function BundleBytes(env: Env, b: Bundle): seq<byte>
    requires Writable(b)
  {
    [INDEFINITE_ARRAY] + (PrimaryBytes(env, b.primary) + (BlocksBytes(env, b.blocks) + [BREAK_CODE]))
  }

  /** Blocks up to the break code. The code is recognised wherever a block's own fields report it. */
  function ReadBlocks(env: Env, s: seq<byte>): Parse<seq<CanonicalBlock>>
    decreases |s|
  {
    match ReadBlock(env, s)
    case Broke(after) => Done([], after)
    case Failed => Failed
    case Done(cb, rest) =>
      var (blocks, rest') :- ReadBlocks(env, rest);
      Done([cb] + blocks, rest')
  }

  /** One expected octet. */
  function ReadMarker(marker: byte, s: seq<byte>): Parse<byte> {
    if s == [] || s[0] != marker then Failed else Done(marker, s[1..])
  }

  /** The syntax of a bundle, without the validity check. */
  function ReadSyntax(env: Env, s: seq<byte>): Parse<Bundle> {
    var (_, start) :- ReadMarker(INDEFINITE_ARRAY, s);
    var (primary, r0) :- ReadPrimary(env, start).Wrapped();
    var (blocks, r1) :- ReadBlocks(env, r0);
    Done(Bundle(primary, blocks), r1)
  }

  /** Bundle.UnmarshalCbor. */
  function ReadBundle(env: Env, s: seq<byte>): (p: Parse<Bundle>)
    ensures p.Done? ==> ValidBundle(env, p.value)
  {
    var (b, rest) :- ReadSyntax(env, s);
    if ValidBundle(env, b) then Done(b, rest) else Failed
  }

  /** The bundles every part of which is in the form its reader produces. */
  predicate NormalBundle(env: Env, b: Bundle) {
    && NormalPrimary(b.primary)
    && NormalValues(env, b.blocks)
  }

  /** The list of blocks that reading a written list gives, or an error. */
  function ReadBackBlocks(env: Env, blocks: seq<CanonicalBlock>): Result<seq<CanonicalBlock>>
    requires WritableBlocks(blocks)
  {
    if blocks == [] then Ok([])
    else
      match (ReadValue(env, TypeCode(blocks[0].value), ValueBytes(blocks[0].value)), ReadBackBlocks(env, blocks[1..]))
      case (Ok(v), Ok(bs)) => Ok([blocks[0].(value := v)] + bs)
      case _ => Err
  }

  predicate NormalValues(env: Env, blocks: seq<CanonicalBlock>) {
    forall i :: 0 <= i < |blocks| ==> NormalValue(env, blocks[i].value)
  }

  lemma {:induction false} ReadBackBlocksFixedPoint(env: Env, blocks: seq<CanonicalBlock>)
    requires WritableBlocks(blocks)
    ensures ReadBackBlocks(env, blocks) == Ok(blocks) <==> NormalValues(env, blocks)
  {
    if blocks != [] {
      ValueRoundTrip(env, blocks[0].value);
      ReadBackBlocksFixedPoint(env, blocks[1..]);
      assert blocks == [blocks[0]] + blocks[1..];
      assert NormalValues(env, blocks) <==> NormalValue(env, blocks[0].value) && NormalValues(env, blocks[1..]);
    }
  }

  lemma ReadBlocksStep(env: Env, s: seq<byte>, p: Parse<CanonicalBlock>)
    requires ReadBlock(env, s) == p && !p.Broke?
    ensures p.Failed? ==> ReadBlocks(env, s) == Failed
    ensures p.Done? ==>
      var q := ReadBlocks(env, p.rest);
      ReadBlocks(env, s) == if q.Done? then Done([p.value] + q.value, q.rest) else q
  {
  }

  lemma BreakEndsBlocks(env: Env, rest: seq<byte>)
    ensures ReadBlocks(env, [BREAK_CODE] + rest) == Done([], rest)
  {
    assert ([BREAK_CODE] + rest)[1..] == rest;
  }

  /** A list of blocks followed by the break code reads back block by block up to exactly there. */
  lemma {:induction false} BlocksRoundTrip(env: Env, blocks: seq<CanonicalBlock>, rest: seq<byte>)
    requires WritableBlocks(blocks)
    ensures ReadBlocks(env, BlocksBytes(env, blocks) + ([BREAK_CODE] + rest))
         == match ReadBackBlocks(env, blocks) case Ok(bs) => Done(bs, rest) case Err => Failed
    decreases |blocks|
  {
    var end := [BREAK_CODE] + rest;
    if blocks == [] {
      assert BlocksBytes(env, blocks) + end == end;
      BreakEndsBlocks(env, rest);
    } else {
      var tail := BlocksBytes(env, blocks[1..]) + end;
      assert BlocksBytes(env, blocks) + end == BlockBytes(env, blocks[0]) + tail;
      BlockRoundTrip(env, blocks[0], tail);
      BlocksRoundTrip(env, blocks[1..], rest);
      ReadBlocksStep(env, BlockBytes(env, blocks[0]) + tail, ReadBlock(env, BlockBytes(env, blocks[0]) + tail));
    }
  }

  lemma ReadSyntaxSteps(env: Env, s: seq<byte>, primary: PrimaryBlock, r0: seq<byte>)
    requires s != [] && s[0] == INDEFINITE_ARRAY && ReadPrimary(env, s[1..]) == Done(primary, r0)
    ensures var q := ReadBlocks(env, r0);
            ReadSyntax(env, s) == if q.Done? then Done(Bundle(primary, q.value), q.rest) else q.PropagateFailure()
  {
  }

  lemma SyntaxRoundTrip(env: Env, b: Bundle, rest: seq<byte>)
    requires Writable(b)
    ensures ReadSyntax(env, BundleBytes(env, b) + rest)
         == match ReadBackBlocks(env, b.blocks)
            case Ok(bs) => Done(Bundle(ReadBackPrimary(b.primary), bs), rest)
            case Err => Failed
  {
    var r0 := BlocksBytes(env, b.blocks) + ([BREAK_CODE] + rest);
    FrameTail(INDEFINITE_ARRAY, PrimaryBytes(env, b.primary), BlocksBytes(env, b.blocks), [BREAK_CODE], rest);
    PrimaryRoundTrip(env, b.primary, r0);
    BlocksRoundTrip(env, b.blocks, rest);
    ReadSyntaxSteps(env, BundleBytes(env, b) + rest, ReadBackPrimary(b.primary), r0);
  }

  /** Unmarshalling what was marshalled, with any octets after it, returns the bundle and leaves
      those octets, exactly for the valid bundles in normal form. */
  lemma BundleRoundTrip(env: Env, b: Bundle, rest: seq<byte>)
    requires Writable(b)
    ensures ReadBundle(env, BundleBytes(env, b) + rest) == Done(b, rest) <==>
            NormalBundle(env, b) && ValidBundle(env, b)
  {
    hide ReadSyntax, BundleBytes, ValidBundle, NormalPrimary, NormalValues, ReadBackPrimary, ReadBackBlocks,
         WritablePrimary, WritableBlocks;
    SyntaxRoundTrip(env, b, rest);
    ReadBackFixedPoint(b.primary);
    ReadBackBlocksFixedPoint(env, b.blocks);
  }
}
