/** Inputs on which fragmentation or reassembly does less than its documentation promises. */
module Limits {
  import opened Bytes
  import opened Cbor
  import opened Endpoint
  import opened Blocks
  import opened Primary
  import opened BundleCodec
  import opened Sizes
  import opened Fragmentation
  import opened MtuBound
  import opened Reassembly
  import opened Coverage
  import opened RoundTrip
  import opened StorageRuns

  /* ---- fragments inside fragments ---- */

  const FOUR: seq<byte> := [1, 2, 3, 4]

  const NODE := Ipn(1, 1)

  /** A fragment with the octets of a four-octet payload from i to j. */
  function Slice(i: nat, j: nat): Bundle
    requires i <= j <= 4
  {
    Bundle(PrimaryBlock(DTN_VERSION, IS_FRAGMENT, CRC_NO, NODE, NODE, NODE, 1, 0, 1, i, 4),
           [CanonicalBlock(1, 0, CRC_NO, Payload(FOUR[i..j]))])
  }

  lemma SliceIsSlice(i: nat, j: nat)
    requires i <= j <= 4
    ensures SliceOf(Slice(i, j), FOUR) && Offset(Slice(i, j)) == i && Stop(Slice(i, j)) == j
  {
    assert FindType(Slice(i, j).blocks, PAYLOAD_TYPE) == 0;
  }

  /** [0, 3), [1, 2) and [2, 4) pass the gap check, and merging them slices out of range. */
  lemma ContainedFragmentPanics()
    ensures var bs := [Slice(0, 3), Slice(1, 2), Slice(2, 4)];
            SlicesOf(bs, FOUR) && SortedByOffset(bs) && AllSized(bs) && Accepts(bs) && Merge(bs) == Panic
  {
    hide Slice, SliceOf, Sized, HasType, PayloadData, Stop;
    var bs := [Slice(0, 3), Slice(1, 2), Slice(2, 4)];
    SliceIsSlice(0, 3);
    SliceIsSlice(1, 2);
    SliceIsSlice(2, 4);
    AcceptedSlices(bs, FOUR);
    assert Stop(bs[1]) < Stop(bs[0]);
    ReassemblableExactly(bs, FOUR);
  }

  /** [0, 4) and [1, 2) cover the payload and are refused. */
  lemma ContainedFragmentRefused()
    ensures var bs := [Slice(0, 4), Slice(1, 2)];
            SlicesOf(bs, FOUR) && SortedByOffset(bs) && AllSized(bs) && Covers(bs, FOUR) && !Accepts(bs)
  {
    hide Slice, SliceOf, Sized, HasType, PayloadData, Stop;
    var bs := [Slice(0, 4), Slice(1, 2)];
    SliceIsSlice(0, 4);
    SliceIsSlice(1, 2);
    AcceptedSlices(bs, FOUR);
    forall x | 0 <= x < 4 ensures Covered(x, bs, FOUR) {
      assert CoveredBy(x, bs[0]);
    }
  }

  /* ---- block number 0 ---- */

  const ZERO_MTU := 60000

  /** A bundle with 23 extension blocks numbered first, 2, 3, ..., 23 and a long payload. */
  function Sample(first: u64): (b: Bundle)
    ensures |b.blocks| == 24
    ensures forall k :: 0 <= k < 23 ==>
      b.blocks[k] == CanonicalBlock(if k == 0 then first else k + 1, 0, CRC_32, Generic(200 + k, []))
    ensures b.blocks[23] == CanonicalBlock(1, 0, CRC_32, Payload(Zeros(100000)))
  {
    Bundle(PrimaryBlock(DTN_VERSION, 0, CRC_32, NODE, NODE, NODE, 1, 0, 1, 0, 0),
           seq(23, k requires 0 <= k < 23 =>
             CanonicalBlock(if k == 0 then first else k + 1, 0, CRC_32, Generic(200 + k, [])))
           + [CanonicalBlock(1, 0, CRC_32, Payload(Zeros(100000)))])
  }

  lemma SampleIsValid(env: Env, first: u64)
    requires !env.late(1, 1) && (first == 0 || first == 24)
    ensures ValidBundle(env, Sample(first)) && Sized(Sample(first)) && Writable(Sample(first))
  {
    var b := Sample(first);
    assert DistinctNumbers(b.blocks);
    assert DistinctTypes(b.blocks);
  }

  lemma {:induction false} AllLongChecksums(blocks: seq<CanonicalBlock>)
    requires forall k :: 0 <= k < |blocks| ==> blocks[k].crcType == CRC_32
    ensures SlackSum(blocks) == 0
  {
    if blocks != [] {
      AllLongChecksums(blocks[..|blocks| - 1]);
    }
  }

  lemma {:induction false} AllShortNumbers(blocks: seq<CanonicalBlock>)
    requires forall k :: 0 <= k < |blocks| ==> blocks[k].number < 24
    ensures NumbersLen(blocks) == |blocks|
  {
    if blocks != [] {
      AllShortNumbers(blocks[1..]);
    }
  }

  lemma {:induction false} ShortRange(k: nat)
    requires k <= 22
    ensures RangeLen(2, k) == k
  {
    if k > 0 {
      ShortRange(k - 1);
    }
  }

  lemma {:induction false} SmallBlocks(blocks: seq<CanonicalBlock>)
    requires forall k :: 0 <= k < |blocks| ==>
      blocks[k].number < 0x100 && blocks[k].flags == 0 && blocks[k].crcType == CRC_32
      && blocks[k].value.Generic? && blocks[k].value.opaqueData == [] && blocks[k].value.code < 0x100
    ensures WritableValues(blocks) && BlocksLen(blocks) <= 13 * |blocks|
  {
    if blocks != [] {
      SmallBlocks(blocks[1..]);
      assert BlockLen(blocks[0]) <= 13;
    }
  }

  lemma WritableParts(b: Bundle)
    ensures Writable(b) <==> WritablePrimary(b.primary) && WritableBlocks(b.blocks)
  {
  }

  lemma {:induction false} SelectNothing(blocks: seq<CanonicalBlock>, first: bool)
    requires forall k :: 0 <= k < |blocks| ==> !Carried(blocks[k], first)
    ensures Select(blocks, first) == []
  {
    if blocks != [] {
      SelectNothing(blocks[..|blocks| - 1], first);
    }
  }

  lemma SampleIsCuttable(env: Env, first: u64)
    requires !env.late(1, 1) && (first == 0 || first == 24)
    ensures ValidBundle(env, Sample(first)) && Sized(Sample(first)) && Writable(Sample(first))
    ensures Cuttable(Sample(first))
    ensures Select(Sample(first).blocks, true) == Sample(first).blocks[..23]
    ensures Select(Sample(first).blocks, false) == []
    ensures PayloadBlock(Sample(first)) == Sample(first).blocks[23]
  {
    hide ValidBundle, Writable, Sized, FindType, Select;
    var b := Sample(first);
    SampleIsValid(env, first);
    PayloadIsLast(env, b);
    SelectIgnoresPayload(env, b, true);
    SelectAll(ExtensionBlocks(b));
    WritableParts(b);
    SelectNothing(b.blocks, false);
  }

  lemma NodeLen()
    ensures EndpointLen(NODE) == 5
  {
    assert |SspBytes(NODE)| == 3;
  }

  lemma SmallPrimary(first: u64, i: u64)
    ensures WritablePrimary(FragmentPrimary(Sample(first).primary, i, 100000))
    ensures PrimaryLen(FragmentPrimary(Sample(first).primary, i, 100000)) <= 100
  {
    NodeLen();
    hide EndpointLen, EndpointBytes;
  }

  lemma SmallFrame(payload: CanonicalBlock)
    requires payload == CanonicalBlock(1, 0, CRC_32, Payload(Zeros(100000)))
    ensures BlockLen(Emptied(payload)) <= 12 && MtuHead(ZERO_MTU) == 3 && |payload.value.data| == 100000
    ensures !Has(payload.flags, REPLICATE_BLOCK)
  {
  }

  /** What a fragment leaves for its payload. */
  lemma SmallOverhead(env: Env, first: u64, i: nat)
    requires !env.late(1, 1) && (first == 0 || first == 24) && i <= 100000 && Cuttable(Sample(first))
    ensures |PayloadData(Sample(first))| == 100000
    ensures Overhead(env, Sample(first), ZERO_MTU, i) <= 1000
  {
    hide ValidBundle, Writable, Sized, FindType, Predicted, Select, PrimaryBytes, Sample, BlockLen, BlocksLen,
         SlackSum, PrimaryLen, HeadLen, WritablePrimary, WritableValue, FragmentPrimary;
    var b := Sample(first);
    SampleIsCuttable(env, first);
    SmallFrame(PayloadBlock(b));
    PredictedWhole(env, b, i == 0, ZERO_MTU);
    SmallBlocks(Select(b.blocks, i == 0));
    AllLongChecksums(Select(b.blocks, i == 0));
    SmallPrimary(first, i);
    PrimaryBytesLen(env, FragmentPrimary(b.primary, i, 100000));
  }

  lemma SampleFlags(first: u64)
    ensures !Has(Sample(first).primary.flags, MUST_NOT_FRAGMENT) && !IsFragment(Sample(first).primary)
    ensures Sample(first).primary.time != 0
  {
  }

  lemma TwoPieces(env: Env, first: u64) returns (room: nat)
    requires !env.late(1, 1) && (first == 0 || first == 24)
    ensures Cuttable(Sample(first)) && |PayloadData(Sample(first))| == 100000
    ensures room == ZERO_MTU - Overhead(env, Sample(first), ZERO_MTU, 0) && 59000 <= room
    ensures Fragments(env, Sample(first), ZERO_MTU).Ok?
    ensures |Fragments(env, Sample(first), ZERO_MTU).value| == 2
    ensures Fragments(env, Sample(first), ZERO_MTU).value[0] == Piece(Sample(first), 0, room)
  {
    hide ValidBundle, Sized, FindType, Overhead, Sample, Select, Piece;
    var b := Sample(first);
    SampleIsCuttable(env, first);
    SmallOverhead(env, first, 0);
    room := ZERO_MTU - Overhead(env, b, ZERO_MTU, 0);
    SmallOverhead(env, first, room);
    SampleFlags(first);
    PieceIsValid(env, b, 0, room);
    PieceIsValid(env, b, room, 100000);
    assert Pieces(env, b, ZERO_MTU, room).Ok? && |Pieces(env, b, ZERO_MTU, room).value| == 1;
  }

  /** With the number 24 in its place the same bundle meets everything that the MTU bound, the round
      trip and the store ask for, and is cut in two. */
  lemma SampleIsSendable(env: Env) returns (bs: seq<Bundle>)
    requires !env.late(1, 1)
    ensures Sendable(env, Sample(24)) && ProperNumbers(Sample(24))
    ensures CutInto(env, Sample(24), ZERO_MTU, bs)
  {
    SampleIsNormal(env);
    SampleFlags(24);
    SampleIsCuttable(env, 24);
    hide Sample, ValidBundle, Sized, Writable, NormalBundle, Fragments, ProperNumbers, Cuttable, Select, FindType,
         Overhead, Piece;
    var room := TwoPieces(env, 24);
    bs := Fragments(env, Sample(24), ZERO_MTU).value;
  }

  lemma SampleIsNormal(env: Env)
    ensures NormalBundle(env, Sample(24)) && ProperNumbers(Sample(24))
  {
    var b := Sample(24);
    forall k | 0 <= k < |b.blocks|
      ensures NormalValue(env, b.blocks[k].value) && (!IsPayload(b.blocks[k]) ==> b.blocks[k].number >= 2)
    {
      if k < 23 {
        assert b.blocks[k].value == Generic(200 + k, []);
      }
    }
  }

  /** Without ProperNumbers the MTU bound fails: the blocks 0, 2, ..., 23 are renumbered to
      2, ..., 24, the last of which takes an octet that was not predicted. */
  lemma NumberZeroBreaksBound(env: Env)
    requires !env.late(1, 1)
    ensures ValidBundle(env, Sample(0)) && Sized(Sample(0)) && Writable(Sample(0))
    ensures Fragments(env, Sample(0), ZERO_MTU).Ok?
    ensures Fragments(env, Sample(0), ZERO_MTU).value != []
    ensures var piece := Fragments(env, Sample(0), ZERO_MTU).value[0];
            Writable(piece) && |BundleBytes(env, piece)| == ZERO_MTU + 1
  {
    hide Sample, ValidBundle, Sized, Writable, Overhead, FindType, Select, RangeLen, NumbersLen, SlackSum,
         BundleBytes, Piece, Fragments;
    var b := Sample(0);
    SampleIsCuttable(env, 0);
    var room := TwoPieces(env, 0);
    PieceSize(env, b, ZERO_MTU, 0, room);
    AllLongChecksums(b.blocks[..23]);
    AllShortNumbers(b.blocks[..23]);
    LongRange();
  }

  lemma LongRange()
    ensures RangeLen(2, 23) == 24
  {
    ShortRange(22);
  }
}
