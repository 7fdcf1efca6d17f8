/** When the MTU bound of fragmentation holds, exactly: for one cut, and as a property of a bundle's
    blocks alone, whatever its payload and the MTU. */
module MtuExact {
  import opened Bytes
  import opened Cbor
  import Endpoint
  import opened Blocks
  import opened Primary
  import opened BundleCodec
  import opened Sizes
  import opened Fragmentation
  import opened MtuBound
  import opened Reassembly
  import opened RoundTrip

  predicate AllFit(env: Env, bs: seq<Bundle>, mtu: int) {
    forall k :: 0 <= k < |bs| ==> Fitting(env, bs[k], mtu)
  }

  /* ---- one cut ---- */

  /** The new block numbers of the fragment from i to j cost no more than what is spare. */
  predicate Affordable(env: Env, b: Bundle, mtu: int, i: nat, j: nat)
    requires Cuttable(b) && i <= j <= |PayloadData(b)| && Overhead(env, b, mtu, i) <= mtu
  {
    RangeLen(2, |Select(b.blocks, i == 0)|)
      <= NumbersLen(Select(b.blocks, i == 0)) + Spare(b, mtu, i, j, mtu - Overhead(env, b, mtu, i))
  }

  /** All cuts from i on are affordable. */
  predicate AffordableFrom(env: Env, b: Bundle, mtu: int, i: nat)
    requires Cuttable(b)
    decreases |PayloadData(b)| - i
  {
    i >= |PayloadData(b)| || Overhead(env, b, mtu, i) >= mtu ||
    (var next := i + (mtu - Overhead(env, b, mtu, i));
     Affordable(env, b, mtu, i, Min(next, |PayloadData(b)|)) && AffordableFrom(env, b, mtu, next))
  }

  lemma {:induction false} PiecesFitExactly(env: Env, b: Bundle, mtu: int, i: nat)
    requires Sized(b) && Writable(b) && ValidBundle(env, b)
    requires Cuttable(b) && Pieces(env, b, mtu, i).Ok?
    ensures AllFit(env, Pieces(env, b, mtu, i).value, mtu) <==> AffordableFrom(env, b, mtu, i)
    decreases |PayloadData(b)| - i
  {
    hide ValidBundle, FindType, Writable, BundleBytes, Piece, Overhead, Spare, Select, NumbersLen, RangeLen, Sized,
         WritablePrimary;
    if i < |PayloadData(b)| {
      var (piece, room) := NextPiece(env, b, mtu, i).value;
      var rest := Pieces(env, b, mtu, i + room).value;
      PieceFits(env, b, mtu, i, Min(i + room, |PayloadData(b)|));
      PiecesFitExactly(env, b, mtu, i + room);
      hide NextPiece, Affordable;
      AllFitFirst(env, piece, rest, mtu);
    }
  }

  lemma AllFitFirst(env: Env, piece: Bundle, rest: seq<Bundle>, mtu: int)
    ensures AllFit(env, [piece] + rest, mtu) <==> Fitting(env, piece, mtu) && AllFit(env, rest, mtu)
  {
    hide Fitting;
    var bs := [piece] + rest;
    assert forall k :: 0 < k < |bs| ==> bs[k] == rest[k - 1];
    if AllFit(env, bs, mtu) {
      assert bs[0] == piece;
      forall k | 0 <= k < |rest| ensures Fitting(env, rest[k], mtu) {
        assert bs[k + 1] == rest[k];
      }
    }
  }

  /** For every valid bundle, whatever its block numbers, and every MTU: the fragments of a
      successful Fragment that makes several all fit exactly when every cut is affordable. */
  lemma FragmentsFitExactly(env: Env, b: Bundle, mtu: int)
    requires Sized(b) && Writable(b) && ValidBundle(env, b)
    requires Fragments(env, b, mtu).Ok? && |Fragments(env, b, mtu).value| >= 2
    ensures Cuttable(b)
    ensures AllFit(env, Fragments(env, b, mtu).value, mtu) <==> AffordableFrom(env, b, mtu, 0)
  {
    hide ValidBundle, FindType, Writable, AllFit, AffordableFrom, Sized, WritablePrimary, Pieces;
    PiecesFitExactly(env, b, mtu, 0);
  }

  /* ---- the blocks alone ---- */

  /** What a fragment has to spare in any case: shorter checksums, and the payload block of a later
      fragment that is predicted twice. */
  function SureSpare(b: Bundle, first: bool): nat
    requires Sized(b) && HasType(b.blocks, PAYLOAD_TYPE)
  {
    var payload := PayloadBlock(b);
    SlackSum(Select(b.blocks, first)) + CrcSlack(payload.crcType)
    + if !first && Has(payload.flags, REPLICATE_BLOCK) then BlockLen(Emptied(payload)) else 0
  }

  /** Renumbering the blocks of the first or of later fragments never costs more than that. */
  predicate Cheap(b: Bundle, first: bool)
    requires Sized(b) && HasType(b.blocks, PAYLOAD_TYPE)
  {
    RangeLen(2, |Select(b.blocks, first)|) <= NumbersLen(Select(b.blocks, first)) + SureSpare(b, first)
  }

  lemma SpareSplits(b: Bundle, mtu: int, i: nat, j: nat, room: nat)
    requires Sized(b) && HasType(b.blocks, PAYLOAD_TYPE) && i <= j <= |PayloadData(b)|
    ensures Spare(b, mtu, i, j, room) == (room - (j - i)) + (MtuHead(mtu) - HeadLen(j - i)) + SureSpare(b, i == 0)
  {
    hide BlockLen, HeadLen, SlackSum, FindType, Sized, Select, Has;
  }

  lemma CheapIsAffordable(env: Env, b: Bundle, mtu: int, i: nat)
    requires Cuttable(b) && i < |PayloadData(b)| && Overhead(env, b, mtu, i) < mtu <= MAX_LEN && Cheap(b, i == 0)
    ensures Affordable(env, b, mtu, i, Min(i + (mtu - Overhead(env, b, mtu, i)), |PayloadData(b)|))
  {
    hide Overhead, Spare, SureSpare, RangeLen, NumbersLen, Select, FindType, Sized, WritablePrimary;
    var room := mtu - Overhead(env, b, mtu, i);
    var j := Min(i + room, |PayloadData(b)|);
    SpareSplits(b, mtu, i, j, room);
    HeadLenMonotone(j - i, mtu);
  }

  lemma {:induction false} CheapIsAffordableFrom(env: Env, b: Bundle, mtu: int, i: nat)
    requires Cuttable(b) && mtu <= MAX_LEN && Cheap(b, true) && Cheap(b, false)
    ensures AffordableFrom(env, b, mtu, i)
    decreases |PayloadData(b)| - i
  {
    hide Overhead, Affordable, Cheap, FindType, Sized, WritablePrimary;
    if i < |PayloadData(b)| && Overhead(env, b, mtu, i) < mtu {
      CheapIsAffordable(env, b, mtu, i);
      CheapIsAffordableFrom(env, b, mtu, i + (mtu - Overhead(env, b, mtu, i)));
    }
  }

  /* ---- the same bundle with another payload ---- */

  function WithPayload(b: Bundle, data: seq<byte>): Bundle
    requires Sized(b) && HasType(b.blocks, PAYLOAD_TYPE) && b.blocks != []
  {
    b.(blocks := ExtensionBlocks(b) + [PayloadBlock(b).(value := Payload(data))])
  }

  lemma {:induction false} SameTypesFound(a: seq<CanonicalBlock>, b: seq<CanonicalBlock>, code: u64)
    requires |a| == |b| && forall i :: 0 <= i < |a| ==> TypeCode(a[i].value) == TypeCode(b[i].value)
    ensures FindType(a, code) == FindType(b, code)
  {
    if a != [] {
      SameTypesFound(a[1..], b[1..], code);
    }
  }

  /** The bundles differ in the payload of the last block alone. */
  predicate SameButPayload(b: Bundle, c: Bundle, data: seq<byte>) {
    var last := |b.blocks| - 1;
    && c.primary == b.primary && |c.blocks| == |b.blocks| && b.blocks != []
    && (forall i :: 0 <= i < last ==> c.blocks[i] == b.blocks[i] && !IsPayload(b.blocks[i]))
    && c.blocks[last] == b.blocks[last].(value := Payload(data)) && b.blocks[last].value.Payload?
  }

  lemma PayloadReplaced(env: Env, b: Bundle, data: seq<byte>)
    requires Sized(b) && ValidBundle(env, b) && HasType(b.blocks, PAYLOAD_TYPE)
    ensures b.blocks != []
    ensures var c := WithPayload(b, data);
      && SameButPayload(b, c, data) && ExtensionBlocks(c) == ExtensionBlocks(b)
      && PayloadBlock(b) == b.blocks[|b.blocks| - 1] && FindType(b.blocks, PAYLOAD_TYPE) == |b.blocks| - 1
      && forall code :: FindType(c.blocks, code) == FindType(b.blocks, code)
  {
    hide ValidBundle, Sized;
    PayloadIsLast(env, b);
    PayloadBlockIsLast(env, b);
    var c, last := WithPayload(b, data), |b.blocks| - 1;
    assert c.blocks[..last] == ExtensionBlocks(b);
    assert forall i :: 0 <= i < last ==> c.blocks[i] == ExtensionBlocks(b)[i] == b.blocks[i];
    forall code ensures FindType(c.blocks, code) == FindType(b.blocks, code) {
      SameTypesFound(c.blocks, b.blocks, code);
    }
  }

  lemma SameBlockShape(b: Bundle, c: Bundle, data: seq<byte>)
    requires SameButPayload(b, c, data)
    ensures forall i :: 0 <= i < |c.blocks| ==>
      && c.blocks[i].number == b.blocks[i].number && c.blocks[i].flags == b.blocks[i].flags
      && c.blocks[i].crcType == b.blocks[i].crcType && TypeCode(c.blocks[i].value) == TypeCode(b.blocks[i].value)
  {
    assert TypeCode(c.blocks[|b.blocks| - 1].value) == TypeCode(b.blocks[|b.blocks| - 1].value);
  }

  lemma SameValidBlocks(b: Bundle, c: Bundle, data: seq<byte>)
    requires SameButPayload(b, c, data) && forall i :: 0 <= i < |b.blocks| ==> ValidBlock(b.blocks[i])
    ensures forall i :: 0 <= i < |c.blocks| ==> ValidBlock(c.blocks[i])
  {
    assert ValidBlock(b.blocks[|b.blocks| - 1]);
    assert ValidBlock(c.blocks[|b.blocks| - 1]);
    hide ValidBlock;
  }

  lemma SameDistinct(a: seq<CanonicalBlock>, b: seq<CanonicalBlock>)
    requires |a| == |b| && DistinctNumbers(b) && DistinctTypes(b)
    requires forall i :: 0 <= i < |a| ==> a[i].number == b[i].number && TypeCode(a[i].value) == TypeCode(b[i].value)
    ensures DistinctNumbers(a) && DistinctTypes(a)
  {
    hide TypeCode;
  }

  /** The age block is not the payload. */
  lemma SameLifetime(env: Env, b: Bundle, c: Bundle, data: seq<byte>)
    requires SameButPayload(b, c, data) && forall code :: FindType(c.blocks, code) == FindType(b.blocks, code)
    ensures LifetimeExceeded(env, c) == LifetimeExceeded(env, b)
    ensures HasType(c.blocks, BUNDLE_AGE_TYPE) == HasType(b.blocks, BUNDLE_AGE_TYPE)
  {
    hide FindType;
  }

  lemma WithPayloadValid(env: Env, b: Bundle, data: seq<byte>)
    requires Sized(b) && ValidBundle(env, b) && HasType(b.blocks, PAYLOAD_TYPE) && b.blocks != []
    ensures ValidBundle(env, WithPayload(b, data))
    ensures AgeCarried(WithPayload(b, data), false) <==> AgeCarried(b, false)
  {
    PayloadReplaced(env, b, data);
    hide ValidPrimary, FindType, Sized, WithPayload, ExtensionBlocks, PayloadBlock, SameButPayload, ValidBlock,
         DistinctNumbers, DistinctTypes, LifetimeExceeded, TypeCode;
    var c := WithPayload(b, data);
    SameBlockShape(b, c, data);
    SameValidBlocks(b, c, data);
    SameDistinct(c.blocks, b.blocks);
    SameLifetime(env, b, c, data);
    SamePrimary(b, c, data);
  }

  lemma SamePrimary(b: Bundle, c: Bundle, data: seq<byte>)
    requires SameButPayload(b, c, data)
    ensures c.primary == b.primary && |c.blocks| == |b.blocks| && b.blocks != []
  {
  }

  lemma SameSized(b: Bundle, c: Bundle, data: seq<byte>)
    requires SameButPayload(b, c, data) && |data| <= MAX_PAYLOAD
    ensures Sized(b) ==> Sized(c)
  {
    hide Endpoint.Fits;
  }

  lemma SameWritable(b: Bundle, c: Bundle, data: seq<byte>)
    requires SameButPayload(b, c, data) && |data| <= MAX_PAYLOAD && Writable(b)
    ensures Writable(c) && WritablePrimary(c.primary) && WritableValues(c.blocks)
  {
    hide WritablePrimary;
    assert WritableBlock(b.blocks[|b.blocks| - 1]);
    assert WritableBlock(c.blocks[|b.blocks| - 1]);
    hide WritableValue;
  }

  lemma SameSelection(env: Env, b: Bundle, data: seq<byte>, first: bool)
    requires Sized(b) && ValidBundle(env, b) && HasType(b.blocks, PAYLOAD_TYPE) && b.blocks != []
    ensures Select(WithPayload(b, data).blocks, first) == Select(b.blocks, first)
  {
    hide ValidBundle, FindType, Sized, Select, SameButPayload, WithPayload;
    PayloadReplaced(env, b, data);
    WithPayloadValid(env, b, data);
    SelectIgnoresPayload(env, b, first);
    SelectIgnoresPayload(env, WithPayload(b, data), first);
  }

  lemma SameCost(b: Bundle, c: Bundle, data: seq<byte>)
    requires SameButPayload(b, c, data) && Sized(b) && Sized(c)
    requires FindType(b.blocks, PAYLOAD_TYPE) == FindType(c.blocks, PAYLOAD_TYPE) == |b.blocks| - 1
    requires Select(b.blocks, true) == Select(c.blocks, true) && Select(b.blocks, false) == Select(c.blocks, false)
    ensures PayloadData(c) == data
    ensures Cheap(c, true) == Cheap(b, true) && Cheap(c, false) == Cheap(b, false)
  {
    hide FindType, Sized, Select, SlackSum, NumbersLen, RangeLen, BlockLen, Has;
  }

  lemma WithPayloadFits(env: Env, b: Bundle, data: seq<byte>)
    requires Sized(b) && Writable(b) && ValidBundle(env, b) && HasType(b.blocks, PAYLOAD_TYPE) && b.blocks != []
    requires |data| <= MAX_PAYLOAD
    ensures var c := WithPayload(b, data);
      && Sized(c) && Writable(c) && HasType(c.blocks, PAYLOAD_TYPE) && Cuttable(c) && PayloadData(c) == data
      && c.primary == b.primary && Cheap(c, true) == Cheap(b, true) && Cheap(c, false) == Cheap(b, false)
  {
    hide ValidBundle, FindType, WithPayload, Select, SameButPayload, Sized, Writable, WritablePrimary, WritableValues,
         Cheap, PayloadData;
    PayloadReplaced(env, b, data);
    var c := WithPayload(b, data);
    SamePrimary(b, c, data);
    SameSized(b, c, data);
    SameWritable(b, c, data);
    SameSelection(env, b, data, true);
    SameSelection(env, b, data, false);
    SameCost(b, c, data);
  }

  /* ---- a payload and an MTU that leave nothing to spare ---- */

  const PROBE_MTU: int := 0x4_0000_0000_0000

  /** A bundle that marshals to at most 2^40 octets without its payload. */
  predicate Modest(env: Env, b: Bundle)
    requires Sized(b) && HasType(b.blocks, PAYLOAD_TYPE) && b.blocks != []
  {
    Writable(WithPayload(b, [])) && |BundleBytes(env, WithPayload(b, []))| <= 0x100_0000_0000
  }

  function Probe(b: Bundle): Bundle
    requires Sized(b) && HasType(b.blocks, PAYLOAD_TYPE) && b.blocks != []
  {
    WithPayload(b, Zeros(MAX_PAYLOAD))
  }

  lemma BlockTakesOctets(cb: CanonicalBlock)
    requires WritableBlock(cb)
    ensures BlockLen(cb) + CrcSlack(cb.crcType) <= 6 * BlockLen(cb)
  {
  }

  lemma {:induction false} SelectedCost(blocks: seq<CanonicalBlock>, first: bool)
    requires WritableBlocks(blocks)
    ensures WritableBlocks(Select(blocks, first)) && WritableValues(Select(blocks, first)) && WritableValues(blocks)
    ensures BlocksLen(Select(blocks, first)) + SlackSum(Select(blocks, first)) <= 6 * BlocksLen(blocks)
  {
    hide BlockLen, CrcSlack, WritableValue, Carried;
    if blocks != [] {
      var front, last := blocks[..|blocks| - 1], blocks[|blocks| - 1];
      SelectedCost(front, first);
      assert blocks == front + [last];
      BlocksLenLast(front, last);
      BlockTakesOctets(last);
      if Carried(last, first) {
        BlocksLenLast(Select(front, first), last);
        SlackSumLast(Select(front, first), last);
      }
    }
  }

  lemma FragmentPrimaryLen(p: PrimaryBlock, offset: u64, total: u64)
    requires WritablePrimary(p)
    ensures WritablePrimary(FragmentPrimary(p, offset, total))
    ensures PrimaryLen(FragmentPrimary(p, offset, total)) <= PrimaryLen(p) + 27
  {
    hide EndpointLen, Endpoint.Valid, Endpoint.Fits;
  }

  lemma EmptiedLen(cb: CanonicalBlock)
    ensures BlockLen(Emptied(cb)) <= 40
  {
  }

  /** The parts of a bundle that are not payload take no more than the whole without payload. */
  lemma ModestParts(env: Env, b: Bundle)
    requires Sized(b) && Writable(b) && ValidBundle(env, b) && HasType(b.blocks, PAYLOAD_TYPE) && b.blocks != []
    requires Modest(env, b)
    ensures WritableValues(Select(b.blocks, true)) && WritablePrimary(b.primary)
    ensures PrimaryLen(b.primary) + BlocksLen(Select(b.blocks, true)) <= 0x100_0000_0000
  {
    hide ValidBundle, FindType, Writable, Select, BundleBytes, PrimaryLen, BlocksLen, BlockLen, Sized, Endpoint.Valid,
         Endpoint.Fits;
    var c := WithPayload(b, []);
    WithPayloadValid(env, b, []);
    WithPayloadFits(env, b, []);
    PayloadReplaced(env, b, []);
    SelectIgnoresPayload(env, b, true);
    SelectIgnoresPayload(env, c, true);
    WholeLen(env, c);
    PrimaryIsWritable(b);
  }

  lemma PrimaryIsWritable(b: Bundle)
    requires Writable(b)
    ensures WritablePrimary(b.primary)
  {
  }

  lemma ProbePrimary(env: Env, b: Bundle, i: nat)
    requires WritablePrimary(b.primary) && i <= MAX_PAYLOAD
    ensures |PrimaryBytes(env, FragmentPrimary(b.primary, i, MAX_PAYLOAD))| <= PrimaryLen(b.primary) + 27
  {
    hide PrimaryBytes, PrimaryLen, FragmentPrimary, WritablePrimary;
    FragmentPrimaryLen(b.primary, i, MAX_PAYLOAD);
    PrimaryBytesLen(env, FragmentPrimary(b.primary, i, MAX_PAYLOAD));
  }

  lemma ShortHead(mtu: int)
    ensures MtuHead(mtu) <= 9
  {
  }

  lemma ProbePredicted(env: Env, b: Bundle, first: bool)
    requires Sized(b) && Writable(b) && ValidBundle(env, b) && HasType(b.blocks, PAYLOAD_TYPE) && b.blocks != []
    ensures Cuttable(Probe(b)) && WritableValues(Select(b.blocks, true))
    ensures Predicted(Probe(b).blocks, first, PROBE_MTU) <= 6 * BlocksLen(Select(b.blocks, true)) + 88
  {
    hide ValidBundle, FindType, Writable, Select, BlocksLen, BlockLen, SlackSum, Predicted, Sized, WithPayload,
         WritablePrimary, WritableValues, PayloadBlock, Emptied, HeadLen;
    ProbeShape(env, b);
    ProbeParts(env, b, first);
    hide Probe;
    PredictedWhole(env, Probe(b), first, PROBE_MTU);
    EmptiedLen(PayloadBlock(Probe(b)));
    ShortHead(PROBE_MTU);
  }

  lemma OverheadBound(env: Env, b: Bundle, i: nat)
    requires Sized(b) && Writable(b) && ValidBundle(env, b) && HasType(b.blocks, PAYLOAD_TYPE) && b.blocks != []
    requires Modest(env, b) && i <= MAX_PAYLOAD
    ensures Cuttable(Probe(b)) && Overhead(env, Probe(b), PROBE_MTU, i) <= 0x800_0000_0000
  {
    hide ValidBundle, FindType, Writable, Select, PrimaryBytes, PrimaryLen, BlocksLen, Predicted, Sized, Probe, Modest,
         WritablePrimary, WritableValues, PayloadBlock;
    ModestParts(env, b);
    ProbeShape(env, b);
    ProbePrimary(env, b, i);
    ProbePredicted(env, b, i == 0);
  }

  lemma ProbeParts(env: Env, b: Bundle, first: bool)
    requires Sized(b) && Writable(b) && ValidBundle(env, b) && HasType(b.blocks, PAYLOAD_TYPE) && b.blocks != []
    ensures var s := Select(Probe(b).blocks, first);
      && WritableValues(s) && WritableValues(Select(b.blocks, true))
      && BlocksLen(s) + SlackSum(s) <= 6 * BlocksLen(Select(b.blocks, true))
      && Probe(b).primary == b.primary
  {
    hide ValidBundle, FindType, BlocksLen, SlackSum, Sized, WithPayload, WritableBlock, WritablePrimary;
    PayloadReplaced(env, b, Zeros(MAX_PAYLOAD));
    WithPayloadValid(env, b, Zeros(MAX_PAYLOAD));
    SelectIgnoresPayload(env, Probe(b), first);
    SelectIgnoresPayload(env, b, true);
    SelectAll(ExtensionBlocks(b));
    hide Select;
    SelectedCost(ExtensionBlocks(b), first);
  }

  lemma {:induction false} PiecesSucceed(env: Env, c: Bundle, mtu: int, i: nat)
    requires Cuttable(c) && ValidBundle(env, c) && !Has(c.primary.flags, MUST_NOT_FRAGMENT) && AgeCarried(c, false)
    requires forall k: nat :: k < |PayloadData(c)| ==> Overhead(env, c, mtu, k) < mtu
    ensures Pieces(env, c, mtu, i).Ok?
    decreases |PayloadData(c)| - i
  {
    hide ValidBundle, FindType, Overhead, Piece, Sized, WritablePrimary, AgeCarried;
    if i < |PayloadData(c)| {
      var room := mtu - Overhead(env, c, mtu, i);
      WholeCarriesAge(env, c);
      PieceIsValid(env, c, i, Min(i + room, |PayloadData(c)|));
      PiecesSucceed(env, c, mtu, i + room);
    }
  }

  /** With a long payload and a large MTU a full fragment has nothing to spare that is not sure. */
  lemma FullPieceExactly(env: Env, c: Bundle, i: nat)
    requires Cuttable(c) && PayloadData(c) == Zeros(MAX_PAYLOAD) && i + PROBE_MTU <= MAX_PAYLOAD
    requires Overhead(env, c, PROBE_MTU, i) <= 0x800_0000_0000
    ensures var next := i + (PROBE_MTU - Overhead(env, c, PROBE_MTU, i));
      && Min(next, |PayloadData(c)|) == next
      && (Affordable(env, c, PROBE_MTU, i, next) <==> Cheap(c, i == 0))
  {
    hide Overhead, Spare, SureSpare, RangeLen, NumbersLen, Select, FindType, Sized, WritablePrimary, Zeros;
    var room := PROBE_MTU - Overhead(env, c, PROBE_MTU, i);
    assert MtuHead(PROBE_MTU) == 9 && HeadLen(room) == 9;
    SpareSplits(c, PROBE_MTU, i, i + room, room);
  }

  /** A bundle with a long payload is cut into several fragments, which fit only if renumbering is
      cheap. */
  lemma LongExactly(env: Env, c: Bundle)
    requires Sized(c) && Writable(c) && ValidBundle(env, c) && Cuttable(c) && PayloadData(c) == Zeros(MAX_PAYLOAD)
    requires !Has(c.primary.flags, MUST_NOT_FRAGMENT) && AgeCarried(c, false)
    requires forall i: nat :: i <= MAX_PAYLOAD ==> Overhead(env, c, PROBE_MTU, i) <= 0x800_0000_0000
    ensures Fragments(env, c, PROBE_MTU).Ok?
    ensures AllFit(env, Fragments(env, c, PROBE_MTU).value, PROBE_MTU) ==> Cheap(c, true) && Cheap(c, false)
  {
    hide ValidBundle, FindType, Overhead, Piece, Sized, Writable, Cheap, AllFit, Affordable, Zeros, AgeCarried,
         WritablePrimary;
    PiecesSucceed(env, c, PROBE_MTU, 0);
    SeveralPieces(env, c);
    hide Fragments, Pieces;
    FragmentsFitExactly(env, c, PROBE_MTU);
    FullPieceExactly(env, c, 0);
    FullPieceExactly(env, c, PROBE_MTU - Overhead(env, c, PROBE_MTU, 0));
  }

  lemma ProbeShape(env: Env, b: Bundle)
    requires Sized(b) && Writable(b) && ValidBundle(env, b) && HasType(b.blocks, PAYLOAD_TYPE) && b.blocks != []
    ensures var c := Probe(b);
      && Sized(c) && Writable(c) && ValidBundle(env, c) && Cuttable(c) && PayloadData(c) == Zeros(MAX_PAYLOAD)
      && c.primary == b.primary && AgeCarried(c, false) == AgeCarried(b, false)
      && Cheap(c, true) == Cheap(b, true) && Cheap(c, false) == Cheap(b, false)
  {
    hide ValidBundle, FindType, Sized, Writable, Cheap, AgeCarried, WritablePrimary;
    WithPayloadValid(env, b, Zeros(MAX_PAYLOAD));
    WithPayloadFits(env, b, Zeros(MAX_PAYLOAD));
  }

  lemma ProbeExactly(env: Env, b: Bundle)
    requires Sized(b) && Writable(b) && ValidBundle(env, b) && HasType(b.blocks, PAYLOAD_TYPE) && b.blocks != []
    requires Modest(env, b) && !Has(b.primary.flags, MUST_NOT_FRAGMENT) && AgeCarried(b, false)
    ensures var c := Probe(b);
      && Sized(c) && Fragments(env, c, PROBE_MTU).Ok?
      && (AllFit(env, Fragments(env, c, PROBE_MTU).value, PROBE_MTU) ==> Cheap(b, true) && Cheap(b, false))
  {
    hide ValidBundle, FindType, Overhead, Sized, Probe, Writable, Cheap, Modest, AllFit, Zeros, AgeCarried,
         WritablePrimary, Fragments, PayloadData, Cuttable;
    ProbeShape(env, b);
    forall i: nat | i <= MAX_PAYLOAD ensures Overhead(env, Probe(b), PROBE_MTU, i) <= 0x800_0000_0000 {
      OverheadBound(env, b, i);
    }
    LongExactly(env, Probe(b));
  }

  lemma SeveralPieces(env: Env, c: Bundle)
    requires Cuttable(c) && |PayloadData(c)| == MAX_PAYLOAD && Pieces(env, c, PROBE_MTU, 0).Ok?
    requires Overhead(env, c, PROBE_MTU, 0) < PROBE_MTU && !Has(c.primary.flags, MUST_NOT_FRAGMENT)
    ensures Fragments(env, c, PROBE_MTU).Ok? && |Fragments(env, c, PROBE_MTU).value| >= 2
  {
    hide Overhead, FindType, Piece, ValidBundle, Sized, WritablePrimary;
    if |Pieces(env, c, PROBE_MTU, 0).value| == 1 {
      SinglePieceHasRoom(env, c, PROBE_MTU);
    }
  }

  /* ---- the exact condition ---- */

  /** Whatever the payload and the MTU, every fragment fits. */
  ghost predicate AlwaysFits(env: Env, b: Bundle)
    requires Sized(b) && HasType(b.blocks, PAYLOAD_TYPE) && b.blocks != []
  {
    forall data: seq<byte>, mtu: int :: FitsWith(env, b, data, mtu)
  }

  predicate FitsWith(env: Env, b: Bundle, data: seq<byte>, mtu: int)
    requires Sized(b) && HasType(b.blocks, PAYLOAD_TYPE) && b.blocks != []
  {
    var c := WithPayload(b, data);
    mtu <= MAX_LEN && |data| <= MAX_PAYLOAD && Sized(c) && Fragments(env, c, mtu).Ok?
    ==> AllFit(env, Fragments(env, c, mtu).value, mtu)
  }

  /** What a caller can look up: the bundle must not be fragmented, or later fragments lack the age
      block they need, or renumbering the blocks of first and later fragments is cheap. */
  predicate SafeToFragment(b: Bundle)
    requires Sized(b) && HasType(b.blocks, PAYLOAD_TYPE)
  {
    Has(b.primary.flags, MUST_NOT_FRAGMENT) || !AgeCarried(b, false) || (Cheap(b, true) && Cheap(b, false))
  }

  /** A safe bundle is cut into fragments that fit, whatever the MTU. */
  lemma SafeFits(env: Env, c: Bundle, mtu: int)
    requires Sized(c) && Writable(c) && ValidBundle(env, c) && !IsFragment(c.primary)
    requires HasType(c.blocks, PAYLOAD_TYPE) && SafeToFragment(c)
    requires mtu <= MAX_LEN && Fragments(env, c, mtu).Ok?
    ensures AllFit(env, Fragments(env, c, mtu).value, mtu)
  {
    hide ValidBundle, FindType, Overhead, Piece, Sized, Writable, Cheap, AgeCarried, WritablePrimary, Fitting,
         NextPiece;
    if PayloadData(c) != [] {
      PiecesAreNonEmpty(env, c, mtu, 0);
      if |Pieces(env, c, mtu, 0).value| == 1 {
        SinglePieceHasRoom(env, c, mtu);
        WholeFits(env, c, mtu);
      } else {
        SeveralFit(env, c, mtu);
      }
    }
  }

  lemma SeveralFit(env: Env, c: Bundle, mtu: int)
    requires Sized(c) && Writable(c) && ValidBundle(env, c) && Cuttable(c) && PayloadData(c) != []
    requires SafeToFragment(c) && mtu <= MAX_LEN
    requires Fragments(env, c, mtu).Ok? && |Fragments(env, c, mtu).value| >= 2
    ensures AllFit(env, Fragments(env, c, mtu).value, mtu)
  {
    hide ValidBundle, FindType, Overhead, Piece, Sized, Writable, Cheap, AgeCarried, WritablePrimary, AllFit,
         AffordableFrom, NextPiece;
    FragmentsFitExactly(env, c, mtu);
    if AgeCarried(c, false) {
      CheapIsAffordableFrom(env, c, mtu, 0);
    } else {
      LaterPieceInvalid(env, c, mtu);
    }
  }

  lemma SafeFitsWith(env: Env, b: Bundle, data: seq<byte>, mtu: int)
    requires Sized(b) && Writable(b) && ValidBundle(env, b) && HasType(b.blocks, PAYLOAD_TYPE) && b.blocks != []
    requires !IsFragment(b.primary) && SafeToFragment(b)
    ensures FitsWith(env, b, data, mtu)
  {
    hide ValidBundle, FindType, Sized, WithPayload, Writable, Cheap, AgeCarried, WritablePrimary, AllFit, Fragments,
         Cuttable;
    var c := WithPayload(b, data);
    if mtu <= MAX_LEN && |data| <= MAX_PAYLOAD {
      WithPayloadValid(env, b, data);
      WithPayloadFits(env, b, data);
      PayloadReplaced(env, b, data);
      if Fragments(env, c, mtu).Ok? {
        SafeFits(env, c, mtu);
      }
    }
  }

  /** Without the age block in later fragments there are none. */
  lemma LaterPieceInvalid(env: Env, c: Bundle, mtu: int)
    requires Cuttable(c) && ValidBundle(env, c) && !Has(c.primary.flags, MUST_NOT_FRAGMENT) && !AgeCarried(c, false)
    requires PayloadData(c) != [] && Pieces(env, c, mtu, 0).Ok?
    ensures |Pieces(env, c, mtu, 0).value| == 1
  {
    hide ValidBundle, FindType, Overhead, Piece, Sized, WritablePrimary, AgeCarried;
    var room := NextPiece(env, c, mtu, 0).value.1;
    if room < |PayloadData(c)| {
      PieceIsValid(env, c, room, Min(room + (mtu - Overhead(env, c, mtu, room)), |PayloadData(c)|));
    }
  }

  /** The MTU bound as a property of the blocks alone: for a valid bundle that is no fragment and is
      not huge without its payload, all fragments fit, for every payload and every MTU, exactly when
      the bundle is safe to fragment. */
  lemma BoundExactly(env: Env, b: Bundle)
    requires Sized(b) && Writable(b) && ValidBundle(env, b) && !IsFragment(b.primary)
    requires HasType(b.blocks, PAYLOAD_TYPE) && b.blocks != [] && Modest(env, b)
    ensures AlwaysFits(env, b) <==> SafeToFragment(b)
  {
    hide ValidBundle, FindType, Sized, Writable, Cheap, AgeCarried, Modest, WithPayload, AllFit, Fragments, Zeros;
    if SafeToFragment(b) {
      hide FitsWith, SafeToFragment;
      forall data: seq<byte>, mtu: int ensures FitsWith(env, b, data, mtu) {
        SafeFitsWith(env, b, data, mtu);
      }
    } else {
      ProbeExactly(env, b);
      assert !FitsWith(env, b, Zeros(MAX_PAYLOAD), PROBE_MTU);
    }
  }

  /** Proper numbers are always cheap, so MtuBound.FragmentsFit is a case of this. */
  lemma ProperIsSafe(env: Env, b: Bundle)
    requires Sized(b) && ValidBundle(env, b) && HasType(b.blocks, PAYLOAD_TYPE) && ProperNumbers(b)
    ensures SafeToFragment(b)
  {
    hide ValidBundle, FindType, Sized, Select, ProperNumbers, AgeCarried, RangeLen, NumbersLen, SureSpare;
    SizedHasFewBlocks(b);
    SelectedNumbers(env, b, true);
    RenumberingIsCheapest(Select(b.blocks, true));
    SelectedNumbers(env, b, false);
    RenumberingIsCheapest(Select(b.blocks, false));
  }
}
