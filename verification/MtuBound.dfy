/** Every bundle Fragment returns fits the MTU: the predicted overhead is never too small, because
    checksums are predicted at their longest and renumbered blocks have the cheapest numbers. */
module MtuBound {
  import opened Bytes
  import opened Cbor
  import opened Blocks
  import opened Primary
  import opened BundleCodec
  import opened BlockList
  import opened Sizes
  import opened Fragmentation

  /* ---- the blocks of a valid bundle ---- */

  function ExtensionBlocks(b: Bundle): seq<CanonicalBlock>
    requires b.blocks != []
  {
    b.blocks[..|b.blocks| - 1]
  }

  lemma PayloadIsLast(env: Env, b: Bundle)
    requires ValidBundle(env, b)
    ensures HasType(b.blocks, PAYLOAD_TYPE)
    ensures FindType(b.blocks, PAYLOAD_TYPE) == |b.blocks| - 1
    ensures forall i :: 0 <= i < |b.blocks| - 1 ==> !IsPayload(b.blocks[i])
    ensures b.blocks == ExtensionBlocks(b) + [b.blocks[|b.blocks| - 1]]
  {
    hide ValidPrimary, LifetimeExceeded, ValidBlock, DistinctNumbers;
    var last := |b.blocks| - 1;
    var i := FindType(b.blocks, PAYLOAD_TYPE);
    assert forall j :: 0 <= j < i ==> TypeCode(b.blocks[j].value) != PAYLOAD_TYPE;
    assert i <= last;
  }

  lemma SelectIgnoresPayload(env: Env, b: Bundle, first: bool)
    requires ValidBundle(env, b)
    ensures Select(b.blocks, first) == Select(ExtensionBlocks(b), first)
  {
    PayloadIsLast(env, b);
  }

  lemma {:induction false} SelectAll(blocks: seq<CanonicalBlock>)
    requires forall i :: 0 <= i < |blocks| ==> !IsPayload(blocks[i])
    ensures Select(blocks, true) == blocks
  {
    if blocks != [] {
      SelectAll(blocks[..|blocks| - 1]);
      assert blocks == blocks[..|blocks| - 1] + [blocks[|blocks| - 1]];
    }
  }

  /** Selecting keeps order, so it keeps distinct numbers and distinct types. */
  lemma {:induction false} SelectKeepsDistinct(blocks: seq<CanonicalBlock>, first: bool)
    requires DistinctNumbers(blocks) && DistinctTypes(blocks)
    ensures DistinctNumbers(Select(blocks, first)) && DistinctTypes(Select(blocks, first))
  {
    hide TypeCode, Carried;
    if blocks != [] {
      var front, last := blocks[..|blocks| - 1], blocks[|blocks| - 1];
      SelectKeepsDistinct(front, first);
      var s := Select(front, first);
      forall i | 0 <= i < |s| ensures s[i].number != last.number && TypeCode(s[i].value) != TypeCode(last.value) {
        var k :| 0 <= k < |front| && front[k] == s[i];
        assert blocks[k] == s[i];
      }
    }
  }

  /* ---- the exact account of the prediction ---- */

  /** What the predicted checksum of a block is longer than its own. */
  function CrcSlack(crcType: u64): nat {
    5 - CrcFieldLen(crcType)
  }

  function SlackSum(blocks: seq<CanonicalBlock>): nat {
    if blocks == [] then 0 else SlackSum(blocks[..|blocks| - 1]) + CrcSlack(blocks[|blocks| - 1].crcType)
  }

  lemma LongestChecksum(cb: CanonicalBlock)
    requires WritableBlock(cb)
    ensures BlockLen(cb.(crcType := CRC_32)) == BlockLen(cb) + CrcSlack(cb.crcType)
  {
  }

  lemma BlocksLenLast(blocks: seq<CanonicalBlock>, cb: CanonicalBlock)
    requires WritableValues(blocks) && WritableValue(cb.value)
    ensures BlocksLen(blocks + [cb]) == BlocksLen(blocks) + BlockLen(cb)
  {
    BlocksLenAppend(blocks, [cb]);
    assert [cb][1..] == [];
  }

  lemma SlackSumLast(blocks: seq<CanonicalBlock>, cb: CanonicalBlock)
    ensures SlackSum(blocks + [cb]) == SlackSum(blocks) + CrcSlack(cb.crcType)
  {
    assert (blocks + [cb])[..|blocks|] == blocks;
  }

  /** For the extension blocks the prediction is their length plus the checksum slack. */
  lemma {:induction false} PredictedExtension(blocks: seq<CanonicalBlock>, first: bool, mtu: int)
    requires WritableBlocks(blocks) && forall i :: 0 <= i < |blocks| ==> !IsPayload(blocks[i])
    ensures WritableBlocks(Select(blocks, first))
    ensures Predicted(blocks, first, mtu) == BlocksLen(Select(blocks, first)) + SlackSum(Select(blocks, first))
  {
    if blocks != [] {
      var front, last := blocks[..|blocks| - 1], blocks[|blocks| - 1];
      PredictedExtension(front, first, mtu);
      if Carried(last, first) {
        LongestChecksum(last);
        BlocksLenLast(Select(front, first), last);
        SlackSumLast(Select(front, first), last);
      }
    }
  }

  lemma NumberLen(cb: CanonicalBlock, n: u64)
    requires WritableValue(cb.value)
    ensures BlockLen(cb.(number := n)) + HeadLen(cb.number) == BlockLen(cb) + HeadLen(n)
  {
  }

  /** Renumbering changes the length by the difference of the number heads. */
  lemma {:induction false} RenumberedBlocksLen(blocks: seq<CanonicalBlock>)
    requires WritableValues(blocks) && |blocks| + 2 < TWO64
    ensures WritableValues(Renumber(blocks, 2))
    ensures BlocksLen(Renumber(blocks, 2)) + NumbersLen(blocks) == BlocksLen(blocks) + RangeLen(2, |blocks|)
  {
    hide BlockLen, HeadLen, WritableValue;
    if blocks != [] {
      var k := |blocks| - 1;
      var front, last := blocks[..k], blocks[k];
      RenumberedBlocksLen(front);
      assert blocks == front + [last];
      BlocksLenLast(front, last);
      BlocksLenLast(Renumber(front, 2), last.(number := 2 + k));
      NumbersLenAppend(front, [last]);
      assert [last][1..] == [];
      NumberLen(last, 2 + k);
    }
  }

  /** The payload block of a fragment with n octets, against the empty block of the prediction. */
  lemma PayloadFrame(payload: CanonicalBlock, data: seq<byte>)
    requires payload.value.Payload? && payload.number == 1 && payload.crcType <= CRC_32 && |data| <= MAX_LEN
    ensures BlockLen(CanonicalBlock(1, payload.flags, payload.crcType, Payload(data))) + CrcSlack(payload.crcType) + 1
         == BlockLen(Emptied(payload)) + HeadLen(|data|) + |data|
  {
  }

  lemma PieceIsWritable(env: Env, b: Bundle, i: nat, j: nat)
    requires Sized(b) && Writable(b) && ValidBundle(env, b) && i <= j
    requires HasType(b.blocks, PAYLOAD_TYPE) && j <= |PayloadData(b)|
    ensures Writable(Piece(b, i, j))
  {
    var payload := PayloadBlock(b);
    var s := Select(b.blocks, i == 0);
    var r := Renumber(s, 2);
    forall k | 0 <= k < |r| ensures WritableBlock(r[k]) {
      assert s[k] in b.blocks;
    }
    assert WritableBlock(payload);
  }

  /** The octets a fragment could have had more of: payload room left over, a shorter length head
      of the payload, a replicated payload block counted twice and shorter checksums. */
  function Spare(b: Bundle, mtu: int, i: nat, j: nat, room: nat): int
    requires Sized(b) && HasType(b.blocks, PAYLOAD_TYPE) && i <= j <= |PayloadData(b)|
  {
    var payload := PayloadBlock(b);
    (room - (j - i))
    + (MtuHead(mtu) - HeadLen(j - i))
    + (if i > 0 && Has(payload.flags, REPLICATE_BLOCK) then BlockLen(Emptied(payload)) else 0)
    + SlackSum(Select(b.blocks, i == 0)) + CrcSlack(payload.crcType)
  }

  lemma PieceLen(env: Env, b: Bundle, i: nat, j: nat)
    requires Sized(b) && Writable(b) && ValidBundle(env, b) && i <= j
    requires HasType(b.blocks, PAYLOAD_TYPE) && j <= |PayloadData(b)|
    ensures Writable(Piece(b, i, j))
    ensures WritableValues(Select(b.blocks, i == 0))
    ensures |BundleBytes(env, Piece(b, i, j))| + NumbersLen(Select(b.blocks, i == 0))
         == 2 + |PrimaryBytes(env, FragmentPrimary(b.primary, i, |PayloadData(b)|))|
            + BlocksLen(Select(b.blocks, i == 0)) + RangeLen(2, |Select(b.blocks, i == 0)|)
            + BlockLen(PiecePayload(b, i, j))
  {
    hide ValidBundle, FindType, BundleBytes, PrimaryBytes, BlockLen, WritableValue, NumbersLen, RangeLen;
    var s := Select(b.blocks, i == 0);
    PieceIsWritable(env, b, i, j);
    forall k | 0 <= k < |s| ensures WritableValue(s[k].value) {
      assert s[k] in b.blocks;
    }
    BundleBytesLen(env, Piece(b, i, j));
    PrimaryBytesLen(env, Piece(b, i, j).primary);
    RenumberedBlocksLen(s);
    BlocksLenLast(Renumber(s, 2), PiecePayload(b, i, j));
  }

  lemma PredictedWhole(env: Env, b: Bundle, first: bool, mtu: int)
    requires Sized(b) && Writable(b) && ValidBundle(env, b) && HasType(b.blocks, PAYLOAD_TYPE)
    ensures WritableValues(b.blocks) && WritableValues(Select(b.blocks, first))
    ensures Predicted(b.blocks, first, mtu)
         == BlocksLen(Select(b.blocks, first)) + SlackSum(Select(b.blocks, first))
            + BlockLen(Emptied(PayloadBlock(b))) + MtuHead(mtu) - 1
            + if !first && Has(PayloadBlock(b).flags, REPLICATE_BLOCK) then BlockLen(Emptied(PayloadBlock(b))) else 0
  {
    hide ValidBundle, FindType, Select, Predicted, BlockLen, BlocksLen, SlackSum, WritableValue, Emptied, MtuHead;
    PayloadIsLast(env, b);
    SelectIgnoresPayload(env, b, first);
    assert WritableBlocks(ExtensionBlocks(b));
    PredictedExtension(ExtensionBlocks(b), first, mtu);
    PredictedLast(b, first, mtu);
  }

  lemma PredictedLast(b: Bundle, first: bool, mtu: int)
    requires b.blocks != [] && WritableValues(b.blocks) && IsPayload(b.blocks[|b.blocks| - 1])
    ensures WritableValues(ExtensionBlocks(b))
    ensures var payload := b.blocks[|b.blocks| - 1];
            Predicted(b.blocks, first, mtu)
            == Predicted(ExtensionBlocks(b), first, mtu) + BlockLen(Emptied(payload)) + MtuHead(mtu) - 1
               + if !first && Has(payload.flags, REPLICATE_BLOCK) then BlockLen(Emptied(payload)) else 0
  {
    hide BlockLen, Emptied, MtuHead, WritableValue;
  }

  /** The exact length of a fragment: the MTU, less what is spare, plus what its new block numbers
      cost more than the old ones. */
  lemma PieceSize(env: Env, b: Bundle, mtu: int, i: nat, j: nat)
    requires Sized(b) && Writable(b) && ValidBundle(env, b) && i <= j
    requires HasType(b.blocks, PAYLOAD_TYPE) && j <= |PayloadData(b)|
    requires Cuttable(b) && Overhead(env, b, mtu, i) < mtu
    ensures Writable(Piece(b, i, j))
    ensures |BundleBytes(env, Piece(b, i, j))|
         == mtu - Spare(b, mtu, i, j, mtu - Overhead(env, b, mtu, i))
            + RangeLen(2, |Select(b.blocks, i == 0)|) - NumbersLen(Select(b.blocks, i == 0))
  {
    hide BundleBytes, PrimaryBytes, ValidBundle, Predicted, FindType, BlocksLen, BlockLen, SlackSum, NumbersLen,
         RangeLen, Select, Writable, Piece;
    var payload := PayloadBlock(b);
    PieceLen(env, b, i, j);
    PredictedWhole(env, b, i == 0, mtu);
    PayloadHasNumberOne(env, b);
    PayloadFrame(payload, payload.value.data[i..j]);
  }

  lemma PayloadHasNumberOne(env: Env, b: Bundle)
    requires Sized(b) && Writable(b) && ValidBundle(env, b) && HasType(b.blocks, PAYLOAD_TYPE)
    ensures var payload := PayloadBlock(b);
            payload.number == 1 && payload.crcType <= CRC_32 && payload == b.blocks[|b.blocks| - 1]
  {
    PayloadIsLast(env, b);
  }

  /** A fragment fits the MTU exactly when its new block numbers cost at most what its old ones
      did plus what is spare. */
  lemma PieceFits(env: Env, b: Bundle, mtu: int, i: nat, j: nat)
    requires Sized(b) && Writable(b) && ValidBundle(env, b) && i <= j
    requires HasType(b.blocks, PAYLOAD_TYPE) && j <= |PayloadData(b)|
    requires Cuttable(b) && Overhead(env, b, mtu, i) < mtu
    ensures Writable(Piece(b, i, j))
    ensures |BundleBytes(env, Piece(b, i, j))| <= mtu <==>
            RangeLen(2, |Select(b.blocks, i == 0)|)
              <= NumbersLen(Select(b.blocks, i == 0)) + Spare(b, mtu, i, j, mtu - Overhead(env, b, mtu, i))
  {
    hide BundleBytes, ValidBundle, FindType, Spare, NumbersLen, RangeLen, Select, Writable, Piece, Overhead;
    PieceSize(env, b, mtu, i, j);
  }

  /* ---- the bound ---- */

  /** Extension blocks are numbered from 2 on; number 0 would make the prediction too small. */
  predicate ProperNumbers(b: Bundle) {
    forall i :: 0 <= i < |b.blocks| && !IsPayload(b.blocks[i]) ==> b.blocks[i].number >= 2
  }

  predicate Fitting(env: Env, b: Bundle, mtu: int) {
    Writable(b) && |BundleBytes(env, b)| <= mtu
  }

  lemma NothingSpareIsNegative(b: Bundle, mtu: int, i: nat, j: nat, room: nat)
    requires Sized(b) && HasType(b.blocks, PAYLOAD_TYPE) && i <= j <= |PayloadData(b)|
    requires j - i <= room <= mtu <= MAX_LEN
    ensures Spare(b, mtu, i, j, room) >= 0
  {
    HeadLenMonotone(j - i, mtu);
  }

  lemma ProperPieceFits(env: Env, b: Bundle, mtu: int, i: nat)
    requires Sized(b) && Writable(b) && ValidBundle(env, b) && ProperNumbers(b) && mtu <= MAX_LEN
    requires Cuttable(b) && i < |PayloadData(b)| && NextPiece(env, b, mtu, i).Ok?
    ensures Fitting(env, NextPiece(env, b, mtu, i).value.0, mtu)
  {
    hide BundleBytes, PrimaryBytes, ValidBundle, FindType, Spare, NumbersLen, RangeLen, Writable, Piece, Predicted;
    var room := mtu - Overhead(env, b, mtu, i);
    var j := Min(i + room, |PayloadData(b)|);
    var s := Select(b.blocks, i == 0);
    PieceFits(env, b, mtu, i, j);
    NothingSpareIsNegative(b, mtu, i, j, room);
    assert DistinctNumbers(s) && (forall k :: 0 <= k < |s| ==> s[k].number >= 2) by { SelectedNumbers(env, b, i == 0); }
    RenumberingIsCheapest(s);
  }

  lemma SelectedNumbers(env: Env, b: Bundle, first: bool)
    requires ValidBundle(env, b) && ProperNumbers(b)
    ensures DistinctNumbers(Select(b.blocks, first))
    ensures forall k :: 0 <= k < |Select(b.blocks, first)| ==> Select(b.blocks, first)[k].number >= 2
  {
    SelectKeepsDistinct(b.blocks, first);
    var s := Select(b.blocks, first);
    forall k | 0 <= k < |s| ensures s[k].number >= 2 {
      assert s[k] in b.blocks;
    }
  }

  lemma {:induction false} PiecesFit(env: Env, b: Bundle, mtu: int, i: nat)
    requires Sized(b) && Writable(b) && ValidBundle(env, b) && ProperNumbers(b) && mtu <= MAX_LEN
    requires Cuttable(b) && Pieces(env, b, mtu, i).Ok?
    ensures forall k :: 0 <= k < |Pieces(env, b, mtu, i).value| ==> Fitting(env, Pieces(env, b, mtu, i).value[k], mtu)
    decreases |PayloadData(b)| - i
  {
    hide Fitting, NextPiece, ValidBundle, FindType, Writable, ProperNumbers;
    if i < |PayloadData(b)| {
      ProperPieceFits(env, b, mtu, i);
      PiecesFit(env, b, mtu, i + NextPiece(env, b, mtu, i).value.1);
    }
  }

  lemma FlagHeadMonotone(p: PrimaryBlock, offset: u64, total: u64)
    requires WritablePrimary(p) && !IsFragment(p)
    ensures WritablePrimary(FragmentPrimary(p, offset, total))
    ensures PrimaryLen(p) <= PrimaryLen(FragmentPrimary(p, offset, total))
  {
    HeadLenMonotone(p.flags, p.flags + 1);
  }

  lemma WholeLen(env: Env, b: Bundle)
    requires Sized(b) && Writable(b) && ValidBundle(env, b) && HasType(b.blocks, PAYLOAD_TYPE)
    ensures WritableValues(Select(b.blocks, true))
    ensures |BundleBytes(env, b)|
         == 2 + PrimaryLen(b.primary) + BlocksLen(Select(b.blocks, true)) + BlockLen(PayloadBlock(b))
  {
    hide ValidBundle, FindType, BundleBytes, PrimaryBytes, PrimaryLen, BlockLen, WritableValue, Select, BlocksLen;
    PayloadHasNumberOne(env, b);
    PayloadIsLast(env, b);
    SelectIgnoresPayload(env, b, true);
    SelectAll(ExtensionBlocks(b));
    BlocksLenLast(ExtensionBlocks(b), PayloadBlock(b));
    BundleBytesLen(env, b);
  }

  lemma PayloadLen(payload: CanonicalBlock)
    requires payload.value.Payload? && payload.number == 1 && payload.crcType <= CRC_32
    requires |payload.value.data| <= MAX_LEN
    ensures BlockLen(payload) + CrcSlack(payload.crcType) + 1
         == BlockLen(Emptied(payload)) + HeadLen(|payload.value.data|) + |payload.value.data|
  {
    PayloadFrame(payload, payload.value.data);
  }

  /** A bundle that one fragment would carry fits as it is: it has no fragment fields, and its
      checksums are no longer than predicted. */
  lemma WholeFits(env: Env, b: Bundle, mtu: int)
    requires Sized(b) && Writable(b) && ValidBundle(env, b) && !IsFragment(b.primary) && mtu <= MAX_LEN
    requires Cuttable(b) && Overhead(env, b, mtu, 0) + |PayloadData(b)| <= mtu
    ensures Fitting(env, b, mtu)
  {
    hide ValidBundle, FindType, SlackSum, BundleBytes, PrimaryBytes, Predicted, PrimaryLen, BlockLen, BlocksLen,
         FragmentPrimary;
    var n := |PayloadData(b)|;
    PayloadHasNumberOne(env, b);
    PredictedWhole(env, b, true, mtu);
    WholeLen(env, b);
    PayloadLen(PayloadBlock(b));
    FlagHeadMonotone(b.primary, 0, n);
    PrimaryBytesLen(env, FragmentPrimary(b.primary, 0, n));
    HeadLenMonotone(n, mtu);
  }

  /** The MTU bound: for every valid bundle that is not a fragment itself and whose extension
      blocks are numbered from 2 on, and for every MTU, each bundle a successful Fragment returns
      marshals to at most that many octets. A bundle that is already a fragment keeps the bound
      whenever it is cut at all. */
  lemma FragmentsFit(env: Env, b: Bundle, mtu: int)
    requires Sized(b) && Writable(b) && ValidBundle(env, b) && ProperNumbers(b) && mtu <= MAX_LEN
    requires Fragments(env, b, mtu).Ok?
    requires !IsFragment(b.primary) || |Fragments(env, b, mtu).value| != 1
    ensures forall k :: 0 <= k < |Fragments(env, b, mtu).value| ==> Fitting(env, Fragments(env, b, mtu).value[k], mtu)
  {
    hide ValidBundle, FindType, Writable, ProperNumbers, Fitting, Overhead, Piece;
    if PayloadData(b) != [] {
      PiecesFit(env, b, mtu, 0);
      if |Pieces(env, b, mtu, 0).value| == 1 {
        SinglePieceHasRoom(env, b, mtu);
        WholeFits(env, b, mtu);
      }
    }
  }

  lemma SinglePieceHasRoom(env: Env, b: Bundle, mtu: int)
    requires Cuttable(b) && PayloadData(b) != []
    requires Pieces(env, b, mtu, 0).Ok? && |Pieces(env, b, mtu, 0).value| == 1
    ensures Overhead(env, b, mtu, 0) + |PayloadData(b)| <= mtu
  {
    hide Overhead, FindType, Piece, ValidBundle;
    var room := NextPiece(env, b, mtu, 0).value.1;
    if room < |PayloadData(b)| {
      PiecesAreNonEmpty(env, b, mtu, room);
    }
  }

  lemma PiecesAreNonEmpty(env: Env, b: Bundle, mtu: int, i: nat)
    requires Cuttable(b) && i < |PayloadData(b)| && Pieces(env, b, mtu, i).Ok?
    ensures Pieces(env, b, mtu, i).value != []
  {
    hide NextPiece, FindType;
  }
}
