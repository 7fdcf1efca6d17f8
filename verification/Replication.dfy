/** What each fragment of a bundle carries (RFC 9171, sections 4.2.4 and 5.8): the first all extension
    blocks, later ones those marked for replication; and when a bundle without a creation time can be
    cut at all. */
module Replication {
  import opened Bytes
  import opened Blocks
  import opened Primary
  import opened BundleCodec
  import opened Sizes
  import opened Fragmentation
  import opened MtuBound
  import opened MtuExact
  import opened RoundTrip

  /** The extension blocks a fragment has to carry: block type 1 is the payload, the lowest flag of a
      block asks for a copy in every fragment. */
  function Copied(blocks: seq<CanonicalBlock>, all: bool): (r: seq<CanonicalBlock>)
    ensures forall i :: 0 <= i < |r| ==> r[i] in blocks && TypeCode(r[i].value) != 1 && (all || r[i].flags % 2 == 1)
  {
    if blocks == [] then []
    else if TypeCode(blocks[0].value) == 1 || !(all || blocks[0].flags % 2 == 1) then Copied(blocks[1..], all)
    else [blocks[0]] + Copied(blocks[1..], all)
  }

  lemma {:induction false} CopiedContains(blocks: seq<CanonicalBlock>, all: bool, cb: CanonicalBlock)
    ensures cb in Copied(blocks, all) <==> cb in blocks && TypeCode(cb.value) != 1 && (all || cb.flags % 2 == 1)
  {
    if blocks != [] {
      CopiedContains(blocks[1..], all, cb);
      assert cb in blocks <==> cb == blocks[0] || cb in blocks[1..];
    }
  }

  lemma {:induction false} CopiedAppend(blocks: seq<CanonicalBlock>, cb: CanonicalBlock, all: bool)
    ensures Copied(blocks + [cb], all) == Copied(blocks, all) + Copied([cb], all)
  {
    if blocks == [] {
      assert [] + [cb] == [cb];
    } else {
      var more := blocks + [cb];
      assert more[0] == blocks[0] && more[1..] == blocks[1..] + [cb];
      CopiedAppend(blocks[1..], cb, all);
    }
  }

  lemma {:induction false} SelectIsCopied(blocks: seq<CanonicalBlock>, all: bool)
    ensures Select(blocks, all) == Copied(blocks, all)
  {
    if blocks != [] {
      var front, last := blocks[..|blocks| - 1], blocks[|blocks| - 1];
      SelectIsCopied(front, all);
      CopiedAppend(front, last, all);
      assert blocks == front + [last];
      assert [last][1..] == [];
      assert Copied([last], all) == if Carried(last, all) then [last] else [];
    }
  }

  /** The fragment of b that carries these extension blocks and the payload octets from i to j. */
  predicate IsPart(frag: Bundle, b: Bundle, i: nat, j: nat, carried: seq<CanonicalBlock>)
    requires b.blocks != []
  {
    var last, payload := |frag.blocks| - 1, b.blocks[|b.blocks| - 1];
    && payload.value.Payload? && i < j <= |payload.value.data| < TWO64
    && last == |carried|
    && (forall m :: 0 <= m < last ==>
          && frag.blocks[m].number == m + 2 && frag.blocks[m].flags == carried[m].flags
          && frag.blocks[m].crcType == carried[m].crcType && frag.blocks[m].value == carried[m].value)
    && frag.blocks[last] == payload.(number := 1, value := Payload(payload.value.data[i..j]))
    && frag.primary.fragmentOffset == i && frag.primary.totalDataLength == |payload.value.data|
    && frag.primary.flags == b.primary.flags - b.primary.flags % 2 + 1
    && frag.primary == b.primary.(flags := frag.primary.flags, fragmentOffset := i,
                                  totalDataLength := frag.primary.totalDataLength)
  }

  lemma PieceIsPart(env: Env, b: Bundle, i: nat, j: nat)
    requires ValidBundle(env, b) && Sized(b) && HasType(b.blocks, PAYLOAD_TYPE) && i < j <= |PayloadData(b)|
    ensures b.blocks != [] && IsPart(Piece(b, i, j), b, i, j, Copied(b.blocks, i == 0))
  {
    hide ValidBundle, FindType, Sized, Select, Copied;
    SizedHasFew(b);
    PayloadBlockIsLast(env, b);
    SelectIsCopied(b.blocks, i == 0);
  }

  lemma SizedHasFew(b: Bundle)
    requires Sized(b)
    ensures |b.blocks| + 3 <= MAX_LEN
  {
  }

  /** Whatever the MTU: when a bundle is cut into several fragments, they follow each other from the
      first octet to the last, the first has all extension blocks and every later one exactly those
      whose lowest flag is set, in order, with their flags, checksum types and values; the payload
      block keeps its flags and checksum type, and the primary block everything but the fragment
      fields. */
  lemma FragmentsCarry(env: Env, b: Bundle, mtu: int) returns (cuts: seq<nat>)
    requires ValidBundle(env, b) && Sized(b)
    requires Fragments(env, b, mtu).Ok? && |Fragments(env, b, mtu).value| >= 2
    ensures var bs := Fragments(env, b, mtu).value;
      && b.blocks != [] && b.blocks[|b.blocks| - 1].value.Payload?
      && |cuts| == |bs| + 1 && cuts[0] == 0 && cuts[|bs|] == |b.blocks[|b.blocks| - 1].value.data|
      && forall k :: 0 <= k < |bs| ==> IsPart(bs[k], b, cuts[k], cuts[k + 1], Copied(b.blocks, k == 0))
  {
    hide ValidBundle, FindType, Sized, Piece, IsPart, Copied, Fragments, PayloadData;
    PayloadIsLast(env, b);
    cuts := FragmentsAreCut(env, b, mtu);
    PayloadBlockIsLast(env, b);
    PayloadIsData(b);
    var bs := Fragments(env, b, mtu).value;
    forall k | 0 <= k < |bs| ensures IsPart(bs[k], b, cuts[k], cuts[k + 1], Copied(b.blocks, k == 0)) {
      CutsRise(cuts, 0, k);
      if k > 0 {
        CutsAscend(cuts, 0, k);
      }
      PieceIsPart(env, b, cuts[k], cuts[k + 1]);
    }
  }

  lemma PayloadIsData(b: Bundle)
    requires Sized(b) && HasType(b.blocks, PAYLOAD_TYPE)
    ensures PayloadBlock(b).value.Payload? && PayloadData(b) == PayloadBlock(b).value.data
  {
  }

  /** So a fragment after the first has an extension block of a given type exactly when the bundle
      has one with the lowest flag set. */
  lemma ReplicatedExactly(env: Env, b: Bundle, mtu: int, k: nat, i: nat)
    requires ValidBundle(env, b) && Sized(b) && i < |b.blocks| - 1
    requires Fragments(env, b, mtu).Ok? && 1 <= k < |Fragments(env, b, mtu).value|
    ensures var frag := Fragments(env, b, mtu).value[k];
      (exists m :: 0 <= m < |frag.blocks| && frag.blocks[m].value == b.blocks[i].value)
      <==> b.blocks[i].flags % 2 == 1
  {
    hide ValidBundle, FindType, Sized, Copied, Fragments;
    var cuts := FragmentsCarry(env, b, mtu);
    var frag, carried := Fragments(env, b, mtu).value[k], Copied(b.blocks, false);
    assert IsPart(frag, b, cuts[k], cuts[k + 1], carried);
    PayloadIsLast(env, b);
    CopiedContains(b.blocks, false, b.blocks[i]);
    if b.blocks[i].flags % 2 == 1 {
      var m :| 0 <= m < |carried| && carried[m] == b.blocks[i];
      assert frag.blocks[m].value == b.blocks[i].value;
    }
    if m :| 0 <= m < |frag.blocks| && frag.blocks[m].value == b.blocks[i].value {
      SameTypeSameBlock(env, b, carried[m], i);
    }
  }

  lemma SameTypeSameBlock(env: Env, b: Bundle, cb: CanonicalBlock, i: nat)
    requires ValidBundle(env, b) && cb in b.blocks && i < |b.blocks| && cb.value == b.blocks[i].value
    ensures cb == b.blocks[i]
  {
    hide ValidPrimary, ValidBlock, LifetimeExceeded, FindType, DistinctNumbers;
    var j :| 0 <= j < |b.blocks| && b.blocks[j] == cb;
    assert DistinctTypes(b.blocks);
  }

  /** Wherever the payload may be cut, the fragment from there on has room for some of it. */
  predicate RoomEverywhere(env: Env, b: Bundle, mtu: int)
    requires Cuttable(b)
  {
    forall o: nat :: o < |PayloadData(b)| ==> Overhead(env, b, mtu, o) < mtu
  }

  /** Where a bundle without a creation time has its age. */
  lemma AgeBlock(env: Env, b: Bundle) returns (i: nat)
    requires ValidBundle(env, b) && b.primary.time == 0
    ensures i < |b.blocks| && b.blocks[i].value.BundleAge? && FindType(b.blocks, BUNDLE_AGE_TYPE) == i
    ensures forall j :: 0 <= j < |b.blocks| && b.blocks[j].value.BundleAge? ==> j == i
  {
    hide ValidPrimary, ValidBlock, DistinctNumbers;
    i := FindType(b.blocks, BUNDLE_AGE_TYPE);
    hide FindType;
  }

  /** A bundle without a creation time that needs more than one fragment is cut exactly when its age
      block has the lowest flag set, and then every fragment is a valid bundle. */
  lemma AgelessExactly(env: Env, b: Bundle, mtu: int, i: nat)
    requires ValidBundle(env, b) && Cuttable(b) && b.primary.time == 0
    requires !Has(b.primary.flags, MUST_NOT_FRAGMENT)
    requires i < |b.blocks| && b.blocks[i].value.BundleAge?
    requires RoomEverywhere(env, b, mtu)
    requires mtu < Overhead(env, b, mtu, 0) + |PayloadData(b)| && PayloadData(b) != []
    ensures Fragments(env, b, mtu).Ok? <==> b.blocks[i].flags % 2 == 1
    ensures Fragments(env, b, mtu).Ok? ==>
      var bs := Fragments(env, b, mtu).value;
      |bs| >= 2 && forall k :: 0 <= k < |bs| ==> ValidBundle(env, bs[k])
  {
    hide ValidBundle, FindType, Overhead, Piece, Sized, WritablePrimary, WritableValues, PayloadData, Pieces;
    var age := AgeBlock(env, b);
    if AgeCarried(b, false) {
      PiecesSucceed(env, b, mtu, 0);
    } else if Pieces(env, b, mtu, 0).Ok? {
      LaterPieceInvalid(env, b, mtu);
    }
    if Pieces(env, b, mtu, 0).Ok? {
      NotOnePiece(env, b, mtu);
      PiecesAreValid(env, b, mtu, 0);
    }
  }

  lemma NotOnePiece(env: Env, b: Bundle, mtu: int)
    requires Cuttable(b) && PayloadData(b) != [] && Pieces(env, b, mtu, 0).Ok?
    requires mtu < Overhead(env, b, mtu, 0) + |PayloadData(b)|
    ensures |Pieces(env, b, mtu, 0).value| >= 2
  {
    hide Overhead, FindType, Piece, ValidBundle, Sized;
    PiecesAreNonEmpty(env, b, mtu, 0);
    if |Pieces(env, b, mtu, 0).value| == 1 {
      SinglePieceHasRoom(env, b, mtu);
    }
  }

  /* ---- when nothing is cut ---- */

  /** Whatever the bundle: marked as not to be fragmented, without a payload block, or with a block or
      endpoint that does not marshal it is refused; an empty payload gives no fragments at all; and one
      fragment is the bundle itself. */
  lemma NotCut(env: Env, b: Bundle, mtu: int)
    requires Sized(b)
    ensures b.primary.flags / 4 % 2 == 1 ==> Fragments(env, b, mtu) == Err
    ensures (forall i :: 0 <= i < |b.blocks| ==> TypeCode(b.blocks[i].value) != 1) ==> Fragments(env, b, mtu) == Err
    ensures !WritableValues(b.blocks) ==> Fragments(env, b, mtu) == Err
    ensures Cuttable(b) && b.primary.flags / 4 % 2 == 0 && PayloadData(b) == [] ==> Fragments(env, b, mtu) == Ok([])
    ensures Fragments(env, b, mtu).Ok? && |Fragments(env, b, mtu).value| == 1 ==> Fragments(env, b, mtu) == Ok([b])
  {
    hide Pieces, FindType, WritablePrimary, WritableValue;
  }

  /** A bundle with room for payload at every offset that may be cut and whose later fragments have what
      validity asks of them is cut; one without room in the first fragment is not. */
  lemma CutWithRoom(env: Env, b: Bundle, mtu: int)
    requires ValidBundle(env, b) && Cuttable(b) && b.primary.flags / 4 % 2 == 0 && PayloadData(b) != []
    ensures mtu <= Overhead(env, b, mtu, 0) ==> Fragments(env, b, mtu) == Err
    ensures Overhead(env, b, mtu, 0) + |PayloadData(b)| <= mtu ==> Fragments(env, b, mtu) == Ok([b])
    ensures b.primary.time != 0 && RoomEverywhere(env, b, mtu) ==> Fragments(env, b, mtu).Ok?
  {
    hide ValidBundle, FindType, Overhead, Piece, Sized, WritablePrimary, WritableValues, PayloadData, Pieces;
    if b.primary.time != 0 {
      NoAgeNeeded(b);
      if RoomEverywhere(env, b, mtu) {
        PiecesSucceed(env, b, mtu, 0);
      }
    }
    if Overhead(env, b, mtu, 0) + |PayloadData(b)| <= mtu {
      OnePiece(env, b, mtu);
    }
    NoRoomAtAll(env, b, mtu);
  }

  lemma NoAgeNeeded(b: Bundle)
    requires b.primary.time != 0
    ensures AgeCarried(b, false)
  {
  }

  lemma NoRoomAtAll(env: Env, b: Bundle, mtu: int)
    requires Cuttable(b) && PayloadData(b) != []
    ensures mtu <= Overhead(env, b, mtu, 0) ==> Pieces(env, b, mtu, 0) == Err
  {
    hide ValidBundle, FindType, Overhead, Piece, Sized;
  }

  lemma OnePiece(env: Env, b: Bundle, mtu: int)
    requires ValidBundle(env, b) && Cuttable(b) && !Has(b.primary.flags, MUST_NOT_FRAGMENT) && PayloadData(b) != []
    requires Overhead(env, b, mtu, 0) + |PayloadData(b)| <= mtu
    ensures Pieces(env, b, mtu, 0).Ok? && |Pieces(env, b, mtu, 0).value| == 1
  {
    hide ValidBundle, FindType, Overhead, Piece, Sized;
    WholeCarriesAge(env, b);
    PieceIsValid(env, b, 0, |PayloadData(b)|);
  }

  /* ---- what the overhead is ---- */

  /** The blocks with four-octet checksums. */
  function Checksummed(blocks: seq<CanonicalBlock>): (r: seq<CanonicalBlock>)
    ensures |r| == |blocks| && forall i :: 0 <= i < |r| ==> r[i] == blocks[i].(crcType := 2)
  {
    seq(|blocks|, i requires 0 <= i < |blocks| => blocks[i].(crcType := 2))
  }

  /** The fragment at i without payload, its blocks with their own numbers and four-octet checksums. */
  function Skeleton(b: Bundle, i: u64): Bundle
    requires Sized(b) && HasType(b.blocks, PAYLOAD_TYPE) && b.blocks != []
  {
    var payload := b.blocks[|b.blocks| - 1];
    Bundle(FragmentPrimary(b.primary, i, |PayloadData(b)|),
           Checksummed(Copied(b.blocks, i == 0)) + [payload.(crcType := 2, value := Payload([]))])
  }

  lemma {:induction false} ChecksummedLen(blocks: seq<CanonicalBlock>)
    requires WritableBlocks(blocks)
    ensures WritableValues(blocks) && WritableBlocks(Checksummed(blocks)) && WritableValues(Checksummed(blocks))
    ensures BlocksLen(Checksummed(blocks)) == BlocksLen(blocks) + SlackSum(blocks)
  {
    hide BlockLen, WritableValue;
    if blocks != [] {
      var front, last := blocks[..|blocks| - 1], blocks[|blocks| - 1];
      ChecksummedLen(front);
      LongestChecksum(last);
      assert blocks == front + [last];
      assert Checksummed(blocks) == Checksummed(front) + [last.(crcType := 2)];
      BlocksLenLast(front, last);
      BlocksLenLast(Checksummed(front), last.(crcType := 2));
    }
  }

  lemma CopiedAreWritable(b: Bundle, all: bool)
    requires Writable(b)
    ensures WritableBlocks(Copied(b.blocks, all))
  {
    hide WritableBlock, WritablePrimary, Copied;
    var s := Copied(b.blocks, all);
    forall k | 0 <= k < |s| ensures WritableBlock(s[k]) {
      assert s[k] in b.blocks;
    }
  }

  lemma EmptyPayload(payload: CanonicalBlock)
    requires payload.value.Payload?
    ensures Emptied(payload) == payload.(crcType := 2, value := Payload([]))
    ensures WritableBlock(Emptied(payload))
  {
  }

  /** The overhead of the fragment at i: the octets of the fragment without payload and with four-octet
      checksums, those by which the head of a byte string as long as the MTU is longer than that of an
      empty one, and behind the first fragment those of a replicated payload block once more. */
  lemma OverheadExactly(env: Env, b: Bundle, mtu: u64, i: nat)
    requires Writable(b) && ValidBundle(env, b) && Cuttable(b) && i <= MAX_PAYLOAD
    ensures b.blocks != [] && Writable(Skeleton(b, i))
    ensures var payload := b.blocks[|b.blocks| - 1].(crcType := 2, value := Payload([]));
      && WritableBlock(payload)
      && Overhead(env, b, mtu, i)
         == |BundleBytes(env, Skeleton(b, i))|
            + (if mtu < 24 then 0 else if mtu < 0x100 then 1 else if mtu < 0x1_0000 then 2
               else if mtu < 0x1_0000_0000 then 4 else 8)
            + if i > 0 && payload.flags % 2 == 1 then |BlockBytes(env, payload)| else 0
  {
    hide ValidBundle, FindType, Predicted, BlockLen, BlocksLen, SlackSum, WritableValue, Emptied, Sized, Select, Copied,
         BundleBytes, PrimaryBytes, BlockBytes, WritablePrimary, WritableBlock, Skeleton, WritableValues;
    PayloadBlockIsLast(env, b);
    PayloadIsData(b);
    var payload := PayloadBlock(b);
    EmptyPayload(payload);
    PredictedWhole(env, b, i == 0, mtu);
    SelectIsCopied(b.blocks, i == 0);
    SkeletonLen(env, b, i);
    BlockBytesLen(env, Emptied(payload));
  }

  lemma SkeletonLen(env: Env, b: Bundle, i: u64)
    requires Sized(b) && HasType(b.blocks, PAYLOAD_TYPE) && Writable(b)
    requires b.blocks != [] && PayloadBlock(b) == b.blocks[|b.blocks| - 1]
    ensures Writable(Skeleton(b, i)) && WritableBlocks(Copied(b.blocks, i == 0))
    ensures WritableValues(Copied(b.blocks, i == 0)) && WritableBlock(Emptied(PayloadBlock(b)))
    ensures |BundleBytes(env, Skeleton(b, i))|
         == 2 + |PrimaryBytes(env, FragmentPrimary(b.primary, i, |PayloadData(b)|))|
            + BlocksLen(Copied(b.blocks, i == 0)) + SlackSum(Copied(b.blocks, i == 0))
            + BlockLen(Emptied(PayloadBlock(b)))
  {
    hide FindType, BlockLen, BlocksLen, SlackSum, WritableValue, Emptied, Sized, Copied, BundleBytes, PrimaryBytes,
         WritablePrimary, WritableBlock, PrimaryLen;
    PayloadIsData(b);
    var s, payload := Copied(b.blocks, i == 0), PayloadBlock(b);
    EmptyPayload(payload);
    CopiedAreWritable(b, i == 0);
    ChecksummedLen(s);
    BlocksLenLast(Checksummed(s), Emptied(payload));
    FragmentPrimaryWritable(b.primary, i, |PayloadData(b)|);
    SkeletonWritable(s, Emptied(payload));
    BundleBytesLen(env, Skeleton(b, i));
    PrimaryBytesLen(env, FragmentPrimary(b.primary, i, |PayloadData(b)|));
  }

  lemma FragmentPrimaryWritable(p: PrimaryBlock, i: u64, total: u64)
    requires WritablePrimary(p)
    ensures WritablePrimary(FragmentPrimary(p, i, total))
  {
  }

  lemma SkeletonWritable(s: seq<CanonicalBlock>, payload: CanonicalBlock)
    requires WritableBlocks(Checksummed(s)) && WritableBlock(payload)
    ensures WritableBlocks(Checksummed(s) + [payload])
  {
    hide WritableBlock;
  }
}
