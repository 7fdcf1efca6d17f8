/** Cutting a bundle into fragments of at most mtu octets (RFC 9171, section 5.8). */
module Fragmentation {
  import opened Bytes
  import opened Cbor
  import opened Endpoint
  import opened Blocks
  import opened Primary
  import opened BundleCodec
  import opened BlockList
  import opened Streams
  import opened BundleObject
  import opened Sizes

  /** Payload lengths a float64 holds exactly; the program takes a minimum in float64. */
  const MAX_PAYLOAD: int := 0x20_0000_0000_0000

  predicate SizedValue(v: ExtensionBlock) {
    match v
    case Payload(data) => |data| <= MAX_PAYLOAD
    case PreviousNode(e) => Fits(e)
    case Generic(code, data) => |data| <= MAX_LEN && code != PAYLOAD_TYPE
    case _ => true
  }

  /** The bundles a Go program can hold: lengths are within an int and a block with the payload's
      type code is a payload block. */
  predicate Sized(b: Bundle) {
    && |b.blocks| + 3 <= MAX_LEN
    && Fits(b.primary.destination) && Fits(b.primary.source) && Fits(b.primary.reportTo)
    && forall i :: 0 <= i < |b.blocks| ==> SizedValue(b.blocks[i].value)
  }

  predicate IsPayload(cb: CanonicalBlock) { TypeCode(cb.value) == PAYLOAD_TYPE }

  function PayloadBlock(b: Bundle): (cb: CanonicalBlock)
    requires Sized(b) && HasType(b.blocks, PAYLOAD_TYPE)
    ensures cb in b.blocks && cb.value.Payload? && |cb.value.data| <= MAX_PAYLOAD
  {
    b.blocks[FindType(b.blocks, PAYLOAD_TYPE)]
  }

  function PayloadData(b: Bundle): seq<byte>
    requires Sized(b) && HasType(b.blocks, PAYLOAD_TYPE)
  {
    PayloadBlock(b).value.data
  }

  /* ---- the shape of a fragment ---- */

  function SetFragmentFlag(flags: u64): u64 {
    if Has(flags, IS_FRAGMENT) then flags else flags + 1
  }

  function ClearFragmentFlag(flags: u64): u64 {
    if Has(flags, IS_FRAGMENT) then flags - 1 else flags
  }

  function FragmentPrimary(p: PrimaryBlock, offset: u64, total: u64): PrimaryBlock {
    p.(flags := SetFragmentFlag(p.flags), fragmentOffset := offset, totalDataLength := total)
  }

  /** The first fragment carries every extension block, later ones the replicated blocks. */
  predicate Carried(cb: CanonicalBlock, first: bool) {
    !IsPayload(cb) && (first || Has(cb.flags, REPLICATE_BLOCK))
  }

  function Select(blocks: seq<CanonicalBlock>, first: bool): (r: seq<CanonicalBlock>)
    ensures |r| <= |blocks|
    ensures forall i :: 0 <= i < |r| ==> r[i] in blocks && Carried(r[i], first)
  {
    if blocks == [] then []
    else
      var front := Select(blocks[..|blocks| - 1], first);
      if Carried(blocks[|blocks| - 1], first) then front + [blocks[|blocks| - 1]] else front
  }

  /** The payload block of the fragment with the payload octets from i to j. */
  function PiecePayload(b: Bundle, i: nat, j: nat): (cb: CanonicalBlock)
    requires Sized(b) && HasType(b.blocks, PAYLOAD_TYPE) && i <= j <= |PayloadData(b)|
  {
    var payload := PayloadBlock(b);
    CanonicalBlock(1, payload.flags, payload.crcType, Payload(payload.value.data[i..j]))
  }

  /** The fragment with the payload octets from i to j. */
  function Piece(b: Bundle, i: nat, j: nat): Bundle
    requires Sized(b) && HasType(b.blocks, PAYLOAD_TYPE) && i <= j <= |PayloadData(b)|
  {
    Bundle(FragmentPrimary(b.primary, i, |PayloadData(b)|),
           Renumber(Select(b.blocks, i == 0), 2) + [PiecePayload(b, i, j)])
  }

  /* ---- the predicted overhead ---- */

  function Emptied(cb: CanonicalBlock): CanonicalBlock {
    CanonicalBlock(cb.number, cb.flags, CRC_32, Payload([]))
  }

  function MtuHead(mtu: int): nat {
    HeadLen(mtu % TWO64)
  }

  /** What one block adds to the prediction for the first and for the other fragments. */
  function PredictedBlock(cb: CanonicalBlock, first: bool, mtu: int): nat
    requires WritableValue(cb.value)
  {
    if IsPayload(cb) then
      BlockLen(Emptied(cb)) + MtuHead(mtu) - 1
      + (if !first && Has(cb.flags, REPLICATE_BLOCK) then BlockLen(Emptied(cb)) else 0)
    else if Carried(cb, first) then BlockLen(cb.(crcType := CRC_32))
    else 0
  }

  function Predicted(blocks: seq<CanonicalBlock>, first: bool, mtu: int): nat
    requires WritableValues(blocks)
  {
    if blocks == [] then 0
    else Predicted(blocks[..|blocks| - 1], first, mtu) + PredictedBlock(blocks[|blocks| - 1], first, mtu)
  }

  function Overhead(env: Env, b: Bundle, mtu: int, i: nat): nat
    requires Cuttable(b) && i <= MAX_PAYLOAD
  {
    2 + |PrimaryBytes(env, FragmentPrimary(b.primary, i, |PayloadData(b)|))| + Predicted(b.blocks, i == 0, mtu)
  }

  /** The bundles whose blocks all marshal while the overhead is predicted. */
  predicate Cuttable(b: Bundle) {
    Sized(b) && HasType(b.blocks, PAYLOAD_TYPE) && WritablePrimary(b.primary) && WritableValues(b.blocks)
  }

  /* ---- the cut ---- */

  function Min(a: int, b: int): int { if a < b then a else b }

  /** One turn of the cutting loop at offset i: the fragment and the room it had for payload. */
  function NextPiece(env: Env, b: Bundle, mtu: int, i: nat): (r: Result<(Bundle, nat)>)
    requires Cuttable(b) && i < |PayloadData(b)|
    ensures r.Ok? ==> r.value.1 > 0
  {
    var overhead := Overhead(env, b, mtu, i);
    if overhead >= mtu then Err
    else
      var piece := Piece(b, i, Min(i + (mtu - overhead), |PayloadData(b)|));
      if ValidBundle(env, piece) then Ok((piece, mtu - overhead)) else Err
  }

  /** The fragments from offset i on. */
  function Pieces(env: Env, b: Bundle, mtu: int, i: nat): Result<seq<Bundle>>
    requires Cuttable(b)
    decreases |PayloadData(b)| - i
  {
    if i >= |PayloadData(b)| then Ok([])
    else
      match NextPiece(env, b, mtu, i)
      case Err => Err
      case Ok((piece, room)) => Before([piece], Pieces(env, b, mtu, i + room))
  }

  /** Pieces already cut, in front of what the rest of the loop gives. */
  function Before(bs: seq<Bundle>, rest: Result<seq<Bundle>>): Result<seq<Bundle>> {
    match rest
    case Ok(more) => Ok(bs + more)
    case Err => Err
  }

  /** Bundle.Fragment: a bundle that needs one fragment only is handed back unchanged. */
  function Fragments(env: Env, b: Bundle, mtu: int): Result<seq<Bundle>>
    requires Sized(b)
  {
    if Has(b.primary.flags, MUST_NOT_FRAGMENT) || !HasType(b.blocks, PAYLOAD_TYPE) || !WritableValues(b.blocks) then Err
    else if PayloadData(b) == [] then Ok([])
    else if !WritablePrimary(b.primary) then Err
    else
      match Pieces(env, b, mtu, 0)
      case Ok(bs) => Ok(if |bs| == 1 then [b] else bs)
      case Err => Err
  }

  /* ---- the program ---- */

  /** fragmentExtensionBlocksLen. */
  method PredictExtensionBlocks(env: Env, b: Bundle, mtu: int) returns (r: Result<(nat, nat)>)
    requires Sized(b)
    ensures r.Ok? <==> WritableValues(b.blocks)
    ensures r.Ok? ==> r.value == (Predicted(b.blocks, true, mtu), Predicted(b.blocks, false, mtu))
  {
    hide BlockBytes, BlockLen, Valid, Fits;
    var first, others := 0, 0;
    var i := 0;
    while i < |b.blocks|
      invariant 0 <= i <= |b.blocks|
      invariant WritableValues(b.blocks[..i])
      invariant first == Predicted(b.blocks[..i], true, mtu)
      invariant others == Predicted(b.blocks[..i], false, mtu)
    {
      var cb := b.blocks[i];
      var isPayload := IsPayload(cb);
      if isPayload {
        cb := CanonicalBlock(cb.number, cb.flags, CRC_NO, Payload([]));
      }
      cb := cb.(crcType := CRC_32);
      var buff := new Writer();
      var ok := MarshalBlock(env, cb, buff);
      if !ok {
        return Err;
      }
      BlockBytesLen(env, cb);
      var cbLen := |buff.out|;
      first := first + cbLen;
      if Has(cb.flags, REPLICATE_BLOCK) {
        others := others + cbLen;
      }
      if isPayload {
        var head := Head(BYTE_STRING, mtu % TWO64);
        first := first + (|head| - 1);
        others := others + cbLen + (|head| - 1);
      }
      assert b.blocks[..i + 1][..i] == b.blocks[..i];
      i := i + 1;
    }
    assert b.blocks[..i] == b.blocks;
    r := Ok((first, others));
  }

  lemma SelectStep(blocks: seq<CanonicalBlock>, k: nat, first: bool)
    requires k < |blocks|
    ensures var now := Select(blocks[..k], first);
            Select(blocks[..k + 1], first) == if Carried(blocks[k], first) then now + [blocks[k]] else now
  {
    assert blocks[..k + 1][..k] == blocks[..k];
  }

  /** One extension block goes behind the ones the fragment has. */
  method CarryBlock(frag: BundleRef, ghost carried: seq<CanonicalBlock>, cb: CanonicalBlock)
    requires |carried| + 3 < MAX_LEN && !IsPayload(cb) && frag.blocks == Renumber(carried, 2)
    modifies frag`blocks
    ensures frag.blocks == Renumber(carried + [cb], 2)
  {
    hide Renumber, Added, Sorted, DistinctNumbers, Numbers;
    RenumberedIsSorted(carried);
    AddContinues(carried, cb);
    frag.AddExtensionBlock(cb);
  }

  lemma SelectNone(blocks: seq<CanonicalBlock>, first: bool)
    ensures Select(blocks[..0], first) == [] && Select(blocks[..|blocks|], first) == Select(blocks, first)
  {
    assert blocks[..|blocks|] == blocks;
  }

  /** The inner loop of Fragment: the extension blocks this fragment carries. */
  method CollectExtensionBlocks(b: Bundle, i: nat, frag: BundleRef)
    requires |b.blocks| + 3 <= MAX_LEN && frag.blocks == []
    modifies frag`blocks
    ensures frag.blocks == Renumber(Select(b.blocks, i == 0), 2)
  {
    hide Select, Has, Renumber, TypeCode;
    ghost var carried := [];
    SelectNone(b.blocks, i == 0);
    var k := 0;
    while k < |b.blocks|
      invariant 0 <= k <= |b.blocks|
      invariant carried == Select(b.blocks[..k], i == 0) && |carried| <= k
      invariant frag.blocks == Renumber(carried, 2)
    {
      var cb := b.blocks[k];
      SelectStep(b.blocks, k, i == 0);
      if !IsPayload(cb) && !(i > 0 && !Has(cb.flags, REPLICATE_BLOCK)) {
        CarryBlock(frag, carried, cb);
        carried := carried + [cb];
      }
      k := k + 1;
    }
  }

  /** The fragment of one turn: the extension blocks, closed with the payload. */
  method BuildPiece(b: Bundle, fragPrimary: PrimaryBlock, i: nat, j: nat) returns (piece: Bundle)
    requires Sized(b) && HasType(b.blocks, PAYLOAD_TYPE) && i <= j <= |PayloadData(b)|
    requires fragPrimary == FragmentPrimary(b.primary, i, |PayloadData(b)|)
    ensures piece == Piece(b, i, j)
  {
    hide Added, Renumber, FindType;
    var frag := new BundleRef(fragPrimary, []);
    assert |multiset(frag.blocks)| == 0;
    CollectExtensionBlocks(b, i, frag);
    var payload := PayloadBlock(b);
    var payloadBlock := CanonicalBlock(0, payload.flags, payload.crcType, Payload(payload.value.data[i..j]));
    RenumberedIsSorted(Select(b.blocks, i == 0));
    AddPayloadCloses(Select(b.blocks, i == 0), payloadBlock);
    frag.AddExtensionBlock(payloadBlock);
    piece := frag.Value();
  }

  /** One turn of the cutting loop. */
  method CutPiece(env: Env, b: Bundle, mtu: int, lens: (nat, nat), i: nat) returns (r: Result<(Bundle, nat)>)
    requires Sized(b) && HasType(b.blocks, PAYLOAD_TYPE) && WritableValues(b.blocks) && i < |PayloadData(b)|
    requires lens == (Predicted(b.blocks, true, mtu), Predicted(b.blocks, false, mtu))
    ensures r == if WritablePrimary(b.primary) then NextPiece(env, b, mtu, i) else Err
  {
    hide PrimaryBytes, ValidBundle, Predicted, FindType, Fits, Valid, WritableValue, Piece;
    var payloadLen := |PayloadData(b)|;
    var fragPrimary := FragmentPrimary(b.primary, i, payloadLen);
    var buff := new Writer();
    var ok := MarshalPrimary(env, fragPrimary, buff);
    if !ok {
      return Err;
    }
    assert buff.out == PrimaryBytes(env, fragPrimary);
    var overhead := 2 + |buff.out| + if i == 0 then lens.0 else lens.1;
    if overhead >= mtu {
      return Err;
    }
    var room := mtu - overhead;
    var piece := BuildPiece(b, fragPrimary, i, Min(i + room, payloadLen));
    r := if ValidBundle(env, piece) then Ok((piece, room)) else Err;
  }

  lemma BeforeStep(bs: seq<Bundle>, piece: Bundle, rest: Result<seq<Bundle>>)
    ensures Before(bs, Before([piece], rest)) == Before(bs + [piece], rest)
  {
    if rest.Ok? {
      assert bs + ([piece] + rest.value) == bs + [piece] + rest.value;
    }
  }

  lemma BeforeNothing(rest: Result<seq<Bundle>>)
    ensures Before([], rest) == rest
  {
    if rest.Ok? {
      assert [] + rest.value == rest.value;
    }
  }

  /** Bundle.Fragment. */
  method Fragment(env: Env, b: Bundle, mtu: int) returns (r: Result<seq<Bundle>>)
    requires Sized(b)
    ensures r == Fragments(env, b, mtu)
  {
    hide NextPiece, FindType, Fits, Valid, WritableValue, Predicted;
    if Has(b.primary.flags, MUST_NOT_FRAGMENT) || !HasType(b.blocks, PAYLOAD_TYPE) {
      return Err;
    }
    var lens := PredictExtensionBlocks(env, b, mtu);
    if lens.Err? {
      return Err;
    }
    var payloadLen := |PayloadData(b)|;
    var bs: seq<Bundle> := [];
    var i: nat := 0;
    if WritablePrimary(b.primary) {
      BeforeNothing(Pieces(env, b, mtu, 0));
    }
    while i < payloadLen
      invariant i > 0 ==> WritablePrimary(b.primary)
      invariant WritablePrimary(b.primary) ==> Pieces(env, b, mtu, 0) == Before(bs, Pieces(env, b, mtu, i))
      invariant i == 0 ==> bs == []
    {
      var turn := CutPiece(env, b, mtu, lens.value, i);
      if turn.Err? {
        return Err;
      }
      var (piece, room) := turn.value;
      BeforeStep(bs, piece, Pieces(env, b, mtu, i + room));
      bs := bs + [piece];
      i := i + room;
    }
    assert bs + [] == bs;
    if |bs| == 1 {
      bs := [b];
    }
    r := Ok(bs);
  }
}
