/** Fragmenting a bundle and reassembling the fragments in any order gives the bundle back, up to
    the numbering of its extension blocks. */
module RoundTrip {
  import opened Bytes
  import Endpoint
  import opened Blocks
  import opened Primary
  import opened BundleCodec
  import opened BlockList
  import opened Fragmentation
  import opened MtuBound
  import opened Reassembly
  import opened Coverage

  /* ---- validity of rebuilt bundles ---- */

  lemma HigherBitKept(flags: u64, bit: u64, half: nat)
    requires flags % 2 == 0 && bit == 2 * half && half > 0 && flags + 1 < TWO64
    ensures Has(flags + 1, bit) == Has(flags, bit)
  {
    var q, r := flags / bit, flags % bit;
    assert flags == bit * q + r;
    EvenRemainder(flags, half, q, r);
    DivUnique(flags + 1, bit, q, r + 1);
  }

  lemma EvenRemainder(n: nat, half: nat, q: nat, r: nat)
    requires n % 2 == 0 && n == 2 * half * q + r
    ensures r % 2 == 0
  {
    assert 2 * half * q == 2 * (half * q);
  }

  /** Setting the lowest flag changes no other flag. */
  lemma OtherFlagsKept(flags: u64)
    requires !Has(flags, IS_FRAGMENT)
    ensures flags + 1 < TWO64 && Has(flags + 1, IS_FRAGMENT)
    ensures Has(flags + 1, ADMINISTRATIVE_RECORD) == Has(flags, ADMINISTRATIVE_RECORD)
    ensures Has(flags + 1, MUST_NOT_FRAGMENT) == Has(flags, MUST_NOT_FRAGMENT)
    ensures Has(flags + 1, STATUS_RECEPTION) == Has(flags, STATUS_RECEPTION)
    ensures Has(flags + 1, STATUS_FORWARD) == Has(flags, STATUS_FORWARD)
    ensures Has(flags + 1, STATUS_DELIVERY) == Has(flags, STATUS_DELIVERY)
    ensures Has(flags + 1, STATUS_DELETION) == Has(flags, STATUS_DELETION)
  {
    LowestFlag(flags);
    hide Has;
    HigherBitKept(flags, ADMINISTRATIVE_RECORD, 0x000001);
    HigherBitKept(flags, MUST_NOT_FRAGMENT, 0x000002);
    HigherBitKept(flags, STATUS_RECEPTION, 0x002000);
    HigherBitKept(flags, STATUS_FORWARD, 0x008000);
    HigherBitKept(flags, STATUS_DELIVERY, 0x010000);
    HigherBitKept(flags, STATUS_DELETION, 0x020000);
  }

  lemma LowestFlag(flags: u64)
    requires !Has(flags, IS_FRAGMENT)
    ensures flags % 2 == 0 && flags + 1 < TWO64 && Has(flags + 1, IS_FRAGMENT)
  {
  }

  /** A bundle with the primary block of b up to its fragment fields, extension blocks selected
      from b and renumbered, and a payload block with the flags of b's. */
  predicate RebuiltFrom(r: Bundle, b: Bundle, first: bool)
    requires b.blocks != [] && |b.blocks| <= MAX_LEN
  {
    && r.primary == b.primary.(flags := r.primary.flags, fragmentOffset := r.primary.fragmentOffset,
                               totalDataLength := r.primary.totalDataLength)
    && (r.primary.flags == b.primary.flags || r.primary.flags == SetFragmentFlag(b.primary.flags))
    && |r.blocks| == |Select(b.blocks, first)| + 1
    && r.blocks[..|r.blocks| - 1] == Renumber(Select(b.blocks, first), 2)
    && var payload := r.blocks[|r.blocks| - 1];
    && payload.value.Payload? && payload.number == 1 && payload.flags == b.blocks[|b.blocks| - 1].flags
  }

  /** What a fragment of a bundle without a creation time needs: the age block. */
  predicate AgeCarried(b: Bundle, first: bool) {
    b.primary.time == 0 ==>
      var i := FindType(b.blocks, BUNDLE_AGE_TYPE); i < |b.blocks| && Carried(b.blocks[i], first)
  }

  lemma RebuiltBlocks(env: Env, r: Bundle, b: Bundle, first: bool)
    requires ValidBundle(env, b) && |b.blocks| <= MAX_LEN && RebuiltFrom(r, b, first)
    ensures forall k :: 0 <= k < |r.blocks| - 1 ==>
      var cb := Select(b.blocks, first)[k]; cb in b.blocks && Carried(cb, first) && r.blocks[k] == cb.(number := k + 2)
    ensures (forall k :: 0 <= k < |r.blocks| ==> ValidBlock(r.blocks[k]))
    ensures DistinctNumbers(r.blocks) && DistinctTypes(r.blocks)
  {
    hide ValidPrimary, LifetimeExceeded, FindType, Select;
    var s := Select(b.blocks, first);
    var k := |s|;
    assert forall i :: 0 <= i < k ==> r.blocks[i] == r.blocks[..k][i];
    SelectKeepsDistinct(b.blocks, first);
    RebuiltBlocksValid(b.blocks, r.blocks, s);
    RebuiltDistinct(r.blocks, s);
  }

  lemma RebuiltBlocksValid(blocks: seq<CanonicalBlock>, r: seq<CanonicalBlock>, s: seq<CanonicalBlock>)
    requires forall i :: 0 <= i < |blocks| ==> ValidBlock(blocks[i])
    requires |r| == |s| + 1 && |s| + 2 < TWO64
    requires forall k :: 0 <= k < |s| ==> s[k] in blocks && !IsPayload(s[k]) && r[k] == s[k].(number := k + 2)
    requires r[|s|].value.Payload? && r[|s|].number == 1
    ensures forall k :: 0 <= k < |r| ==> ValidBlock(r[k])
  {
    forall k | 0 <= k < |s| ensures ValidBlock(r[k]) {
      assert ValidBlock(s[k]);
    }
  }

  lemma RebuiltDistinct(r: seq<CanonicalBlock>, s: seq<CanonicalBlock>)
    requires DistinctTypes(s) && |r| == |s| + 1 && |s| + 2 < TWO64
    requires forall k :: 0 <= k < |s| ==> !IsPayload(s[k]) && r[k] == s[k].(number := k + 2)
    requires r[|s|].value.Payload? && r[|s|].number == 1
    ensures DistinctNumbers(r) && DistinctTypes(r)
  {
    assert forall k :: 0 <= k < |s| ==> TypeCode(r[k].value) == TypeCode(s[k].value) != PAYLOAD_TYPE;
  }

  /** r holds the values of the blocks selected from a list, and a payload block behind them. */
  predicate ValuesOf(r: seq<CanonicalBlock>, blocks: seq<CanonicalBlock>, first: bool) {
    var s := Select(blocks, first);
    && |r| == |s| + 1 && IsPayload(r[|s|])
    && forall k :: 0 <= k < |s| ==> r[k].value == s[k].value
  }

  lemma TypeKept(blocks: seq<CanonicalBlock>, r: seq<CanonicalBlock>, first: bool, i: nat)
    requires ValuesOf(r, blocks, first) && i < |blocks| && Carried(blocks[i], first)
    ensures HasType(r, TypeCode(blocks[i].value))
  {
    SelectContains(blocks, first, i);
    hide Select;
    var s := Select(blocks, first);
    var m :| 0 <= m < |s| && s[m] == blocks[i];
    assert r[m].value == s[m].value;
  }

  lemma TypeFrom(blocks: seq<CanonicalBlock>, r: seq<CanonicalBlock>, first: bool, k: nat) returns (l: nat)
    requires ValuesOf(r, blocks, first) && k < |r| && !IsPayload(r[k])
    ensures l < |blocks| && Carried(blocks[l], first) && blocks[l].value == r[k].value
  {
    hide Select;
    var s := Select(blocks, first);
    assert s[k] in blocks;
    l :| 0 <= l < |blocks| && blocks[l] == s[k];
  }

  lemma DistinctFind(blocks: seq<CanonicalBlock>, l: nat)
    requires DistinctTypes(blocks) && l < |blocks|
    ensures FindType(blocks, TypeCode(blocks[l].value)) == l
  {
  }

  /** Looking up a type other than the payload's gives the same value in a selection as in the
      whole list, when the block is selected at all. */
  lemma TypeFound(blocks: seq<CanonicalBlock>, r: seq<CanonicalBlock>, first: bool, code: u64)
    requires code != PAYLOAD_TYPE && DistinctTypes(blocks) && ValuesOf(r, blocks, first)
    ensures var i := FindType(blocks, code);
            HasType(r, code) <==> i < |blocks| && Carried(blocks[i], first)
    ensures HasType(r, code) ==>
      HasType(blocks, code) && r[FindType(r, code)].value == blocks[FindType(blocks, code)].value
  {
    hide ValuesOf, DistinctTypes, Carried;
    var i, k := FindType(blocks, code), FindType(r, code);
    if i < |blocks| && Carried(blocks[i], first) {
      TypeKept(blocks, r, first, i);
    }
    if k < |r| {
      var l := TypeFrom(blocks, r, first, k);
      DistinctFind(blocks, l);
    }
  }

  lemma AgeBlockFound(env: Env, r: Bundle, b: Bundle, first: bool)
    requires ValidBundle(env, b) && |b.blocks| <= MAX_LEN && RebuiltFrom(r, b, first) && b.primary.time == 0
    ensures HasType(r.blocks, BUNDLE_AGE_TYPE) <==> AgeCarried(b, first)
    ensures HasType(r.blocks, BUNDLE_AGE_TYPE) ==>
      r.blocks[FindType(r.blocks, BUNDLE_AGE_TYPE)].value == b.blocks[FindType(b.blocks, BUNDLE_AGE_TYPE)].value
  {
    hide ValidPrimary, LifetimeExceeded, ValidBlock, FindType, DistinctTypes, DistinctNumbers, Select;
    RebuiltBlocks(env, r, b, first);
    TypeFound(b.blocks, r.blocks, first, BUNDLE_AGE_TYPE);
  }

  lemma {:induction false} SelectContains(blocks: seq<CanonicalBlock>, first: bool, i: nat)
    requires i < |blocks| && Carried(blocks[i], first)
    ensures blocks[i] in Select(blocks, first)
  {
    var last := |blocks| - 1;
    if i < last {
      SelectContains(blocks[..last], first, i);
    }
  }

  lemma RebuiltPrimaryValid(env: Env, r: Bundle, b: Bundle, first: bool)
    requires ValidBundle(env, b) && |b.blocks| <= MAX_LEN && RebuiltFrom(r, b, first)
    requires r.primary.flags == b.primary.flags || !Has(b.primary.flags, MUST_NOT_FRAGMENT)
    ensures ValidPrimary(r.primary)
    ensures Has(r.primary.flags, ADMINISTRATIVE_RECORD) == Has(b.primary.flags, ADMINISTRATIVE_RECORD)
  {
    hide LifetimeExceeded, ValidBlock, DistinctNumbers, DistinctTypes, Select, Renumber, Has, FindType, Endpoint.Valid;
    if !Has(b.primary.flags, IS_FRAGMENT) {
      OtherFlagsKept(b.primary.flags);
    }
  }

  /** A rebuilt bundle is valid exactly when it still carries the age block its bundle needs. */
  lemma RebuiltIsValid(env: Env, r: Bundle, b: Bundle, first: bool)
    requires ValidBundle(env, b) && |b.blocks| <= MAX_LEN && RebuiltFrom(r, b, first)
    requires r.primary.flags == b.primary.flags || !Has(b.primary.flags, MUST_NOT_FRAGMENT)
    ensures ValidBundle(env, r) <==> AgeCarried(b, first)
  {
    hide ValidPrimary, ValidBlock, DistinctNumbers, DistinctTypes, Select, Renumber, FindType;
    RebuiltPrimaryValid(env, r, b, first);
    RebuiltBlocks(env, r, b, first);
    RebuiltStatusFlags(env, r, b, first);
    if b.primary.time == 0 {
      AgeBlockFound(env, r, b, first);
    }
  }

  lemma RebuiltStatusFlags(env: Env, r: Bundle, b: Bundle, first: bool)
    requires ValidBundle(env, b) && |b.blocks| <= MAX_LEN && RebuiltFrom(r, b, first)
    ensures Has(b.primary.flags, ADMINISTRATIVE_RECORD) || b.primary.source == Endpoint.DTN_NONE ==>
      forall k :: 0 <= k < |r.blocks| ==> !Has(r.blocks[k].flags, STATUS_REPORT_BLOCK)
  {
    hide ValidPrimary, LifetimeExceeded, DistinctNumbers, DistinctTypes;
    RebuiltBlocks(env, r, b, first);
    forall k |
      (Has(b.primary.flags, ADMINISTRATIVE_RECORD) || b.primary.source == Endpoint.DTN_NONE) && 0 <= k < |r.blocks|
      ensures !Has(r.blocks[k].flags, STATUS_REPORT_BLOCK)
    {
      if k < |r.blocks| - 1 {
        var cb := Select(b.blocks, first)[k];
        assert cb in b.blocks;
      }
    }
  }

  /** Whether a fragment of a valid bundle that may be fragmented is valid depends on the age block
      alone, so a bundle without a creation time is cut into more than one piece only if its age
      block is replicated. */
  lemma PieceIsValid(env: Env, b: Bundle, i: nat, j: nat)
    requires ValidBundle(env, b) && Sized(b) && !Has(b.primary.flags, MUST_NOT_FRAGMENT)
    requires HasType(b.blocks, PAYLOAD_TYPE) && i <= j <= |PayloadData(b)|
    ensures ValidBundle(env, Piece(b, i, j)) <==> AgeCarried(b, i == 0)
  {
    hide ValidBundle, FindType;
    PieceIsRebuilt(env, b, i, j);
    RebuiltIsValid(env, Piece(b, i, j), b, i == 0);
  }

  lemma PieceIsRebuilt(env: Env, b: Bundle, i: nat, j: nat)
    requires ValidBundle(env, b) && Sized(b)
    requires HasType(b.blocks, PAYLOAD_TYPE) && i <= j <= |PayloadData(b)|
    ensures RebuiltFrom(Piece(b, i, j), b, i == 0)
  {
    PayloadIsLast(env, b);
    var s := Renumber(Select(b.blocks, i == 0), 2);
    assert (s + [PiecePayload(b, i, j)])[..|s|] == s;
  }

  /* ---- the cuts ---- */

  /** bs are the fragments of b between consecutive cuts. */
  ghost predicate CutAt(b: Bundle, bs: seq<Bundle>, cuts: seq<nat>)
    requires Sized(b) && HasType(b.blocks, PAYLOAD_TYPE)
  {
    && |cuts| == |bs| + 1
    && (forall k :: 0 <= k < |bs| ==> cuts[k] < cuts[k + 1])
    && (forall k :: 0 <= k < |cuts| ==> cuts[k] <= |PayloadData(b)|)
    && (forall k :: 0 <= k < |bs| ==> bs[k] == Piece(b, cuts[k], cuts[k + 1]))
  }

  /** The cutting loop leaves no octet out and repeats none. */
  lemma {:induction false} PiecesAreCut(env: Env, b: Bundle, mtu: int, i: nat) returns (cuts: seq<nat>)
    requires Cuttable(b) && Pieces(env, b, mtu, i).Ok? && i <= |PayloadData(b)|
    ensures CutAt(b, Pieces(env, b, mtu, i).value, cuts)
    ensures cuts[0] == i && cuts[|cuts| - 1] == |PayloadData(b)|
    decreases |PayloadData(b)| - i
  {
    hide ValidBundle, FindType, Piece, Overhead, WritablePrimary, Sized;
    var n := |PayloadData(b)|;
    if i >= n {
      cuts := [i];
    } else {
      var room := NextPiece(env, b, mtu, i).value.1;
      var piece := NextPiece(env, b, mtu, i).value.0;
      var rest := Pieces(env, b, mtu, i + room);
      if i + room >= n {
        cuts := [i, n];
        assert Pieces(env, b, mtu, i).value == [piece];
      } else {
        var more := PiecesAreCut(env, b, mtu, i + room);
        cuts := [i] + more;
        var bs := Pieces(env, b, mtu, i).value;
        assert forall k :: 0 < k < |bs| ==> bs[k] == rest.value[k - 1];
      }
    }
  }

  lemma {:induction false} PiecesAreValid(env: Env, b: Bundle, mtu: int, i: nat)
    requires Cuttable(b) && Pieces(env, b, mtu, i).Ok?
    ensures forall k :: 0 <= k < |Pieces(env, b, mtu, i).value| ==> ValidBundle(env, Pieces(env, b, mtu, i).value[k])
    decreases |PayloadData(b)| - i
  {
    hide ValidBundle, FindType, Overhead, Piece, Sized;
    if i < |PayloadData(b)| {
      PiecesAreValid(env, b, mtu, i + NextPiece(env, b, mtu, i).value.1);
    }
  }

  lemma PieceIsSlice(env: Env, b: Bundle, i: nat, j: nat)
    requires ValidBundle(env, b) && Sized(b) && HasType(b.blocks, PAYLOAD_TYPE) && i <= j <= |PayloadData(b)|
    ensures SliceOf(Piece(b, i, j), PayloadData(b))
    ensures Offset(Piece(b, i, j)) == i && PayloadData(Piece(b, i, j)) == PayloadData(b)[i..j]
    ensures Stop(Piece(b, i, j)) == j
    ensures PayloadBlock(Piece(b, i, j)) == PiecePayload(b, i, j)
  {
    hide ValidBundle, Select, FindType, Endpoint.Fits;
    var piece := Piece(b, i, j);
    PieceBlocks(env, b, i, j);
    FindPayload(piece.blocks);
    FlagIsSet(b.primary.flags);
  }

  lemma PieceBlocks(env: Env, b: Bundle, i: nat, j: nat)
    requires ValidBundle(env, b) && Sized(b) && HasType(b.blocks, PAYLOAD_TYPE) && i <= j <= |PayloadData(b)|
    ensures var blocks := Piece(b, i, j).blocks;
      && |blocks| <= |b.blocks|
      && blocks[|blocks| - 1] == PiecePayload(b, i, j)
      && forall k :: 0 <= k < |blocks| - 1 ==> SizedValue(blocks[k].value) && !IsPayload(blocks[k])
  {
    hide ValidBundle, FindType, Endpoint.Fits, Select, Renumber, PiecePayload, SizedValue;
    var s := Select(b.blocks, i == 0);
    SelectIsShorter(env, b, i == 0);
    var blocks := Piece(b, i, j).blocks;
    forall k | 0 <= k < |s| ensures SizedValue(blocks[k].value) && !IsPayload(blocks[k]) {
      assert s[k] in b.blocks && Carried(s[k], i == 0);
      assert blocks[k] == s[k].(number := k + 2);
    }
  }

  lemma SelectIsShorter(env: Env, b: Bundle, first: bool)
    requires ValidBundle(env, b)
    ensures |Select(b.blocks, first)| < |b.blocks|
  {
    hide ValidBundle, FindType, Select;
    PayloadIsLast(env, b);
    SelectIgnoresPayload(env, b, first);
  }

  lemma FindPayload(blocks: seq<CanonicalBlock>)
    requires blocks != [] && IsPayload(blocks[|blocks| - 1])
    requires forall k :: 0 <= k < |blocks| - 1 ==> !IsPayload(blocks[k])
    ensures FindType(blocks, PAYLOAD_TYPE) == |blocks| - 1
  {
    var f := FindType(blocks, PAYLOAD_TYPE);
    assert f < |blocks| - 1 ==> !IsPayload(blocks[f]);
  }

  lemma FlagIsSet(flags: u64)
    ensures Has(SetFragmentFlag(flags), IS_FRAGMENT)
    ensures !Has(flags, IS_FRAGMENT) ==> ClearFragmentFlag(SetFragmentFlag(flags)) == flags
  {
  }

  lemma {:induction false} CutsAscend(cuts: seq<nat>, i: nat, j: nat)
    requires forall k :: 0 <= k < |cuts| - 1 ==> cuts[k] < cuts[k + 1]
    requires i < j < |cuts|
    ensures cuts[i] < cuts[j]
    decreases j - i
  {
    if i + 1 < j {
      CutsAscend(cuts, i, j - 1);
    }
  }

  /** The cut that an octet falls behind. */
  lemma {:induction false} FindCut(cuts: seq<nat>, x: nat) returns (k: nat)
    requires |cuts| >= 2 && cuts[0] <= x < cuts[|cuts| - 1]
    ensures k < |cuts| - 1 && cuts[k] <= x < cuts[k + 1]
  {
    var last := |cuts| - 1;
    if x >= cuts[last - 1] {
      k := last - 1;
    } else {
      k := FindCut(cuts[..last], x);
    }
  }

  /** Consecutive pieces are slices in strict offset order that touch and cover the payload. */
  lemma CutIsReassemblable(env: Env, b: Bundle, bs: seq<Bundle>, cuts: seq<nat>)
    requires ValidBundle(env, b) && Sized(b) && HasType(b.blocks, PAYLOAD_TYPE)
    requires CutAt(b, bs, cuts) && cuts[0] == 0 && cuts[|cuts| - 1] == |PayloadData(b)|
    ensures SlicesOf(bs, PayloadData(b))
    ensures forall i, j :: 0 <= i < j < |bs| ==> Offset(bs[i]) < Offset(bs[j])
    ensures NoStepBack(bs, PayloadData(b)) && Covers(bs, PayloadData(b))
  {
    hide ValidBundle, FindType, Piece, Sized, PayloadData, Stop;
    var p := PayloadData(b);
    forall k | 0 <= k < |bs|
      ensures SliceOf(bs[k], p) && Offset(bs[k]) == cuts[k] && Stop(bs[k]) == cuts[k + 1]
    {
      PieceIsSlice(env, b, cuts[k], cuts[k + 1]);
    }
    PayloadFitsInt(b);
    forall i, j | 0 <= i < j < |bs| ensures Offset(bs[i]) < Offset(bs[j]) {
      CutsAscend(cuts, i, j);
    }
    forall k | 0 < k < |bs| ensures Stop(bs[k - 1]) <= Stop(bs[k]) {
      assert Stop(bs[k - 1]) == cuts[k] && Stop(bs[k]) == cuts[k + 1];
    }
    forall x | 0 <= x < |p| ensures Covered(x, bs, p) {
      var k := FindCut(cuts, x);
      assert CoveredBy(x, bs[k]);
    }
  }

  lemma PayloadFitsInt(b: Bundle)
    requires Sized(b) && HasType(b.blocks, PAYLOAD_TYPE)
    ensures |PayloadData(b)| <= MAX_LEN
  {
  }

  /* ---- the round trip ---- */

  predicate StrictlyAscending(bs: seq<Bundle>) {
    forall i, j :: 0 <= i < j < |bs| ==> Offset(bs[i]) < Offset(bs[j])
  }

  lemma FirstIsShared(a: seq<Bundle>, b: seq<Bundle>)
    requires StrictlyAscending(a) && SortedByOffset(b) && multiset(a) == multiset(b) && a != []
    ensures b != [] && a[0] == b[0]
    ensures multiset(a[1..]) == multiset(b[1..])
  {
    assert a[0] in multiset(b);
    HeadIsShared(a, b);
    TailsArePermuted(a, b);
  }

  lemma HeadIsShared(a: seq<Bundle>, b: seq<Bundle>)
    requires StrictlyAscending(a) && SortedByOffset(b) && multiset(a) == multiset(b) && a != [] && b != []
    ensures a[0] == b[0]
  {
    hide Offset;
    assert a[0] in multiset(b) && b[0] in multiset(a);
    var i :| 0 <= i < |a| && a[i] == b[0];
    var j :| 0 <= j < |b| && b[j] == a[0];
    assert Offset(b[0]) <= Offset(b[j]) == Offset(a[0]);
    assert i == 0;
  }

  lemma TailsArePermuted(a: seq<Bundle>, b: seq<Bundle>)
    requires multiset(a) == multiset(b) && a != [] && b != [] && a[0] == b[0]
    ensures multiset(a[1..]) == multiset(b[1..])
  {
    assert a == [a[0]] + a[1..] && b == [b[0]] + b[1..];
    assert multiset(a[1..]) == multiset(a) - multiset{a[0]};
    assert multiset(b[1..]) == multiset(b) - multiset{b[0]};
  }

  /** Fragments with different offsets have one sorted order, so any sort finds the same one. */
  lemma {:induction false} OffsetOrderIsUnique(a: seq<Bundle>, b: seq<Bundle>)
    requires StrictlyAscending(a) && SortedByOffset(b) && multiset(a) == multiset(b)
    ensures a == b
  {
    if a == [] {
      assert |multiset(b)| == |b|;
    } else {
      FirstIsShared(a, b);
      OffsetOrderIsUnique(a[1..], b[1..]);
      assert a == [a[0]] + a[1..] && b == [b[0]] + b[1..];
    }
  }

  /** The bundle a round trip gives: without fragment fields, extension blocks numbered from 2 on
      in their order. */
  function Restored(b: Bundle): Bundle
    requires Sized(b) && HasType(b.blocks, PAYLOAD_TYPE)
  {
    Bundle(b.primary.(fragmentOffset := 0, totalDataLength := 0),
           Renumber(Select(b.blocks, true), 2) + [PayloadBlock(b)])
  }

  /** Extension blocks are numbered 2, 3, 4, ... in their order. */
  predicate InOrder(b: Bundle) {
    forall i :: 0 <= i < |b.blocks| - 1 ==> b.blocks[i].number == i + 2
  }

  /** However the numbering differs, the payload block and the values, flags and checksum types of
      the extension blocks are those of the bundle, in their order. */
  lemma RestoredContents(env: Env, b: Bundle)
    requires Sized(b) && ValidBundle(env, b) && HasType(b.blocks, PAYLOAD_TYPE)
    ensures |Restored(b).blocks| == |b.blocks| && Restored(b).blocks[|b.blocks| - 1] == b.blocks[|b.blocks| - 1]
    ensures forall i :: 0 <= i < |b.blocks| - 1 ==> Restored(b).blocks[i] == b.blocks[i].(number := i + 2)
  {
    hide ValidBundle, Sized, FindType, Select;
    SizedHasFewBlocks(b);
    PayloadIsLast(env, b);
    SelectIgnoresPayload(env, b, true);
    SelectAll(ExtensionBlocks(b));
    PayloadBlockIsLast(env, b);
  }

  lemma PayloadBlockIsLast(env: Env, b: Bundle)
    requires Sized(b) && ValidBundle(env, b) && HasType(b.blocks, PAYLOAD_TYPE)
    ensures b.blocks != [] && PayloadBlock(b) == b.blocks[|b.blocks| - 1]
  {
    hide ValidBundle, Sized;
    PayloadIsLast(env, b);
  }

  /** The round trip is exact exactly for bundles without stray fragment fields whose extension
      blocks are numbered 2, 3, 4, ... */
  lemma RestoredExactly(env: Env, b: Bundle)
    requires Sized(b) && ValidBundle(env, b) && HasType(b.blocks, PAYLOAD_TYPE)
    ensures Restored(b) == b <==> b.primary.fragmentOffset == 0 && b.primary.totalDataLength == 0 && InOrder(b)
  {
    hide ValidBundle, Sized, FindType, Select, Renumber;
    RestoredContents(env, b);
    var r := Restored(b);
    if InOrder(b) {
      assert forall i :: 0 <= i < |b.blocks| ==> r.blocks[i] == b.blocks[i];
      assert r.blocks == b.blocks;
    } else {
      var i :| 0 <= i < |b.blocks| - 1 && b.blocks[i].number != i + 2;
      assert r.blocks[i] != b.blocks[i];
    }
  }

  lemma RenumberTwice(blocks: seq<CanonicalBlock>)
    requires |blocks| + 2 < TWO64
    ensures Renumber(Renumber(blocks, 2), 2) == Renumber(blocks, 2)
  {
  }

  lemma SelectPieceBlocks(b: Bundle, payload: CanonicalBlock)
    requires |b.blocks| + 2 < TWO64 && IsPayload(payload)
    ensures Select(Renumber(Select(b.blocks, true), 2) + [payload], true) == Renumber(Select(b.blocks, true), 2)
  {
    var s := Select(b.blocks, true);
    var r := Renumber(s, 2);
    forall k | 0 <= k < |r| ensures !IsPayload(r[k]) {
      assert Carried(s[k], true);
    }
    SelectAll(r);
    assert (r + [payload])[..|r|] == r;
  }

  /** Rebuilding from the first fragment around the whole payload. */
  lemma RebuiltFromFirst(env: Env, b: Bundle, j: nat)
    requires Sized(b) && ValidBundle(env, b) && !IsFragment(b.primary)
    requires HasType(b.blocks, PAYLOAD_TYPE) && j <= |PayloadData(b)|
    ensures Sized(Piece(b, 0, j)) && HasType(Piece(b, 0, j).blocks, PAYLOAD_TYPE)
    ensures Rebuilt(Piece(b, 0, j), PayloadData(b)) == Restored(b)
  {
    hide ValidBundle, FindType, Sized, Renumber, Select;
    PieceIsSlice(env, b, 0, j);
    SizedHasFewBlocks(b);
    PayloadBlockIsLast(env, b);
    LastBlockIsNumberOne(env, b);
    FlagIsSet(b.primary.flags);
    SelectPieceBlocks(b, PiecePayload(b, 0, j));
    RenumberTwice(Select(b.blocks, true));
  }

  lemma RestoredIsValid(env: Env, b: Bundle)
    requires Sized(b) && ValidBundle(env, b) && HasType(b.blocks, PAYLOAD_TYPE)
    ensures ValidBundle(env, Restored(b))
  {
    hide ValidBundle, Sized, FindType, Select, Renumber;
    SizedHasFewBlocks(b);
    PayloadBlockIsLast(env, b);
    var r := Renumber(Select(b.blocks, true), 2);
    assert (r + [PayloadBlock(b)])[..|r|] == r;
    LastBlockIsNumberOne(env, b);
    WholeCarriesAge(env, b);
    RebuiltIsValid(env, Restored(b), b, true);
  }

  lemma LastBlockIsNumberOne(env: Env, b: Bundle)
    requires ValidBundle(env, b)
    ensures b.blocks != [] && b.blocks[|b.blocks| - 1].number == 1
  {
    assert ValidBlock(b.blocks[|b.blocks| - 1]);
  }

  lemma WholeCarriesAge(env: Env, b: Bundle)
    requires ValidBundle(env, b)
    ensures AgeCarried(b, true)
  {
    hide ValidPrimary, ValidBlock, DistinctNumbers, DistinctTypes;
  }

  /** Reassembling the pieces between any cuts from 0 to the end gives the restored bundle. */
  lemma CutReassembles(env: Env, b: Bundle, bs: seq<Bundle>, cuts: seq<nat>)
    requires ValidBundle(env, b) && Sized(b) && HasType(b.blocks, PAYLOAD_TYPE) && !IsFragment(b.primary)
    requires PayloadData(b) != []
    requires CutAt(b, bs, cuts) && cuts[0] == 0 && cuts[|cuts| - 1] == |PayloadData(b)|
    ensures AllSized(bs) && StrictlyAscending(bs) && Reassemble(env, bs) == Value(Restored(b))
  {
    hide ValidBundle, FindType, Piece, Sized, PayloadData, Restored, Rebuilt;
    CutIsReassemblable(env, b, bs, cuts);
    ReassemblableExactly(bs, PayloadData(b));
    RebuiltFromFirst(env, b, cuts[1]);
    RestoredIsValid(env, b);
  }

  /** The fragments of a bundle, when there are several, or the bundle itself. */
  lemma FragmentsAreCut(env: Env, b: Bundle, mtu: int) returns (cuts: seq<nat>)
    requires Sized(b) && HasType(b.blocks, PAYLOAD_TYPE)
    requires Fragments(env, b, mtu).Ok? && |Fragments(env, b, mtu).value| >= 2
    ensures CutAt(b, Fragments(env, b, mtu).value, cuts)
    ensures cuts[0] == 0 && cuts[|cuts| - 1] == |PayloadData(b)| && PayloadData(b) != []
  {
    hide FindType, Piece, Sized, WritablePrimary;
    cuts := PiecesAreCut(env, b, mtu, 0);
  }

  lemma FewFragments(env: Env, b: Bundle, mtu: int, s: seq<Bundle>)
    requires Sized(b) && !IsFragment(b.primary) && Fragments(env, b, mtu).Ok? && |Fragments(env, b, mtu).value| <= 1
    requires multiset(s) == multiset(Fragments(env, b, mtu).value)
    ensures AllSized(s) && Reassemble(env, s) == Error
  {
    hide FindType, Piece, Sized, WritablePrimary;
    assert |multiset(s)| == |s|;
    if s != [] {
      assert s[0] in multiset(s);
      assert s == [b];
      assert s[..0] == [];
    }
  }

  /** The round trip: whatever order the fragments of a valid bundle arrive in, sorting and
      reassembling them gives the restored bundle exactly when there are at least two; the single
      bundle Fragment hands back unchanged is not a fragment and is refused. */
  lemma FragmentsReassemble(env: Env, b: Bundle, mtu: int, s: seq<Bundle>)
    requires Sized(b) && ValidBundle(env, b) && !IsFragment(b.primary)
    requires Fragments(env, b, mtu).Ok?
    requires SortedByOffset(s) && multiset(s) == multiset(Fragments(env, b, mtu).value)
    ensures HasType(b.blocks, PAYLOAD_TYPE) && AllSized(s)
    ensures |s| == |Fragments(env, b, mtu).value|
    ensures Reassemble(env, s) == if |s| >= 2 then Value(Restored(b)) else Error
  {
    hide FindType, Sized, ValidBundle, Piece, Fragments, Restored, Reassemble;
    PayloadIsLast(env, b);
    assert |multiset(s)| == |s|;
    var bs := Fragments(env, b, mtu).value;
    assert |multiset(bs)| == |bs|;
    if |bs| >= 2 {
      var cuts := FragmentsAreCut(env, b, mtu);
      CutReassembles(env, b, bs, cuts);
      OffsetOrderIsUnique(bs, s);
    } else {
      FewFragments(env, b, mtu, s);
    }
  }

  /** Fragment, any reordering on the way, ReassembleFragments. */
  method ReassembleReceived(env: Env, b: Bundle, mtu: int, received: array<Bundle>) returns (r: Outcome<Bundle>)
    requires Sized(b) && ValidBundle(env, b) && !IsFragment(b.primary)
    requires Fragments(env, b, mtu).Ok? && |Fragments(env, b, mtu).value| >= 2
    requires multiset(received[..]) == multiset(Fragments(env, b, mtu).value)
    modifies received
    ensures HasType(b.blocks, PAYLOAD_TYPE) && r == Value(Restored(b))
  {
    hide FindType, Sized, ValidBundle, Piece, Fragments, Restored, Reassemble;
    FragmentsAreSized(env, b, mtu, received[..]);
    r := ReassembleFragments(env, received);
    FragmentsReassemble(env, b, mtu, received[..]);
  }

  lemma FragmentsAreSized(env: Env, b: Bundle, mtu: int, s: seq<Bundle>)
    requires Sized(b) && ValidBundle(env, b) && !IsFragment(b.primary)
    requires Fragments(env, b, mtu).Ok? && |Fragments(env, b, mtu).value| >= 2
    requires multiset(s) == multiset(Fragments(env, b, mtu).value)
    ensures AllSized(s)
  {
    hide FindType, Sized, ValidBundle, Piece, Fragments, Restored, Reassemble;
    PayloadIsLast(env, b);
    var cuts := FragmentsAreCut(env, b, mtu);
    CutReassembles(env, b, Fragments(env, b, mtu).value, cuts);
    SizedPermute(Fragments(env, b, mtu).value, s);
  }

  /** Fragments with non-empty, disjoint ranges in offset order that cover the payload. */
  ghost predicate Tiles(bs: seq<Bundle>, p: seq<byte>) {
    && SlicesOf(bs, p) && Covers(bs, p)
    && (forall i :: 0 <= i < |bs| ==> Offset(bs[i]) < Stop(bs[i]))
    && (forall i, j :: 0 <= i < j < |bs| ==> Stop(bs[i]) <= Offset(bs[j]))
  }

  lemma {:induction false} CutsRise(cuts: seq<nat>, i: nat, j: nat)
    requires forall k :: 0 <= k < |cuts| - 1 ==> cuts[k] < cuts[k + 1]
    requires i <= j < |cuts|
    ensures cuts[i] <= cuts[j]
  {
    if i < j { CutsAscend(cuts, i, j); }
  }

  /** The fragments of a bundle, when there are several, tile its payload. */
  lemma FragmentsTile(env: Env, b: Bundle, mtu: int)
    requires Sized(b) && ValidBundle(env, b) && HasType(b.blocks, PAYLOAD_TYPE)
    requires Fragments(env, b, mtu).Ok? && |Fragments(env, b, mtu).value| >= 2
    ensures Tiles(Fragments(env, b, mtu).value, PayloadData(b)) && PayloadData(b) != []
  {
    hide ValidBundle, FindType, Piece, Sized, PayloadData, Stop, Fragments, SlicesOf, NoStepBack, Covers;
    var bs := Fragments(env, b, mtu).value;
    var cuts := FragmentsAreCut(env, b, mtu);
    CutIsReassemblable(env, b, bs, cuts);
    forall k | 0 <= k < |bs|
      ensures SliceOf(bs[k], PayloadData(b)) && Offset(bs[k]) == cuts[k] < Stop(bs[k]) == cuts[k + 1]
    {
      PieceIsSlice(env, b, cuts[k], cuts[k + 1]);
    }
    forall i, j | 0 <= i < j < |bs| ensures Stop(bs[i]) <= Offset(bs[j]) {
      CutsRise(cuts, i + 1, j);
    }
  }
}
