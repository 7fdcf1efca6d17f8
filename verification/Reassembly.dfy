/** Putting fragments together again (RFC 9171, section 5.9): sort by offset, check for gaps,
    merge overlapping payloads. */
module Reassembly {
  import opened Bytes
  import opened Blocks
  import opened Primary
  import opened BundleCodec
  import opened BlockList
  import opened BundleObject
  import opened Fragmentation

  predicate AllSized(bs: seq<Bundle>) {
    forall i :: 0 <= i < |bs| ==> Sized(bs[i])
  }

  function Offset(b: Bundle): u64 { b.primary.fragmentOffset }

  predicate SortedByOffset(bs: seq<Bundle>) {
    forall i, j :: 0 <= i < j < |bs| ==> Offset(bs[i]) <= Offset(bs[j])
  }

  /** Where the payload of a fragment ends, in uint64. */
  function End(b: Bundle): u64
    requires Sized(b) && HasType(b.blocks, PAYLOAD_TYPE)
  {
    (Offset(b) + |PayloadData(b)|) % TWO64
  }

  /** The last index after the gap check, or an error. */
  function ChainEnd(bs: seq<Bundle>): (r: Result<u64>)
    requires AllSized(bs)
    ensures r.Ok? ==> forall i :: 0 <= i < |bs| ==> HasType(bs[i].blocks, PAYLOAD_TYPE)
  {
    if bs == [] then Ok(0)
    else
      var front, last := bs[..|bs| - 1], bs[|bs| - 1];
      match ChainEnd(front)
      case Err => Err
      case Ok(index) =>
        if IsFragment(last.primary) && Offset(last) <= index && HasType(last.blocks, PAYLOAD_TYPE) then Ok(End(last))
        else Err
  }

  /** prepareReassembly after the sort. */
  predicate Accepts(bs: seq<Bundle>)
    requires AllSized(bs)
  {
    bs != [] && ChainEnd(bs) == Ok(bs[0].primary.totalDataLength)
  }

  /** mergeFragmentPayload, in int: the data so far and the last index. */
  function Merge(bs: seq<Bundle>): (r: Outcome<(seq<byte>, int)>)
    requires AllSized(bs)
    ensures r.Value? ==> forall i :: 0 <= i < |bs| ==> HasType(bs[i].blocks, PAYLOAD_TYPE)
  {
    if bs == [] then Value(([], 0))
    else
      var front, last := bs[..|bs| - 1], bs[|bs| - 1];
      match Merge(front)
      case Error => Error
      case Panic => Panic
      case Value((data, index)) =>
        if !HasType(last.blocks, PAYLOAD_TYPE) then Error
        else
          var low := ToInt(index - ToInt(Offset(last)));
          if 0 <= low <= |PayloadData(last)|
          then Value((data + PayloadData(last)[low..], ToInt(ToInt(Offset(last)) + |PayloadData(last)|)))
          else Panic
  }

  /** The payload of b ends at n, in uint64. */
  predicate EndsAt(b: Bundle, n: int)
    requires Sized(b)
  {
    HasType(b.blocks, PAYLOAD_TYPE) && (b.primary.fragmentOffset + |PayloadData(b)|) % 0x1_0000_0000_0000_0000 == n
  }

  /** A fragment with a payload that starts no later than the one before it ends, the first at 0. */
  predicate Joins(bs: seq<Bundle>, i: nat)
    requires AllSized(bs) && i < |bs|
  {
    && bs[i].primary.flags % 2 == 1 && HasType(bs[i].blocks, PAYLOAD_TYPE)
    && if i == 0 then bs[i].primary.fragmentOffset == 0
       else
         && HasType(bs[i - 1].blocks, PAYLOAD_TYPE)
         && bs[i].primary.fragmentOffset
            <= (bs[i - 1].primary.fragmentOffset + |PayloadData(bs[i - 1])|) % 0x1_0000_0000_0000_0000
  }

  lemma JoinsInFront(bs: seq<Bundle>, i: nat)
    requires AllSized(bs) && i < |bs| - 1
    ensures Joins(bs[..|bs| - 1], i) <==> Joins(bs, i)
  {
    hide Sized, HasType, EndsAt;
  }

  lemma EndIsUnique(b: Bundle)
    requires Sized(b) && HasType(b.blocks, PAYLOAD_TYPE)
    ensures forall n :: EndsAt(b, n) <==> n == End(b)
  {
    hide Sized, HasType;
  }

  lemma {:induction false} ChainExactly(bs: seq<Bundle>)
    requires AllSized(bs) && bs != []
    ensures ChainEnd(bs).Ok? <==> forall i :: 0 <= i < |bs| ==> Joins(bs, i)
    ensures ChainEnd(bs).Ok? ==> EndsAt(bs[|bs| - 1], ChainEnd(bs).value)
  {
    hide Sized, HasType, EndsAt, End, Joins;
    var front, last := bs[..|bs| - 1], |bs| - 1;
    if last > 0 {
      ChainExactly(front);
      forall i | 0 <= i < last ensures Joins(front, i) <==> Joins(bs, i) {
        JoinsInFront(bs, i);
      }
    }
    ChainLast(bs);
  }

  lemma ChainLast(bs: seq<Bundle>)
    requires AllSized(bs) && bs != []
    requires var front := bs[..|bs| - 1];
      front != [] && ChainEnd(front).Ok? ==> EndsAt(front[|front| - 1], ChainEnd(front).value)
    ensures ChainEnd(bs).Ok? <==> ChainEnd(bs[..|bs| - 1]).Ok? && Joins(bs, |bs| - 1)
    ensures ChainEnd(bs).Ok? ==> EndsAt(bs[|bs| - 1], ChainEnd(bs).value)
  {
    hide Sized, HasType, PayloadData;
  }

  /** Whatever fragments there are, in any order: they are accepted exactly when there is one, each is
      flagged as a fragment, has a payload and starts no later than the one before it ends, the first
      at 0, and the last ends where the first says the whole payload does. */
  lemma AcceptedExactly(bs: seq<Bundle>)
    requires AllSized(bs)
    ensures Accepts(bs) <==>
      && bs != [] && (forall i :: 0 <= i < |bs| ==> Joins(bs, i))
      && EndsAt(bs[|bs| - 1], bs[0].primary.totalDataLength)
  {
    hide Sized, HasType, EndsAt, ChainEnd, Joins;
    if bs != [] {
      ChainExactly(bs);
      JoinsHasPayload(bs, |bs| - 1);
      if HasType(bs[|bs| - 1].blocks, PAYLOAD_TYPE) {
        EndIsUnique(bs[|bs| - 1]);
      }
    }
  }

  lemma JoinsHasPayload(bs: seq<Bundle>, i: nat)
    requires AllSized(bs) && i < |bs|
    ensures Joins(bs, i) ==> HasType(bs[i].blocks, PAYLOAD_TYPE)
  {
    hide Sized, HasType, EndsAt;
  }

  function ClearedPrimary(p: PrimaryBlock): PrimaryBlock {
    p.(flags := ClearFragmentFlag(p.flags), fragmentOffset := 0, totalDataLength := 0)
  }

  /** The bundle ReassembleFragments builds around merged data. */
  function Rebuilt(b: Bundle, data: seq<byte>): Bundle
    requires Sized(b) && HasType(b.blocks, PAYLOAD_TYPE)
  {
    Bundle(ClearedPrimary(b.primary),
           Renumber(Select(b.blocks, true), 2)
           + [CanonicalBlock(1, PayloadBlock(b).flags, PayloadBlock(b).crcType, Payload(data))])
  }

  /** ReassembleFragments after the sort. */
  function Reassemble(env: Env, bs: seq<Bundle>): (r: Outcome<Bundle>)
    requires AllSized(bs)
    ensures r.Value? ==> ValidBundle(env, r.value)
  {
    if !Accepts(bs) then Error
    else
      match Merge(bs)
      case Error => Error
      case Panic => Panic
      case Value((data, _)) =>
        var b := Rebuilt(bs[0], data);
        if ValidBundle(env, b) then Value(b) else Error
  }

  /* ---- the program ---- */

  lemma SwapIsPermutation(s: seq<Bundle>, i: nat, j: nat)
    requires i < j < |s|
    ensures multiset(s[i := s[j]][j := s[i]]) == multiset(s)
  {
  }

  method SwapFragments(bs: array<Bundle>, i: nat, j: nat)
    requires i < j < bs.Length
    modifies bs
    ensures bs[..] == old(bs[..])[i := old(bs[j])][j := old(bs[i])]
    ensures multiset(bs[..]) == multiset(old(bs[..]))
  {
    SwapIsPermutation(bs[..], i, j);
    bs[i], bs[j] := bs[j], bs[i];
    assert bs[..] == old(bs[..])[i := old(bs[j])][j := old(bs[i])];
  }

  /** sort.Slice by fragment offset, in place, with the insertion sort it uses on short slices. */
  method SortFragments(bs: array<Bundle>)
    modifies bs
    ensures SortedByOffset(bs[..]) && multiset(bs[..]) == multiset(old(bs[..]))
  {
    var i := 0;
    while i < bs.Length
      invariant 0 <= i <= bs.Length
      invariant forall a, b :: 0 <= a < b < i ==> Offset(bs[a]) <= Offset(bs[b])
      invariant multiset(bs[..]) == multiset(old(bs[..]))
    {
      var j := i;
      while j > 0 && Offset(bs[j]) < Offset(bs[j - 1])
        invariant 0 <= j <= i < bs.Length
        invariant multiset(bs[..]) == multiset(old(bs[..]))
        invariant forall a, b :: 0 <= a < b <= i && b != j ==> Offset(bs[a]) <= Offset(bs[b])
      {
        SwapFragments(bs, j - 1, j);
        j := j - 1;
      }
      i := i + 1;
    }
  }

  lemma SizedPermute(a: seq<Bundle>, b: seq<Bundle>)
    requires AllSized(a) && multiset(a) == multiset(b)
    ensures AllSized(b) && |a| == |b|
  {
    assert |multiset(a)| == |a| && |multiset(b)| == |b|;
    forall i | 0 <= i < |b| ensures Sized(b[i]) {
      assert b[i] in multiset(a);
    }
  }

  /** prepareReassembly: the caller's slice stays sorted. */
  method PrepareReassembly(bs: array<Bundle>) returns (ok: bool)
    requires AllSized(bs[..])
    modifies bs
    ensures SortedByOffset(bs[..]) && multiset(bs[..]) == multiset(old(bs[..])) && AllSized(bs[..])
    ensures ok <==> Accepts(bs[..])
  {
    hide Sized, End, HasType;
    if bs.Length == 0 {
      return false;
    }
    SortFragments(bs);
    SizedPermute(old(bs[..]), bs[..]);
    var lastIndex: u64 := 0;
    var i := 0;
    while i < bs.Length
      invariant 0 <= i <= bs.Length
      invariant ChainEnd(bs[..i]) == Ok(lastIndex)
    {
      assert bs[..i + 1][..i] == bs[..i];
      var b := bs[i];
      if !IsFragment(b.primary) || Offset(b) > lastIndex || !HasType(b.blocks, PAYLOAD_TYPE) {
        BrokenChain(bs[..], i);
        return false;
      }
      lastIndex := End(b);
      i := i + 1;
    }
    assert bs[..i] == bs[..];
    ok := bs[0].primary.totalDataLength == lastIndex;
  }

  lemma {:induction false} BrokenChain(bs: seq<Bundle>, i: nat)
    requires AllSized(bs) && i < |bs| && ChainEnd(bs[..i + 1]).Err?
    ensures ChainEnd(bs).Err?
    decreases |bs|
  {
    if i + 1 < |bs| {
      assert bs[..|bs| - 1][..i + 1] == bs[..i + 1];
      BrokenChain(bs[..|bs| - 1], i);
    } else {
      assert bs[..i + 1] == bs;
    }
  }

  /** IsBundleReassemblable. */
  method IsBundleReassemblable(bs: array<Bundle>) returns (ok: bool)
    requires AllSized(bs[..])
    modifies bs
    ensures SortedByOffset(bs[..]) && multiset(bs[..]) == multiset(old(bs[..])) && AllSized(bs[..])
    ensures ok <==> Accepts(bs[..])
  {
    ok := PrepareReassembly(bs);
  }

  /** mergeFragmentPayload. */
  method MergeFragmentPayload(bs: seq<Bundle>) returns (r: Outcome<seq<byte>>)
    requires AllSized(bs)
    ensures r == match Merge(bs) case Value(v) => Value(v.0) case Error => Error case Panic => Panic
    ensures r.Value? ==> forall i :: 0 <= i < |bs| ==> HasType(bs[i].blocks, PAYLOAD_TYPE)
  {
    hide Sized, HasType, ToInt;
    var data: seq<byte> := [];
    var lastIndex := 0;
    var i := 0;
    while i < |bs|
      invariant 0 <= i <= |bs|
      invariant Merge(bs[..i]) == Value((data, lastIndex))
    {
      assert bs[..i + 1][..i] == bs[..i];
      var b := bs[i];
      if !HasType(b.blocks, PAYLOAD_TYPE) {
        MergeStops(bs, i);
        return Error;
      }
      var fragStart := ToInt(Offset(b));
      var fragData := PayloadData(b);
      var low := ToInt(lastIndex - fragStart);
      if !(0 <= low <= |fragData|) {
        MergeStops(bs, i);
        return Panic;
      }
      data := data + fragData[low..];
      lastIndex := ToInt(fragStart + |fragData|);
      i := i + 1;
    }
    assert bs[..i] == bs;
    r := Value(data);
  }

  lemma {:induction false} MergeStops(bs: seq<Bundle>, i: nat)
    requires AllSized(bs) && i < |bs| && !Merge(bs[..i + 1]).Value?
    ensures Merge(bs) == Merge(bs[..i + 1])
    decreases |bs|
  {
    if i + 1 < |bs| {
      assert bs[..|bs| - 1][..i + 1] == bs[..i + 1];
      MergeStops(bs[..|bs| - 1], i);
    } else {
      assert bs[..i + 1] == bs;
    }
  }

  lemma SizedHasFewBlocks(b: Bundle)
    requires Sized(b)
    ensures |b.blocks| + 3 <= MAX_LEN
  {
  }

  /** ReassembleFragments. */
  method ReassembleFragments(env: Env, bs: array<Bundle>) returns (r: Outcome<Bundle>)
    requires AllSized(bs[..])
    modifies bs
    ensures SortedByOffset(bs[..]) && multiset(bs[..]) == multiset(old(bs[..])) && AllSized(bs[..])
    ensures r == Reassemble(env, bs[..])
    ensures r.Value? ==> ValidBundle(env, r.value)
  {
    hide Sized, HasType, Renumber, Select, Added;
    var ok := PrepareReassembly(bs);
    if !ok {
      return Error;
    }
    var first := bs[0];
    var b := new BundleRef(ClearedPrimary(first.primary), []);
    assert |multiset(b.blocks)| == 0;
    SizedHasFewBlocks(first);
    CollectExtensionBlocks(first, 0, b);
    var payload := MergeFragmentPayload(bs[..]);
    match payload
    case Error => return Error;
    case Panic => return Panic;
    case Value(data) =>
      var pb0 := PayloadBlock(first);
      var cb := CanonicalBlock(1, pb0.flags, pb0.crcType, Payload(data));
      RenumberedIsSorted(Select(first.blocks, true));
      AddPayloadCloses(Select(first.blocks, true), cb);
      b.AddExtensionBlock(cb);
      r := if ValidBundle(env, b.Value()) then Value(b.Value()) else Error;
  }
}
