/** The bundle as the program's methods change and stream it, each method against the functions
    of the codec and of the block list. */
module BundleObject {
  import opened Bytes
  import opened Cbor
  import opened Endpoint
  import opened Blocks
  import opened Primary
  import opened BundleCodec
  import opened BlockList
  import opened Streams

  /* ---- marshalling ---- */

  function UInts(fields: seq<u64>): seq<byte> {
    if fields == [] then [] else UInts(fields[..|fields| - 1]) + Head(UINT, fields[|fields| - 1])
  }

  method WriteUInts(fields: seq<u64>, m: MultiWriter)
    requires m.Valid()
    modifies m.w, m.buffer
    ensures m.Valid() && m.buffer.out == old(m.buffer.out) + UInts(fields)
  {
    var i := 0;
    while i < |fields|
      invariant 0 <= i <= |fields|
      invariant m.Valid() && m.buffer.out == old(m.buffer.out) + UInts(fields[..i])
    {
      m.Write(Head(UINT, fields[i]));
      assert fields[..i + 1][..i] == fields[..i];
      Assoc(old(m.buffer.out), UInts(fields[..i]), Head(UINT, fields[i]));
      i := i + 1;
    }
    assert fields[..i] == fields;
  }

  lemma TwoUInts(a: u64, b: u64, tail: seq<byte>)
    ensures UInts([a, b]) + tail == PutUInt(a, PutUInt(b, tail))
  {
    var x, y := Head(UINT, a), Head(UINT, b);
    assert [a, b][..1] == [a] && [a][..0] == [];
    assert UInts([a]) == x;
    assert UInts([a, b]) == x + y;
    Assoc(x, y, tail);
  }

  lemma ThreeUInts(a: u64, b: u64, c: u64, tail: seq<byte>)
    ensures UInts([a, b, c]) + tail == PutUInt(a, PutUInt(b, PutUInt(c, tail)))
  {
    var z := Head(UINT, c);
    assert [a, b, c][..2] == [a, b];
    Assoc(UInts([a, b]), z, tail);
    TwoUInts(a, b, z + tail);
  }

  lemma FourUInts(a: u64, b: u64, c: u64, d: u64, tail: seq<byte>)
    ensures UInts([a, b, c, d]) + tail == PutUInt(a, PutUInt(b, PutUInt(c, PutUInt(d, tail))))
  {
    var z := Head(UINT, d);
    assert [a, b, c, d][..3] == [a, b, c];
    Assoc(UInts([a, b, c]), z, tail);
    ThreeUInts(a, b, c, z + tail);
  }

  lemma BodyInParts(cb: CanonicalBlock, head: seq<byte>)
    requires WritableValue(cb.value) && head == Head(ARRAY, if cb.crcType == CRC_NO then 5 else 6)
    ensures var fields := UInts([TypeCode(cb.value), cb.number, cb.flags, cb.crcType]);
            WritableBlock(cb) ==> head + fields + ByteString(ValueBytes(cb.value)) == BlockBody(cb)
  {
    hide WritableValue, ValueBytes, UInts;
    var fields := UInts([TypeCode(cb.value), cb.number, cb.flags, cb.crcType]);
    var value := ByteString(ValueBytes(cb.value));
    FourUInts(TypeCode(cb.value), cb.number, cb.flags, cb.crcType, value);
    Assoc(head, fields, value);
  }

  /** CanonicalBlock.MarshalCbor: everything but the checksum also goes into the checksum buffer.
      After an error the writer has whatever was written before it. */
  method MarshalBlock(env: Env, cb: CanonicalBlock, w: Writer) returns (ok: bool)
    modifies w
    ensures ok == WritableBlock(cb)
    ensures ok ==> w.out == old(w.out) + BlockBytes(env, cb)
    ensures old(w.out) <= w.out
  {
    hide WritableValue, ValueBytes, UInts, BlockBody, TypeCode, Head, ByteString;
    var m := new MultiWriter(w);
    var head := Head(ARRAY, if cb.crcType == CRC_NO then 5 else 6);
    m.Write(head);
    WriteUInts([TypeCode(cb.value), cb.number, cb.flags, cb.crcType], m);
    if !WritableValue(cb.value) {
      return false;
    }
    m.Write(ByteString(ValueBytes(cb.value)));
    BodyInParts(cb, head);
    assert [] + head == head;
    var crcField := [];
    if cb.crcType != CRC_NO {
      var crc := Checksum(env, cb.crcType, m.buffer.out);
      if crc.Err? {
        return false;
      }
      crcField := ByteString(crc.value);
    }
    w.Write(crcField);
    Assoc(old(w.out), BlockBody(cb), crcField);
    ok := true;
  }

  predicate WritableEndpoints(p: PrimaryBlock) {
    && Valid(p.destination) && Fits(p.destination)
    && Valid(p.source) && Fits(p.source)
    && Valid(p.reportTo) && Fits(p.reportTo)
  }

  lemma ValidHasType(e: EndpointID)
    requires Valid(e)
    ensures !e.NoType?
  {
  }

  /** What is still to be written in front of the tail, after none, one, two and all endpoints. */
  function StillToCome(p: PrimaryBlock, tail: seq<byte>): (rest: seq<seq<byte>>)
    requires WritablePrimary(p)
    ensures |rest| == 4 && rest[0] == PutEndpoints(p, tail) && rest[3] == tail
  {
    var two := EndpointBytes(p.reportTo) + tail;
    var one := EndpointBytes(p.source) + two;
    [EndpointBytes(p.destination) + one, one, two, tail]
  }

  /** The endpoints of a primary block, written in a loop in front of what is still to come, up to
      the first that is not valid. */
  method WriteEndpoints(p: PrimaryBlock, m: MultiWriter, ghost tail: seq<byte>) returns (ok: bool)
    requires m.Valid()
    modifies m.w, m.buffer
    ensures m.Valid() && ok == WritableEndpoints(p)
    ensures WritablePrimary(p) ==> m.buffer.out + tail == old(m.buffer.out) + PutEndpoints(p, tail)
  {
    hide Valid, Fits, EndpointBytes;
    var eids := [p.destination, p.source, p.reportTo];
    ghost var rest := if WritablePrimary(p) then StillToCome(p, tail) else [[], [], [], []];
    var i := 0;
    while i < |eids|
      invariant 0 <= i <= 3 && m.Valid()
      invariant forall k :: 0 <= k < i ==> Valid(eids[k]) && Fits(eids[k])
      invariant WritablePrimary(p) ==> m.buffer.out + rest[i] == old(m.buffer.out) + PutEndpoints(p, tail)
    {
      if !Valid(eids[i]) || !Fits(eids[i]) {
        return false;
      }
      ValidHasType(eids[i]);
      Assoc(m.buffer.out, EndpointBytes(eids[i]), rest[i + 1]);
      m.Write(EndpointBytes(eids[i]));
      i := i + 1;
    }
    assert Valid(eids[0]) && Valid(eids[1]) && Valid(eids[2]);
    ok := true;
  }

  /** The creation timestamp, the lifetime and the fragment fields. */
  method WriteTimes(p: PrimaryBlock, m: MultiWriter)
    requires m.Valid()
    modifies m.w, m.buffer
    ensures m.Valid() && m.buffer.out == old(m.buffer.out) + PutTimes(p, [])
  {
    m.Write(Head(ARRAY, 2));
    WriteUInts([p.time, p.sequenceNumber, p.lifetime], m);
    ghost var frag := [];
    if IsFragment(p) {
      WriteUInts([p.fragmentOffset, p.totalDataLength], m);
      frag := UInts([p.fragmentOffset, p.totalDataLength]);
      TwoUInts(p.fragmentOffset, p.totalDataLength, []);
      assert frag == PutFragment(p, []);
    }
    ghost var times := UInts([p.time, p.sequenceNumber, p.lifetime]);
    ThreeUInts(p.time, p.sequenceNumber, p.lifetime, frag);
    Assoc(old(m.buffer.out) + Head(ARRAY, 2), times, frag);
    Assoc(old(m.buffer.out), Head(ARRAY, 2), times + frag);
  }

  lemma UnknownChecksum(p: PrimaryBlock)
    ensures WritablePrimary(p) <==> p.crcType <= CRC_32 && WritableEndpoints(p)
  {
    hide Valid, Fits;
  }

  lemma WholePrimary(env: Env, p: PrimaryBlock)
    requires WritablePrimary(p)
    ensures PrimaryBytes(env, p) == PutBody(p, []) + CrcField(env, p.crcType, PutBody(p, []))
  {
  }

  lemma HeadInParts(p: PrimaryBlock, tail: seq<byte>)
    ensures Head(ARRAY, ArrayLen(p)) + UInts([DTN_VERSION, p.flags, p.crcType]) + tail == PutHead(p, tail)
  {
    hide Head, UInts;
    ThreeUInts(DTN_VERSION, p.flags, p.crcType, tail);
    Assoc(Head(ARRAY, ArrayLen(p)), UInts([DTN_VERSION, p.flags, p.crcType]), tail);
  }

  /** PrimaryBlock.MarshalCbor, the same way. */
  method MarshalPrimary(env: Env, p: PrimaryBlock, w: Writer) returns (ok: bool)
    modifies w
    ensures ok == WritablePrimary(p)
    ensures ok ==> w.out == old(w.out) + PrimaryBytes(env, p)
    ensures old(w.out) <= w.out
  {
    hide WritablePrimary, WritableEndpoints, PutHead, PutEndpoints, PutTimes, Head, UInts, ByteString, PrimaryBytes;
    UnknownChecksum(p);
    var m := new MultiWriter(w);
    ghost var times := PutTimes(p, []);
    ghost var tail := if WritablePrimary(p) then PutEndpoints(p, times) else [];
    m.Write(Head(ARRAY, ArrayLen(p)));
    WriteUInts([DTN_VERSION, p.flags, p.crcType], m);
    HeadInParts(p, tail);
    assert [] + Head(ARRAY, ArrayLen(p)) == Head(ARRAY, ArrayLen(p));
    ok := WriteEndpoints(p, m, times);
    if !ok {
      return;
    }
    WriteTimes(p, m);
    ghost var body := m.buffer.out;
    assert WritablePrimary(p) ==> body == PutBody(p, []);
    var crcField := [];
    if p.crcType != CRC_NO {
      var crc := Checksum(env, p.crcType, m.buffer.out);
      if crc.Err? {
        return false;
      }
      crcField := ByteString(crc.value);
    }
    w.Write(crcField);
    WholePrimary(env, p);
    Assoc(old(w.out), body, crcField);
  }

  /* ---- unmarshalling ---- */

  method UnmarshalBlockFields(env: Env, r: Reader) returns (p: Parse<CanonicalBlock>)
    modifies r
    ensures p == ReadBlockFields(env, old(r.data))
    ensures p.Done? ==> r.data == p.rest
    ensures p.Broke? ==> r.data == p.after
  {
    var code :- r.Pull(ReadUInt);
    var number :- r.Pull(ReadUInt);
    var flags :- r.Pull(ReadUInt);
    var crcType :- r.Pull(ReadUInt);
    var data := r.Pull(ReadByteString);
    if !data.Done? {
      return Failed;
    }
    match ReadValue(env, code.0, data.value)
    case Err => p := Failed;
    case Ok(value) => p := Done(CanonicalBlock(number.0, flags.0, crcType.0, value), r.data);
  }

  method VerifyCrc(env: Env, crcType: u64, crcBuff: seq<byte>, r: Reader) returns (p: Parse<seq<byte>>)
    modifies r
    ensures p == ReadCrc(env, crcType, crcBuff, old(r.data))
    ensures p.Done? ==> r.data == p.rest
    ensures p.Broke? ==> r.data == p.after
  {
    var crc := Checksum(env, crcType, crcBuff);
    if crc.Err? {
      return Failed;
    }
    var found :- r.Pull(ReadByteString);
    p := if found.0 == crc.value then Done(found.0, found.1) else Failed;
  }

  method UnmarshalBlockTail(env: Env, arrayLen: u64, cb: CanonicalBlock, seen: seq<byte>, r: Reader)
    returns (p: Parse<CanonicalBlock>)
    modifies r
    ensures p == ReadBlockTail(env, arrayLen, cb, seen, old(r.data))
    ensures p.Done? ==> r.data == p.rest
    ensures p.Broke? ==> r.data == p.after
  {
    if arrayLen == 6 {
      var crc :- VerifyCrc(env, cb.crcType, Head(ARRAY, 6) + seen, r);
    }
    p := Done(cb, r.data);
  }

  /** CanonicalBlock.UnmarshalCbor: the octets read since the array head, behind a replayed head,
      are the checksum buffer. */
  method UnmarshalBlock(env: Env, r: Reader) returns (p: Parse<CanonicalBlock>)
    modifies r
    ensures p == ReadBlock(env, old(r.data))
    ensures p.Done? ==> r.data == p.rest
    ensures p.Broke? ==> r.data == p.after
  {
    hide ReadArrayLength, ReadBlockFields, ReadBlockTail;
    var arrayLen :- r.Pull(ReadArrayLength);
    if arrayLen.0 != 5 && arrayLen.0 != 6 {
      return Failed;
    }
    var start := r.data;
    var cb := UnmarshalBlockFields(env, r);
    if !cb.Done? {
      return cb;
    }
    p := UnmarshalBlockTail(env, arrayLen.0, cb.value, start[..|start| - |r.data|], r);
  }

  method UnmarshalFields(r: Reader) returns (p: Parse<(u64, PrimaryBlock)>)
    modifies r
    ensures p == ReadFields(old(r.data))
    ensures p.Done? ==> r.data == p.rest
    ensures p.Broke? ==> r.data == p.after
  {
    var h :- r.Pull(ReadHeadFields);
    var e :- r.Pull(ReadEndpoints);
    var t :- r.Pull(s => ReadTimes(h.0.arrayLen, s));
    p := Done((h.0.arrayLen, Assemble(h.0, e.0, t.0)), r.data);
  }

  method UnmarshalTail(env: Env, fields: (u64, PrimaryBlock), crcBuff: seq<byte>, r: Reader)
    returns (p: Parse<PrimaryBlock>)
    modifies r
    ensures p == ReadTail(env, fields, crcBuff, old(r.data))
    ensures p.Done? ==> r.data == p.rest
    ensures p.Broke? ==> r.data == p.after
  {
    if fields.0 == 9 || fields.0 == 11 {
      var crc :- VerifyCrc(env, fields.1.crcType, crcBuff, r);
    }
    p := Done(fields.1, r.data);
  }

  /** PrimaryBlock.UnmarshalCbor: every octet read is also in the checksum buffer. */
  method UnmarshalPrimary(env: Env, r: Reader) returns (p: Parse<PrimaryBlock>)
    modifies r
    ensures p == ReadPrimary(env, old(r.data))
    ensures p.Done? ==> r.data == p.rest
    ensures p.Broke? ==> r.data == p.after
  {
    hide ReadFields, ReadTail;
    var start := r.data;
    var fields := UnmarshalFields(r);
    if !fields.Done? {
      return fields.PropagateFailure();
    }
    p := UnmarshalTail(env, fields.value, start[..|start| - |r.data|], r);
  }

  /* ---- the bundle ---- */

  lemma BlocksFrom(env: Env, blocks: seq<CanonicalBlock>, i: nat, before: seq<byte>)
    requires WritableBlocks(blocks) && i < |blocks|
    ensures before + BlocksBytes(env, blocks[i..])
         == before + BlockBytes(env, blocks[i]) + BlocksBytes(env, blocks[i + 1..])
  {
    hide BlockBytes, WritableBlock;
    assert blocks[i..][0] == blocks[i] && blocks[i..][1..] == blocks[i + 1..];
    Assoc(before, BlockBytes(env, blocks[i]), BlocksBytes(env, blocks[i + 1..]));
  }

  /** The loop of Bundle.MarshalCbor. */
  method MarshalBlocks(env: Env, blocks: seq<CanonicalBlock>, w: Writer) returns (ok: bool)
    modifies w
    ensures ok == WritableBlocks(blocks)
    ensures ok ==> w.out == old(w.out) + BlocksBytes(env, blocks)
    ensures old(w.out) <= w.out
  {
    hide BlockBytes, WritableBlock;
    assert blocks[0..] == blocks;
    var i := 0;
    while i < |blocks|
      invariant 0 <= i <= |blocks|
      invariant old(w.out) <= w.out && WritableBlocks(blocks[..i])
      invariant WritableBlocks(blocks) ==>
        w.out + BlocksBytes(env, blocks[i..]) == old(w.out) + BlocksBytes(env, blocks)
    {
      if WritableBlocks(blocks) {
        BlocksFrom(env, blocks, i, w.out);
      }
      ok := MarshalBlock(env, blocks[i], w);
      if !ok {
        return;
      }
      i := i + 1;
    }
    assert blocks[..i] == blocks && blocks[i..] == [];
    ok := true;
  }

  lemma NumbersOf(blocks: seq<CanonicalBlock>, blockNumbers: seq<u64>)
    requires |blockNumbers| == |blocks| && forall j :: 0 <= j < |blocks| ==> blockNumbers[j] == blocks[j].number
    ensures forall n: u64 :: n in blockNumbers <==> n in Numbers(blocks)
  {
  }

  /** The search of AddExtensionBlock: count up until the inner loop finds the number nowhere. */
  method FindFreeNumber(blockNumbers: seq<u64>, start: u64, ghost taken: set<nat>) returns (n: u64)
    requires forall n: u64 :: n in blockNumbers <==> n in taken
    requires LeastFree(taken, start) < TWO64
    ensures n == LeastFree(taken, start)
  {
    n := start;
    var flag := false;
    while !flag
      invariant start <= n <= LeastFree(taken, start)
      invariant flag ==> n == LeastFree(taken, start)
      decreases LeastFree(taken, start) - n, !flag
    {
      flag := true;
      var k := 0;
      while k < |blockNumbers| && flag
        invariant 0 <= k <= |blockNumbers|
        invariant flag ==> forall j :: 0 <= j < k ==> blockNumbers[j] != n
        invariant !flag ==> n in blockNumbers
      {
        if n == blockNumbers[k] {
          flag := false;
        }
        k := k + 1;
      }
      if flag {
        LeastFreeIs(taken, start, n);
      } else {
        n := n + 1;
      }
    }
  }

  class BundleRef {
    var primary: PrimaryBlock
    var blocks: seq<CanonicalBlock>

    /** MustNewBundle. */
    constructor (primary: PrimaryBlock, blocks: seq<CanonicalBlock>)
      ensures this.primary == primary
      ensures Sorted(this.blocks) && multiset(this.blocks) == multiset(blocks)
    {
      this.primary, this.blocks := primary, blocks;
      new;
      SortBlocks();
    }

    function Value(): Bundle
      reads this
    {
      Bundle(primary, blocks)
    }

    method Swap(i: nat, j: nat)
      requires i < |blocks| && j < |blocks|
      modifies this`blocks
      ensures blocks == old(blocks)[i := old(blocks)[j]][j := old(blocks)[i]]
      ensures multiset(blocks) == multiset(old(blocks))
    {
      blocks := blocks[i := blocks[j]][j := blocks[i]];
    }

    /** sortBlocks, with the insertion sort sort.Sort uses on short slices. */
    method SortBlocks()
      modifies this`blocks
      ensures Sorted(blocks) && multiset(blocks) == multiset(old(blocks))
    {
      var i := 0;
      while i < |blocks|
        invariant 0 <= i <= |blocks| == |old(blocks)|
        invariant Sorted(blocks[..i])
        invariant multiset(blocks) == multiset(old(blocks))
      {
        var j := i;
        while j > 0 && Less(blocks[j], blocks[j - 1])
          invariant 0 <= j <= i < |blocks| == |old(blocks)|
          invariant multiset(blocks) == multiset(old(blocks))
          invariant forall a, b :: 0 <= a < b <= i && b != j ==> !Less(blocks[b], blocks[a])
        {
          Swap(j - 1, j);
          j := j - 1;
        }
        i := i + 1;
      }
      assert blocks[..i] == blocks;
    }

    /** AddExtensionBlock: the block gets the least free number; on a list in order that is the
        one place the number belongs. */
    method AddExtensionBlock(block: CanonicalBlock)
      requires |blocks| <= MAX_LEN
      modifies this`blocks
      ensures Sorted(blocks)
      ensures multiset(blocks)
           == multiset(old(blocks) + [block.(number := NewNumber(old(blocks), block.value))])
      ensures Sorted(old(blocks)) && DistinctNumbers(old(blocks)) ==> blocks == Added(old(blocks), block)
    {
      var blockNumbers: seq<u64> := [];
      var i := 0;
      while i < |blocks|
        invariant 0 <= i <= |blocks| && |blockNumbers| == i
        invariant forall j :: 0 <= j < i ==> blockNumbers[j] == blocks[j].number
      {
        blockNumbers := blockNumbers + [blocks[i].number];
        i := i + 1;
      }
      NumbersOf(blocks, blockNumbers);
      var n := FindFreeNumber(blockNumbers, if TypeCode(block.value) != PAYLOAD_TYPE then 2 else 1, Numbers(blocks));
      NewNumberIsFree(blocks, block.value);
      ghost var before := blocks;
      var added := block.(number := n);
      blocks := blocks + [added];
      SortBlocks();
      if Sorted(before) && DistinctNumbers(before) {
        SortAfterAppend(before, added, blocks);
      }
    }

    /** RemoveExtensionBlockByBlockNumber. */
    method RemoveExtensionBlockByBlockNumber(blockNumber: u64)
      modifies this`blocks
      ensures blocks == Removed(old(blocks), blockNumber)
    {
      var i := 0;
      while i < |blocks|
        invariant 0 <= i <= |blocks| && blocks == old(blocks)
        invariant i <= FindNumber(blocks, blockNumber)
      {
        if blocks[i].number == blockNumber {
          blocks := blocks[..i] + blocks[i + 1..];
          return;
        }
        i := i + 1;
      }
    }

    /** MarshalCbor: after an error the writer has whatever was written before it. */
    method MarshalCbor(env: Env, w: Writer) returns (ok: bool)
      modifies w
      ensures ok == Writable(Value())
      ensures ok ==> w.out == old(w.out) + BundleBytes(env, Value())
      ensures old(w.out) <= w.out
    {
      hide PrimaryBytes, BlocksBytes, WritablePrimary, WritableBlocks;
      w.Write([INDEFINITE_ARRAY]);
      ok := MarshalPrimary(env, primary, w);
      if !ok {
        return;
      }
      ok := MarshalBlocks(env, blocks, w);
      if !ok {
        return;
      }
      w.Write([BREAK_CODE]);
      ghost var front, all, end := PrimaryBytes(env, primary), BlocksBytes(env, blocks), [BREAK_CODE];
      Assoc(old(w.out) + [INDEFINITE_ARRAY] + front, all, end);
      Assoc(old(w.out) + [INDEFINITE_ARRAY], front, all + end);
      Assoc(old(w.out), [INDEFINITE_ARRAY], front + (all + end));
    }
  }

  /** The loop of UnmarshalCbor: blocks are read until a block's own fields report the break code. */
  method UnmarshalBlocks(env: Env, r: Reader) returns (p: Parse<seq<CanonicalBlock>>)
    modifies r
    ensures p == ReadBlocks(env, old(r.data))
    ensures p.Done? ==> r.data == p.rest
  {
    var blocks: seq<CanonicalBlock> := [];
    ghost var r0 := r.data;
    var cb := UnmarshalBlock(env, r);
    ResumeStart(env, r0);
    while cb.Done?
      invariant cb.Done? ==> r.data == cb.rest
      invariant cb.Broke? ==> r.data == cb.after
      invariant ReadBlocks(env, r0) == Resume(env, blocks, cb)
      decreases if cb.Done? then |r.data| + 1 else 0
    {
      ResumeStep(env, blocks, cb);
      blocks := blocks + [cb.value];
      cb := UnmarshalBlock(env, r);
    }
    p := if cb.Broke? then Done(blocks, r.data) else Failed;
  }

  lemma ResumeStart(env: Env, s: seq<byte>)
    ensures ReadBlocks(env, s) == Resume(env, [], ReadBlock(env, s))
  {
    var first := ReadBlock(env, s);
    if first.Done? {
      var tail := ReadBlocks(env, first.rest);
      if tail.Done? {
        assert [] + [first.value] + tail.value == [first.value] + tail.value;
      }
    }
  }

  method UnmarshalSyntax(env: Env, r: Reader) returns (p: Parse<Bundle>)
    modifies r
    ensures p == ReadSyntax(env, old(r.data))
    ensures p.Done? ==> r.data == p.rest
  {
    var marker :- r.Pull(s => ReadMarker(INDEFINITE_ARRAY, s));
    var primary := UnmarshalPrimary(env, r);
    if !primary.Done? {
      return Failed;
    }
    var blocks :- UnmarshalBlocks(env, r);
    p := Done(Bundle(primary.value, blocks.0), r.data);
  }

  /** Bundle.UnmarshalCbor. */
  method UnmarshalBundle(env: Env, r: Reader) returns (p: Parse<Bundle>)
    modifies r
    ensures p == ReadBundle(env, old(r.data))
    ensures p.Done? ==> r.data == p.rest
  {
    var b :- UnmarshalSyntax(env, r);
    p := if ValidBundle(env, b.0) then Done(b.0, r.data) else Failed;
  }

  /** What the rest of the loop gives when the blocks read so far and the last outcome are known. */
  ghost function Resume(env: Env, blocks: seq<CanonicalBlock>, last: Parse<CanonicalBlock>):
    Parse<seq<CanonicalBlock>>
  {
    match last
    case Failed => Failed
    case Broke(after) => Done(blocks, after)
    case Done(cb, rest) =>
      match ReadBlocks(env, rest)
      case Done(more, rest') => Done(blocks + [cb] + more, rest')
      case Broke(after) => Broke(after)
      case Failed => Failed
  }

  lemma ResumeStep(env: Env, blocks: seq<CanonicalBlock>, last: Parse<CanonicalBlock>)
    requires last.Done?
    ensures Resume(env, blocks, last) == Resume(env, blocks + [last.value], ReadBlock(env, last.rest))
  {
    var next := ReadBlock(env, last.rest);
    if next.Done? {
      var tail := ReadBlocks(env, next.rest);
      if tail.Done? {
        assert blocks + [last.value] + ([next.value] + tail.value) == blocks + [last.value] + [next.value] + tail.value;
      }
    } else if next.Broke? {
      assert blocks + [last.value] + [] == blocks + [last.value];
    }
  }
}
