/** How many octets blocks and bundles take, and why 2, 3, 4, ... are the cheapest block numbers. */
module Sizes {
  import opened Bytes
  import opened Cbor
  import opened Endpoint
  import opened Blocks
  import opened Primary
  import opened BundleCodec
  import opened BlockList

  function CrcFieldLen(crcType: u64): nat {
    if crcType == CRC_NO then 0 else 1 + CrcLen(crcType)
  }

  /** The length of a block with a given payload of n octets inside its byte string. */
  function FrameLen(code: u64, number: u64, flags: u64, crcType: u64, n: u64): nat {
    1 + HeadLen(code) + HeadLen(number) + HeadLen(flags) + HeadLen(crcType) + HeadLen(n) + n + CrcFieldLen(crcType)
  }

  function BlockLen(cb: CanonicalBlock): nat
    requires WritableValue(cb.value)
  {
    FrameLen(TypeCode(cb.value), cb.number, cb.flags, cb.crcType, |ValueBytes(cb.value)|)
  }

  lemma BlockBytesLen(env: Env, cb: CanonicalBlock)
    requires WritableBlock(cb)
    ensures |BlockBytes(env, cb)| == BlockLen(cb)
  {
  }

  predicate WritableValues(blocks: seq<CanonicalBlock>) {
    forall i :: 0 <= i < |blocks| ==> WritableValue(blocks[i].value)
  }

  function BlocksLen(blocks: seq<CanonicalBlock>): nat
    requires WritableValues(blocks)
  {
    if blocks == [] then 0 else BlockLen(blocks[0]) + BlocksLen(blocks[1..])
  }

  lemma {:induction false} BlocksBytesLen(env: Env, blocks: seq<CanonicalBlock>)
    requires WritableBlocks(blocks)
    ensures |BlocksBytes(env, blocks)| == BlocksLen(blocks)
  {
    if blocks != [] {
      BlockBytesLen(env, blocks[0]);
      BlocksBytesLen(env, blocks[1..]);
    }
  }

  lemma {:induction false} BlocksLenAppend(a: seq<CanonicalBlock>, b: seq<CanonicalBlock>)
    requires WritableValues(a) && WritableValues(b)
    ensures WritableValues(a + b) && BlocksLen(a + b) == BlocksLen(a) + BlocksLen(b)
  {
    hide BlockLen, WritableValue;
    if a == [] {
      assert a + b == b;
    } else {
      BlocksLenAppend(a[1..], b);
      assert (a + b)[1..] == a[1..] + b;
    }
  }

  function EndpointLen(e: EndpointID): nat
    requires !e.NoType? && Fits(e)
  {
    |EndpointBytes(e)|
  }

  function PrimaryLen(p: PrimaryBlock): nat
    requires WritablePrimary(p)
  {
    3 + HeadLen(p.flags) + HeadLen(p.crcType)
    + EndpointLen(p.destination) + EndpointLen(p.source) + EndpointLen(p.reportTo)
    + HeadLen(p.time) + HeadLen(p.sequenceNumber) + HeadLen(p.lifetime)
    + (if IsFragment(p) then HeadLen(p.fragmentOffset) + HeadLen(p.totalDataLength) else 0)
    + CrcFieldLen(p.crcType)
  }

  lemma PrimaryBytesLen(env: Env, p: PrimaryBlock)
    requires WritablePrimary(p)
    ensures |PrimaryBytes(env, p)| == PrimaryLen(p)
  {
    var times := PutTimes(p, []);
    assert |times| == 1 + HeadLen(p.time) + HeadLen(p.sequenceNumber) + HeadLen(p.lifetime)
                      + (if IsFragment(p) then HeadLen(p.fragmentOffset) + HeadLen(p.totalDataLength) else 0);
    var eids := PutEndpoints(p, times);
    assert |eids| == EndpointLen(p.destination) + EndpointLen(p.source) + EndpointLen(p.reportTo) + |times|;
  }

  lemma BundleBytesLen(env: Env, b: Bundle)
    requires Writable(b)
    ensures |BundleBytes(env, b)| == 2 + PrimaryLen(b.primary) + BlocksLen(b.blocks)
  {
    PrimaryBytesLen(env, b.primary);
    BlocksBytesLen(env, b.blocks);
  }

  /* ---- block numbers ---- */

  function NumbersLen(blocks: seq<CanonicalBlock>): nat {
    if blocks == [] then 0 else HeadLen(blocks[0].number) + NumbersLen(blocks[1..])
  }

  /** The heads of n, n + 1, ..., n + k - 1. */
  function RangeLen(n: nat, k: nat): nat
    requires n + k < TWO64
  {
    if k == 0 then 0 else RangeLen(n, k - 1) + HeadLen(n + k - 1)
  }

  lemma {:induction false} NumbersLenAppend(a: seq<CanonicalBlock>, b: seq<CanonicalBlock>)
    ensures NumbersLen(a + b) == NumbersLen(a) + NumbersLen(b)
  {
    hide HeadLen;
    if a == [] {
      assert a + b == b;
    } else {
      NumbersLenAppend(a[1..], b);
      assert (a + b)[1..] == a[1..] + b;
    }
  }

  lemma {:induction false} RenumberedLen(blocks: seq<CanonicalBlock>)
    requires |blocks| + 2 < TWO64
    ensures NumbersLen(Renumber(blocks, 2)) == RangeLen(2, |blocks|)
  {
    hide HeadLen;
    if blocks != [] {
      var k := |blocks| - 1;
      RenumberedLen(blocks[..k]);
      NumbersLenAppend(Renumber(blocks[..k], 2), [blocks[k].(number := 2 + k)]);
      assert [blocks[k].(number := 2 + k)][1..] == [];
    }
  }

  /** The position of a block with the greatest number. */
  function Greatest(blocks: seq<CanonicalBlock>): (m: nat)
    requires blocks != []
    ensures m < |blocks|
    ensures forall i :: 0 <= i < |blocks| ==> blocks[i].number <= blocks[m].number
  {
    if |blocks| == 1 then 0
    else
      var m := Greatest(blocks[..|blocks| - 1]);
      if blocks[|blocks| - 1].number > blocks[m].number then |blocks| - 1 else m
  }

  lemma {:induction false} DistinctCount(blocks: seq<CanonicalBlock>)
    requires DistinctNumbers(blocks)
    ensures |Numbers(blocks)| == |blocks|
  {
    if blocks != [] {
      var front := blocks[..|blocks| - 1];
      DistinctCount(front);
      assert blocks[|blocks| - 1].number !in Numbers(front);
    }
  }

  lemma {:induction false} CountBelow(s: set<nat>, n: nat)
    requires forall x :: x in s ==> 2 <= x < n + 2
    ensures |s| <= n
  {
    if n > 0 {
      CountBelow(s - {n + 1}, n - 1);
    } else {
      assert s == {};
    }
  }

  /** Among k distinct numbers from 2 on the greatest is at least k + 1. */
  lemma GreatestAtLeast(blocks: seq<CanonicalBlock>)
    requires blocks != [] && DistinctNumbers(blocks)
    requires forall i :: 0 <= i < |blocks| ==> blocks[i].number >= 2
    ensures blocks[Greatest(blocks)].number >= |blocks| + 1
  {
    var top := blocks[Greatest(blocks)].number;
    DistinctCount(blocks);
    CountBelow(Numbers(blocks), top - 1);
  }

  function Without(blocks: seq<CanonicalBlock>, m: nat): (r: seq<CanonicalBlock>)
    requires m < |blocks|
    ensures |r| == |blocks| - 1
    ensures forall i :: 0 <= i < |r| ==> r[i] == blocks[if i < m then i else i + 1]
  {
    blocks[..m] + blocks[m + 1..]
  }

  lemma {:induction false} WithoutLen(blocks: seq<CanonicalBlock>, m: nat)
    requires m < |blocks|
    ensures NumbersLen(blocks) == NumbersLen(Without(blocks, m)) + HeadLen(blocks[m].number)
  {
    hide HeadLen;
    if m == 0 {
      assert Without(blocks, 0) == blocks[1..];
    } else {
      WithoutLen(blocks[1..], m - 1);
      assert Without(blocks, m)[0] == blocks[0];
      assert Without(blocks, m)[1..] == Without(blocks[1..], m - 1);
    }
  }

  /** No choice of distinct numbers from 2 on is cheaper than 2, 3, 4, ... */
  lemma {:induction false} RenumberingIsCheapest(blocks: seq<CanonicalBlock>)
    requires |blocks| + 2 < TWO64 && DistinctNumbers(blocks)
    requires forall i :: 0 <= i < |blocks| ==> blocks[i].number >= 2
    ensures RangeLen(2, |blocks|) <= NumbersLen(blocks)
    decreases |blocks|
  {
    if blocks != [] {
      var m := Greatest(blocks);
      WithoutLen(blocks, m);
      GreatestAtLeast(blocks);
      HeadLenMonotone(|blocks| + 1, blocks[m].number);
      RenumberingIsCheapest(Without(blocks, m));
    }
  }
}
