/** The part of CBOR the bundle protocol uses, as the cboring library provides it: heads
    (RFC 8949, section 3), byte and text strings, definite arrays, and the one-octet markers of
    an indefinite array and its break code (RFC 8949, section 3.2). */
module Cbor {
  import opened Bytes

  const INDEFINITE_ARRAY: byte := 0x9F
  const BREAK_CODE: byte := 0xFF

  const UINT := 0
  const BYTE_STRING := 2
  const TEXT_STRING := 3
  const ARRAY := 4

  type major = m: int | 0 <= m < 8

  function Head(m: major, n: u64): (bs: seq<byte>)
    ensures |bs| == HeadLen(n)
    ensures bs[0] / 32 == m && bs[0] % 32 < 28
  {
    if n < 24 then [m * 32 + n]
    else if n < 0x100 then [m * 32 + 24] + PutBE(n, 1)
    else if n < 0x1_0000 then [m * 32 + 25] + PutBE(n, 2)
    else if n < 0x1_0000_0000 then [m * 32 + 26] + PutBE(n, 4)
    else [m * 32 + 27] + PutBE(n, 8)
  }

  function HeadLen(n: u64): nat {
    if n < 24 then 1 else if n < 0x100 then 2 else if n < 0x1_0000 then 3 else if n < 0x1_0000_0000 then 5 else 9
  }

  /** The argument width announced by the low five bits of a head. */
  function ArgWidth(add: nat): nat
    requires 24 <= add < 28
  {
    if add == 24 then 1 else if add == 25 then 2 else if add == 26 then 4 else 8
  }

  function ReadHead(s: seq<byte>): (p: Parse<(major, u64)>)
    ensures p.Done? ==> |p.rest| < |s|
    ensures p.Broke? <==> s != [] && s[0] == BREAK_CODE
    ensures p.Broke? ==> p.after == s[1..]
  {
    if s == [] then Failed
    else if s[0] == BREAK_CODE then Broke(s[1..])
    else if s[0] % 32 < 24 then Done((s[0] / 32, s[0] % 32), s[1..])
    else if s[0] % 32 < 28 then
      var k := ArgWidth(s[0] % 32);
      Pow256Words();
      var (n, rest) :- ReadWord(k, s[1..]);
      Done((s[0] / 32, n), rest)
    else Failed
  }

  function ReadExpected(m: major, s: seq<byte>): (p: Parse<u64>)
    ensures p.Done? ==> |p.rest| < |s|
    ensures p.Broke? <==> s != [] && s[0] == BREAK_CODE
  {
    var (h, rest) :- ReadHead(s);
    if h.0 == m then Done(h.1, rest) else Failed
  }

  function ReadUInt(s: seq<byte>): (p: Parse<u64>)
    ensures p.Done? ==> |p.rest| < |s|
  {
    ReadExpected(UINT, s)
  }

  function ReadArrayLength(s: seq<byte>): (p: Parse<u64>)
    ensures p.Done? ==> |p.rest| < |s|
  {
    ReadExpected(ARRAY, s)
  }

  function ByteString(data: seq<byte>): seq<byte>
    requires |data| < TWO64
  {
    Head(BYTE_STRING, |data|) + data
  }

  function ReadByteString(s: seq<byte>): (p: Parse<seq<byte>>)
    ensures p.Done? ==> |p.rest| < |s| && |p.value| < TWO64
  {
    var (n, rest) :- ReadExpected(BYTE_STRING, s);
    ReadRaw(n, rest)
  }

  lemma WideHeadRead(first: byte, k: nat, n: u64, rest: seq<byte>)
    requires 24 <= first % 32 < 28 && k == ArgWidth(first % 32)
    requires n < Pow256(k)
    ensures ReadHead([first] + PutBE(n, k) + rest) == Done((first / 32, n), rest)
  {
    var bs := PutBE(n, k);
    var s := [first] + bs + rest;
    assert s[1..] == bs + rest;
    ReadWordExact(n, k, rest);
  }

  /** A head reads back as written, whatever follows it. */
  lemma HeadRoundTrip(m: major, n: u64, rest: seq<byte>)
    ensures ReadHead(Head(m, n) + rest) == Done((m, n), rest)
  {
    Pow256Words();
    if n < 24 {
      assert (Head(m, n) + rest)[1..] == rest;
    } else {
      WideHeadRead(Head(m, n)[0], ArgWidth(Head(m, n)[0] % 32), n, rest);
    }
  }

  lemma ByteStringRoundTrip(data: seq<byte>, rest: seq<byte>)
    requires |data| < TWO64
    ensures ReadByteString(ByteString(data) + rest) == Done(data, rest)
  {
    assert ByteString(data) + rest == Head(BYTE_STRING, |data|) + (data + rest);
    HeadRoundTrip(BYTE_STRING, |data|, data + rest);
    ReadRawWritten(data, rest);
  }

  /** Larger arguments never have shorter heads. */
  lemma HeadLenMonotone(a: u64, b: u64)
    requires a <= b
    ensures HeadLen(a) <= HeadLen(b)
  {
  }
}
