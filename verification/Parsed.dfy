/** Lengths in a parsed bundle are bounded by the length of what was parsed. */
module Parsed {
  import opened Bytes
  import opened Cbor
  import opened Endpoint
  import opened Blocks
  import opened Primary
  import opened BundleCodec
  import opened Fragmentation
  import opened Reassembly
  import opened Storage

  lemma ReadEndpointFits(s: seq<byte>)
    requires |s| <= MAX_LEN && ReadEndpoint(s).Done?
    ensures Fits(ReadEndpoint(s).value)
  {
    hide NodeChar, Span;
  }

  lemma ReadValueSized(env: Env, code: u64, data: seq<byte>)
    requires |data| <= MAX_PAYLOAD && ReadValue(env, code, data).Ok?
    ensures SizedValue(ReadValue(env, code, data).value)
  {
    hide ReadEndpoint, ReadUInt, ReadArrayLength, Fits;
    if code == PREVIOUS_NODE_TYPE {
      ReadEndpointFits(data);
    }
  }

  lemma ReadByteStringShort(s: seq<byte>)
    requires ReadByteString(s).Done?
    ensures |ReadByteString(s).value| <= |s|
  {
    hide ReadExpected;
  }

  lemma ReadBlockSized(env: Env, s: seq<byte>)
    requires |s| <= MAX_PAYLOAD && ReadBlock(env, s).Done?
    ensures SizedValue(ReadBlock(env, s).value.value)
  {
    hide ReadUInt, ReadArrayLength, ReadByteString, ReadValue, SizedValue, ReadCrc;
    var r0 := ReadArrayLength(s).rest;
    var r1 := ReadUInt(r0);
    var r4 := ReadUInt(ReadUInt(ReadUInt(r1.rest).rest).rest).rest;
    ReadByteStringShort(r4);
    ReadValueSized(env, r1.value, ReadByteString(r4).value);
  }

  lemma {:induction false} ReadBlocksSized(env: Env, s: seq<byte>)
    requires |s| <= MAX_PAYLOAD && ReadBlocks(env, s).Done?
    ensures |ReadBlocks(env, s).value| <= |s|
    ensures forall i :: 0 <= i < |ReadBlocks(env, s).value| ==> SizedValue(ReadBlocks(env, s).value[i].value)
    decreases |s|
  {
    hide ReadBlock, SizedValue;
    var p := ReadBlock(env, s);
    if p.Done? {
      ReadBlockSized(env, s);
      ReadBlocksSized(env, p.rest);
    }
  }

  lemma ReadEndpointsFit(s: seq<byte>)
    requires |s| <= MAX_LEN && ReadEndpoints(s).Done?
    ensures var e := ReadEndpoints(s).value; Fits(e.destination) && Fits(e.source) && Fits(e.reportTo)
  {
    hide ReadEndpoint, Fits;
    var p0 := ReadEndpoint(s);
    var p1 := ReadEndpoint(p0.rest);
    ReadEndpointFits(s);
    ReadEndpointFits(p0.rest);
    ReadEndpointFits(p1.rest);
  }

  lemma ReadPrimaryFits(env: Env, s: seq<byte>)
    requires |s| <= MAX_LEN && ReadPrimary(env, s).Done?
    ensures var p := ReadPrimary(env, s).value; Fits(p.destination) && Fits(p.source) && Fits(p.reportTo)
  {
    hide ReadHeadFields, ReadEndpoints, ReadTimes, ReadCrc, Fits;
    ReadEndpointsFit(ReadHeadFields(s).rest);
  }

  /** A bundle parsed from fewer octets than a float64 holds exactly is within all length limits. */
  lemma ReadBundleSized(env: Env, s: seq<byte>)
    requires |s| <= MAX_PAYLOAD && ReadBundle(env, s).Done?
    ensures Sized(ReadBundle(env, s).value)
  {
    hide ReadPrimary, ReadBlocks, Fits, SizedValue, ValidBundle;
    ReadPrimaryFits(env, s[1..]);
    ReadBlocksSized(env, ReadPrimary(env, s[1..]).rest);
  }

  /** So with files of such lengths every part that loads may be reassembled. */
  lemma {:induction false} PartsSized(env: Env, files: map<seq<byte>, seq<byte>>, parts: seq<BundlePart>)
    requires forall name :: name in files ==> |files[name]| <= MAX_PAYLOAD
    requires LoadParts(env, files, parts).Ok?
    ensures AllSized(LoadParts(env, files, parts).value)
  {
    hide ReadBundle, Sized;
    if parts != [] {
      var last := parts[|parts| - 1];
      PartsSized(env, files, parts[..|parts| - 1]);
      ReadBundleSized(env, files[last.filename]);
    }
  }
}
