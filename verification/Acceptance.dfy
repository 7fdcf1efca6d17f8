/** Which bundles are accepted, in the numbers of RFC 9171, sections 4.2 to 4.4: the rules a received
    bundle is checked against, with flags as bits and types as codes. */
module Acceptance {
  import opened Bytes
  import opened Endpoint
  import opened Blocks
  import opened Primary
  import opened BundleCodec

  /** The four flags that ask for status reports. */
  predicate AsksForReports(flags: u64) {
    flags / 0x4000 % 2 == 1 || flags / 0x1_0000 % 2 == 1 || flags / 0x2_0000 % 2 == 1 || flags / 0x4_0000 % 2 == 1
  }

  /** Version 7; no fragment may be marked as not to be fragmented; administrative records ask for no
      reports; and an anonymous source neither asks for any nor lets the bundle be fragmented. */
  predicate PrimaryRules(p: PrimaryBlock) {
    && p.version == 7 && Valid(p.destination) && Valid(p.source) && Valid(p.reportTo)
    && !(p.flags % 2 == 1 && p.flags / 4 % 2 == 1)
    && (p.flags / 2 % 2 == 1 ==> !AsksForReports(p.flags))
    && (p.source == Dtn([], [], true) ==> p.flags / 4 % 2 == 1 && !AsksForReports(p.flags))
  }

  predicate BlockRules(p: PrimaryBlock, cb: CanonicalBlock) {
    && (TypeCode(cb.value) == 1 ==> cb.number == 1)
    && (cb.value.PreviousNode? ==> Valid(cb.value.endpoint))
    && (cb.value.HopCount? ==> cb.value.count <= cb.value.limit)
    && (p.flags / 2 % 2 == 1 || p.source == Dtn([], [], true) ==> cb.flags / 2 % 2 == 0)
  }

  /** An age block that is no older than the bundle may become. */
  predicate YoungAt(b: Bundle, i: nat) {
    i < |b.blocks| && b.blocks[i].value.BundleAge? && b.blocks[i].value.age <= b.primary.lifetime
  }

  /** Every block follows the rules, no two have the same number or type, the last is the payload, and
      the lifetime has not passed, which without a creation time an age block has to show. */
  ghost predicate Rules(env: Env, b: Bundle) {
    && PrimaryRules(b.primary)
    && b.blocks != [] && TypeCode(b.blocks[|b.blocks| - 1].value) == 1
    && (forall i :: 0 <= i < |b.blocks| ==> BlockRules(b.primary, b.blocks[i]))
    && (forall i, j :: 0 <= i < j < |b.blocks| ==>
          b.blocks[i].number != b.blocks[j].number && TypeCode(b.blocks[i].value) != TypeCode(b.blocks[j].value))
    && if b.primary.time == 0 then exists i: nat :: YoungAt(b, i) else !env.late(b.primary.time, b.primary.lifetime)
  }

  lemma PrimaryRulesHold(p: PrimaryBlock)
    ensures ValidPrimary(p) <==> PrimaryRules(p)
  {
    hide Valid;
  }

  lemma YoungExactly(env: Env, b: Bundle)
    requires b.primary.time == 0 && DistinctTypes(b.blocks)
    ensures HasType(b.blocks, BUNDLE_AGE_TYPE) && !LifetimeExceeded(env, b) <==> exists i: nat :: YoungAt(b, i)
  {
    var k := FindType(b.blocks, BUNDLE_AGE_TYPE);
    if k < |b.blocks| && !LifetimeExceeded(env, b) {
      assert YoungAt(b, k);
    }
    if i: nat :| YoungAt(b, i) {
      assert TypeCode(b.blocks[i].value) == BUNDLE_AGE_TYPE;
      assert i == k;
    }
  }

  lemma BlockRulesHold(b: Bundle)
    ensures (forall i :: 0 <= i < |b.blocks| ==> BlockRules(b.primary, b.blocks[i])) <==>
            && (forall i :: 0 <= i < |b.blocks| ==> ValidBlock(b.blocks[i]))
            && (Has(b.primary.flags, ADMINISTRATIVE_RECORD) || b.primary.source == DTN_NONE ==>
                  forall i :: 0 <= i < |b.blocks| ==> !Has(b.blocks[i].flags, STATUS_REPORT_BLOCK))
  {
    hide Valid, TypeCode;
    forall i | 0 <= i < |b.blocks|
      ensures BlockRules(b.primary, b.blocks[i]) <==>
        ValidBlock(b.blocks[i])
        && (Has(b.primary.flags, ADMINISTRATIVE_RECORD) || b.primary.source == DTN_NONE ==>
              !Has(b.blocks[i].flags, STATUS_REPORT_BLOCK))
    {
    }
    hide BlockRules, ValidBlock, Has;
  }

  /** A bundle is valid exactly when it follows the rules. */
  lemma ValidExactly(env: Env, b: Bundle)
    ensures ValidBundle(env, b) <==> Rules(env, b)
  {
    PrimaryRulesHold(b.primary);
    BlockRulesHold(b);
    hide ValidPrimary, PrimaryRules, ValidBlock, BlockRules, LifetimeExceeded, FindType, TypeCode, Has;
    if DistinctTypes(b.blocks) && b.primary.time == 0 {
      YoungExactly(env, b);
    }
    if b.primary.time != 0 {
      LateByTheClock(env, b);
    }
  }

  lemma LateByTheClock(env: Env, b: Bundle)
    requires b.primary.time != 0
    ensures LifetimeExceeded(env, b) <==> env.late(b.primary.time, b.primary.lifetime)
  {
  }

  /** For any octets: what is read as a bundle follows the rules, and nothing else is refused that has
      the syntax of one. */
  lemma AcceptedExactly(env: Env, s: seq<byte>)
    ensures ReadBundle(env, s).Done? <==> ReadSyntax(env, s).Done? && Rules(env, ReadSyntax(env, s).value)
    ensures ReadBundle(env, s).Done? ==> ReadBundle(env, s) == ReadSyntax(env, s)
  {
    hide ReadSyntax, ValidBundle, Rules;
    if ReadSyntax(env, s).Done? {
      ValidExactly(env, ReadSyntax(env, s).value);
    }
  }

  /** A path splits at k into a node name and what is behind the slash. */
  predicate SplitsAt(path: seq<byte>, k: nat) {
    && 0 < k < |path| && path[k] == 0x2F
    && (forall i :: 0 <= i < k ==>
          0x30 <= path[i] <= 0x39 || 0x41 <= path[i] <= 0x5A || 0x61 <= path[i] <= 0x7A
          || path[i] == 0x5F || path[i] == 0x2D || path[i] == 0x2E)
    && forall i :: k < i < |path| ==> path[i] != 0x0A
  }

  lemma PathExactly(path: seq<byte>)
    ensures ParsePath(path).Ok? <==> exists k: nat :: SplitsAt(path, k)
  {
    var n := Span(path, NodeChar);
    if ParsePath(path).Ok? {
      forall i | n < i < |path| ensures path[i] != 0x0A {
        assert path[i] == path[n + 1..][i - n - 1];
      }
      assert SplitsAt(path, n);
    }
    if k: nat :| SplitsAt(path, k) {
      SpanUnique(path, NodeChar, k);
    }
  }

  /** Valid are the null endpoint, dtn endpoints whose text has a node name of letters, digits, dashes,
      dots and underscores in front of a slash and no newline, and ipn endpoints of positive numbers. */
  lemma ValidEndpointExactly(e: EndpointID)
    ensures Valid(e) <==>
      match e
      case NoType => false
      case Dtn(nodeName, demux, none) => none || exists k: nat :: SplitsAt(nodeName + [0x2F] + demux, k)
      case Ipn(node, service) => node > 0 && service > 0
  {
    hide ParsePath, SplitsAt, Valid;
    match e
    case NoType => assert !Valid(e) by { NoTypeIsInvalid(e); }
    case Dtn(nodeName, demux, none) =>
      ValidDtn(e);
      var path := nodeName + [0x2F] + demux;
      assert path == NodePath(nodeName, demux);
      PathExactly(path);
    case Ipn(_, _) => ValidIpn(e);
  }

  lemma NoTypeIsInvalid(e: EndpointID)
    requires e.NoType?
    ensures !Valid(e)
  {
  }

  lemma ValidIpn(e: EndpointID)
    requires e.Ipn?
    ensures Valid(e) <==> e.node > 0 && e.service > 0
  {
  }

  lemma ValidDtn(e: EndpointID)
    requires e.Dtn?
    ensures Valid(e) <==> e.isDtnNone || ParsePath(NodePath(e.nodeName, e.demux)).Ok?
  {
    hide ParsePath, NodePath, ParseDtnSsp, Ssp;
    var ssp := if e.isDtnNone then NONE_SSP else Ssp(e.nodeName, e.demux);
    BehindScheme(ssp);
    assert Uri(e) == DTN_SCHEME + ([COLON] + ssp);
    assert Valid(e) <==> ParseDtnSsp(ssp).Ok?;
    hide Uri, Valid;
    if e.isDtnNone {
      NoneParses();
    } else {
      SspParses(e.nodeName, e.demux);
    }
  }

  lemma BehindScheme(ssp: seq<byte>)
    ensures (DTN_SCHEME + ([COLON] + ssp))[..4] == DTN_SCHEME + [COLON]
    ensures (DTN_SCHEME + ([COLON] + ssp))[4..] == ssp
  {
  }

  lemma NoneParses()
    ensures ParseDtnSsp(NONE_SSP).Ok?
  {
  }

  lemma SspParses(nodeName: seq<byte>, demux: seq<byte>)
    ensures ParseDtnSsp(Ssp(nodeName, demux)).Ok? <==> ParsePath(NodePath(nodeName, demux)).Ok?
  {
    hide ParsePath, NodePath;
    var ssp := Ssp(nodeName, demux);
    assert ssp[..2] == [SLASH, SLASH] && ssp[2..] == NodePath(nodeName, demux);
    assert ssp[0] == SLASH;
  }
}
