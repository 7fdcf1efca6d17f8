/** Endpoint identifiers: the dtn and ipn URI schemes, their printed form and their CBOR form.
    Go strings are octet strings here; the regular expressions of the program are written out as
    predicates on octets. */
module Endpoint {
  import opened Bytes
  import opened Cbor

  /** NoType is an EndpointID whose EndpointType is nil. */
  datatype EndpointID =
    | NoType
    | Dtn(nodeName: seq<byte>, demux: seq<byte>, isDtnNone: bool)
    | Ipn(node: u64, service: u64)

  const DTN_NONE := Dtn([], [], true)

  const DTN_SCHEME: seq<byte> := [0x64, 0x74, 0x6E]
  const IPN_SCHEME: seq<byte> := [0x69, 0x70, 0x6E]
  const NONE_SSP: seq<byte> := [0x6E, 0x6F, 0x6E, 0x65]
  const COLON: byte := 0x3A
  const DASH: byte := 0x2D
  const DOT: byte := 0x2E
  const SLASH: byte := 0x2F
  const NEWLINE: byte := 0x0A

  predicate Digit(c: byte) { 0x30 <= c <= 0x39 }

  predicate Alnum(c: byte) { Digit(c) || 0x41 <= c <= 0x5A || 0x61 <= c <= 0x7A }

  /** The class [\w-._] of a dtn node name. */
  predicate NodeChar(c: byte) { Alnum(c) || c == 0x5F || c == DASH || c == DOT }

  /** How many leading octets of s satisfy the class, the greedy match of a starred class. */
  function Span(s: seq<byte>, accepts: byte -> bool): (k: nat)
    ensures k <= |s|
    ensures forall i :: 0 <= i < k ==> accepts(s[i])
    ensures k < |s| ==> !accepts(s[k])
  {
    if s == [] || !accepts(s[0]) then 0 else 1 + Span(s[1..], accepts)
  }

  lemma SpanUnique(s: seq<byte>, accepts: byte -> bool, k: nat)
    requires k <= |s|
    requires forall i :: 0 <= i < k ==> accepts(s[i])
    requires k < |s| ==> !accepts(s[k])
    ensures Span(s, accepts) == k
  {
    assert forall i :: 0 <= i < k ==> accepts(s[i]);
    assert forall i :: 0 <= i < Span(s, accepts) ==> accepts(s[i]);
  }

  /* ---- dtn ---- */

  /** The scheme specific part of a dtn URI other than dtn:none. */
  function Ssp(nodeName: seq<byte>, demux: seq<byte>): seq<byte> {
    [SLASH, SLASH] + NodePath(nodeName, demux)
  }

  /** parseDtnSsp: either the null endpoint or //node/demux with demux free of newlines. */
  function ParseDtnSsp(ssp: seq<byte>): (r: Result<EndpointID>)
    ensures r.Ok? ==> r.value.Dtn? && Normal(r.value)
  {
    if ssp == NONE_SSP then Ok(DTN_NONE)
    else if |ssp| < 2 || ssp[..2] != [SLASH, SLASH] then Err
    else ParsePath(ssp[2..])
  }

  /** Node name, slash and demux. */
  function ParsePath(s: seq<byte>): (r: Result<EndpointID>)
    ensures r.Ok? ==> r.value.Dtn? && Normal(r.value)
  {
    var k := Span(s, NodeChar);
    if k == 0 || k == |s| || s[k] != SLASH || NEWLINE in s[k + 1..] then Err
    else Ok(Dtn(s[..k], s[k + 1..], false))
  }

  /** The printed form, String. */
  function Uri(e: EndpointID): seq<byte> {
    match e
    case NoType => DTN_SCHEME + ([COLON] + NONE_SSP)
    case Dtn(nodeName, demux, none) => DTN_SCHEME + ([COLON] + if none then NONE_SSP else Ssp(nodeName, demux))
    case Ipn(node, service) => IPN_SCHEME + ([COLON] + (Decimal(node) + ([DOT] + Decimal(service))))
  }

  /** CheckValid: a dtn endpoint is valid when its printed form matches the full pattern. */
  predicate Valid(e: EndpointID) {
    match e
    case NoType => false
    case Dtn(_, _, _) => Uri(e)[..4] == DTN_SCHEME + [COLON] && ParseDtnSsp(Uri(e)[4..]).Ok?
    case Ipn(node, service) => node >= 1 && service >= 1
  }

  /** The endpoints that are their own normal form. */
  predicate Normal(e: EndpointID) {
    match e
    case NoType => false
    case Dtn(nodeName, demux, none) => if none then nodeName == [] && demux == [] else SLASH !in nodeName
    case Ipn(_, _) => true
  }

  function FirstSlash(s: seq<byte>): (k: nat)
    requires SLASH in s
    ensures k < |s| && s[k] == SLASH
    ensures forall i :: 0 <= i < k ==> s[i] != SLASH
  {
    if s[0] == SLASH then 0 else 1 + FirstSlash(s[1..])
  }

  lemma FirstSlashUnique(s: seq<byte>, k: nat)
    requires k < |s| && s[k] == SLASH
    requires forall i :: 0 <= i < k ==> s[i] != SLASH
    ensures FirstSlash(s) == k
  {
    assert forall i :: 0 <= i < FirstSlash(s) ==> s[i] != SLASH;
  }

  /** The text of a dtn endpoint after the two leading slashes. */
  function NodePath(nodeName: seq<byte>, demux: seq<byte>): (s: seq<byte>)
    ensures |s| == |nodeName| + 1 + |demux| && s[|nodeName|] == SLASH
  {
    nodeName + ([SLASH] + demux)
  }

  function SplitAtSlash(s: seq<byte>): EndpointID
    requires SLASH in s
  {
    var k := FirstSlash(s);
    Dtn(s[..k], s[k + 1..], false)
  }

  lemma RejoinPath(s: seq<byte>)
    requires SLASH in s
    ensures NodePath(SplitAtSlash(s).nodeName, SplitAtSlash(s).demux) == s
  {
    var k := FirstSlash(s);
    assert s == s[..k] + ([SLASH] + s[k + 1..]);
  }

  /** What an endpoint turns into when it is written and read again: the node name ends at the
      first slash, and the null endpoint carries no names. */
  function Canon(e: EndpointID): EndpointID
    requires !e.NoType?
  {
    match e
    case Dtn(nodeName, demux, none) =>
      if none then DTN_NONE
      else SplitAtSlash(NodePath(nodeName, demux))
    case Ipn(_, _) => e
  }

  lemma CanonFixedPoint(e: EndpointID)
    requires Valid(e)
    ensures Canon(e) == e <==> Normal(e)
  {
    ValidIsTyped(e);
    hide Valid, FirstSlash, NodePath;
    if e.Dtn? && !e.isDtnNone {
      SlashBehindName(e.nodeName, e.demux);
    }
  }

  /** The first slash of a path stands behind the node name exactly when that has none itself. */
  lemma SlashBehindName(nodeName: seq<byte>, demux: seq<byte>)
    ensures var s := NodePath(nodeName, demux);
      && s[..|nodeName|] == nodeName && s[|nodeName| + 1..] == demux
      && (FirstSlash(s) == |nodeName| <==> SLASH !in nodeName) && FirstSlash(s) <= |nodeName|
  {
    hide FirstSlash;
    var s := NodePath(nodeName, demux);
    assert forall i :: 0 <= i < |nodeName| ==> s[i] == nodeName[i];
    if SLASH !in nodeName {
      FirstSlashUnique(s, |nodeName|);
    }
  }

  lemma PathSplitsAtFirstSlash(s: seq<byte>)
    requires ParsePath(s).Ok?
    ensures SLASH in s && ParsePath(s) == Ok(SplitAtSlash(s))
  {
    var k := Span(s, NodeChar);
    forall i | 0 <= i < k ensures s[i] != SLASH {
      assert NodeChar(s[i]);
    }
    FirstSlashUnique(s, k);
  }

  /** Reading the scheme specific part of any valid dtn endpoint gives its normal form. */
  lemma SspRoundTrip(e: EndpointID)
    requires Valid(e) && e.Dtn? && !e.isDtnNone
    ensures ParseDtnSsp(Ssp(e.nodeName, e.demux)) == Ok(Canon(e))
  {
    var ssp := Ssp(e.nodeName, e.demux);
    assert Uri(e)[4..] == ssp;
    assert ssp[2..] == NodePath(e.nodeName, e.demux);
    assert ssp[0] == SLASH;
    PathSplitsAtFirstSlash(NodePath(e.nodeName, e.demux));
  }

  /* ---- decimal numbers ---- */

  function Decimal(n: nat): (ds: seq<byte>)
    ensures ds != []
    ensures forall i :: 0 <= i < |ds| ==> Digit(ds[i])
  {
    if n < 10 then [0x30 + n] else Decimal(n / 10) + [0x30 + n % 10]
  }

  function DigitValue(c: byte): nat
    requires Digit(c)
  {
    c as int - 0x30
  }

  function DecimalValue(ds: seq<byte>): nat
    requires forall i :: 0 <= i < |ds| ==> Digit(ds[i])
  {
    if ds == [] then 0 else 10 * DecimalValue(ds[..|ds| - 1]) + DigitValue(ds[|ds| - 1])
  }

  lemma {:induction false} DecimalRoundTrip(n: nat)
    ensures DecimalValue(Decimal(n)) == n
  {
    var ds := Decimal(n);
    if n < 10 {
      assert ds[..|ds| - 1] == [];
    } else {
      assert ds[..|ds| - 1] == Decimal(n / 10);
      DecimalRoundTrip(n / 10);
    }
  }

  /** strconv.ParseUint for base 10 and 64 bits on a string of digits. */
  function ParseUint(ds: seq<byte>): Result<u64>
    requires forall i :: 0 <= i < |ds| ==> Digit(ds[i])
  {
    var n := DecimalValue(ds);
    if n < TWO64 then Ok(n) else Err
  }

  /* ---- URIs ---- */

  function ParseIpnSsp(s: seq<byte>): (r: Result<EndpointID>)
    ensures r.Ok? ==> r.value.Ipn? && Valid(r.value)
  {
    var k := Span(s, Digit);
    if k == 0 || k == |s| || s[k] != DOT then Err
    else
      var t := s[k + 1..];
      var m := Span(t, Digit);
      if m == 0 || m != |t| then Err
      else
        match (ParseUint(s[..k]), ParseUint(t))
        case (Ok(node), Ok(service)) => if node >= 1 && service >= 1 then Ok(Ipn(node, service)) else Err
        case _ => Err
  }

  /** NewEndpointID: alphanumeric scheme, colon, at least one more octet and no newline, then the
      scheme's own constructor. */
  function NewEndpointID(uri: seq<byte>): Result<EndpointID> {
    var k := Span(uri, Alnum);
    if k == 0 || k + 1 >= |uri| || uri[k] != COLON || NEWLINE in uri[k + 1..] then Err
    else if uri[..k] == DTN_SCHEME then ParseDtnSsp(uri[k + 1..])
    else if uri[..k] == IPN_SCHEME then ParseIpnSsp(uri[k + 1..])
    else Err
  }

  lemma SchemeSplit(scheme: seq<byte>, ssp: seq<byte>)
    requires scheme != [] && ssp != []
    requires forall i :: 0 <= i < |scheme| ==> Alnum(scheme[i])
    ensures var uri := scheme + ([COLON] + ssp);
            var k := |scheme|;
            Span(uri, Alnum) == k && uri[..k] == scheme && uri[k] == COLON && uri[k + 1..] == ssp
  {
    var uri := scheme + ([COLON] + ssp);
    assert uri[|scheme|] == COLON;
    SpanUnique(uri, Alnum, |scheme|);
  }

  predicate Digits(ds: seq<byte>) {
    ds != [] && forall i :: 0 <= i < |ds| ==> Digit(ds[i])
  }

  lemma DottedSplit(a: seq<byte>, b: seq<byte>)
    requires Digits(a) && Digits(b)
    ensures var ssp := a + ([DOT] + b);
            var k := |a|;
            Span(ssp, Digit) == k && ssp[..k] == a && ssp[k] == DOT && ssp[k + 1..] == b
    ensures Span(b, Digit) == |b| && NEWLINE !in a + ([DOT] + b)
  {
    var ssp := a + ([DOT] + b);
    assert ssp[|a|] == DOT;
    assert ssp[|a| + 1..] == b;
    assert forall i :: 0 <= i < |a| ==> ssp[i] == a[i];
    SpanUnique(ssp, Digit, |a|);
    SpanUnique(b, Digit, |b|);
  }

  lemma IpnSspRoundTrip(e: EndpointID)
    requires e.Ipn? && Valid(e)
    ensures var ssp := Decimal(e.node) + ([DOT] + Decimal(e.service));
            ParseIpnSsp(ssp) == Ok(e) && NEWLINE !in ssp
  {
    DottedSplit(Decimal(e.node), Decimal(e.service));
    DecimalRoundTrip(e.node);
    DecimalRoundTrip(e.service);
  }

  lemma ValidSspHasNoNewline(ssp: seq<byte>)
    requires ParseDtnSsp(ssp).Ok?
    ensures NEWLINE !in ssp && ssp != []
  {
    if ssp != NONE_SSP {
      var tail := ssp[2..];
      var k := Span(tail, NodeChar);
      forall i | 0 <= i < |ssp| ensures ssp[i] != NEWLINE {
        if i < 2 {
          assert ssp[i] == ssp[..2][i];
        } else if i - 2 < k {
          assert NodeChar(tail[i - 2]);
        } else if i - 2 > k {
          assert ssp[i] == tail[k + 1..][i - 2 - k - 1];
        }
      }
    }
  }

  /** Printing any valid endpoint and parsing the URI gives its normal form, so it gives the
      endpoint itself exactly when that is in normal form. */
  lemma UriRoundTrip(e: EndpointID)
    requires Valid(e)
    ensures NewEndpointID(Uri(e)) == Ok(Canon(e))
    ensures NewEndpointID(Uri(e)) == Ok(e) <==> Normal(e)
  {
    hide NewEndpointID, Uri, Canon, Normal;
    CanonFixedPoint(e);
    if e.Ipn? {
      IpnUriRoundTrip(e);
    } else {
      ValidIsTyped(e);
      DtnUriRoundTrip(e);
    }
  }

  lemma ValidIsTyped(e: EndpointID)
    requires Valid(e)
    ensures !e.NoType?
  {
  }

  lemma IpnUriRoundTrip(e: EndpointID)
    requires Valid(e) && e.Ipn?
    ensures NewEndpointID(Uri(e)) == Ok(Canon(e))
  {
    hide ParseDtnSsp, ParseIpnSsp, Decimal;
    IpnSspRoundTrip(e);
    SchemeSplit(IPN_SCHEME, Decimal(e.node) + ([DOT] + Decimal(e.service)));
  }

  lemma DtnUriParse(ssp: seq<byte>)
    requires ParseDtnSsp(ssp).Ok?
    ensures NewEndpointID(DTN_SCHEME + ([COLON] + ssp)) == ParseDtnSsp(ssp)
  {
    ValidSspHasNoNewline(ssp);
    SchemeSplit(DTN_SCHEME, ssp);
  }

  lemma DtnUriRoundTrip(e: EndpointID)
    requires Valid(e) && e.Dtn?
    ensures NewEndpointID(Uri(e)) == Ok(Canon(e))
  {
    var ssp := if e.isDtnNone then NONE_SSP else Ssp(e.nodeName, e.demux);
    assert Uri(e)[4..] == ssp;
    hide NewEndpointID, FirstSlash, NodePath, ParsePath;
    DtnUriParse(ssp);
    if !e.isDtnNone { SspRoundTrip(e); }
  }

  /** Two valid endpoints print alike exactly when they have the same normal form. */
  lemma UriInjective(a: EndpointID, b: EndpointID)
    requires Valid(a) && Valid(b)
    ensures Uri(a) == Uri(b) <==> Canon(a) == Canon(b)
  {
    UriRoundTrip(a);
    UriRoundTrip(b);
    if Canon(a) == Canon(b) {
      UriOfCanon(a);
      UriOfCanon(b);
    }
  }

  lemma UriOfCanon(e: EndpointID)
    requires !e.NoType?
    ensures Uri(Canon(e)) == Uri(e)
  {
    if e.Dtn? && !e.isDtnNone {
      RejoinPath(NodePath(e.nodeName, e.demux));
    }
  }

  /* ---- CBOR ---- */

  /** Go lengths bound every string, so the text head can carry them. */
  predicate Fits(e: EndpointID) {
    e.Dtn? ==> |Ssp(e.nodeName, e.demux)| <= MAX_LEN
  }

  function EndpointBytes(e: EndpointID): (bs: seq<byte>)
    requires !e.NoType? && Fits(e)
    ensures bs != [] && bs[0] == 0x82
  {
    Head(ARRAY, 2) + (Head(UINT, if e.Dtn? then 1 else 2) + SspBytes(e))
  }

  function SspBytes(e: EndpointID): seq<byte>
    requires !e.NoType? && Fits(e)
  {
    match e
    case Dtn(nodeName, demux, none) =>
      if none then Head(UINT, 0) else Head(TEXT_STRING, |Ssp(nodeName, demux)|) + Ssp(nodeName, demux)
    case Ipn(node, service) => Head(ARRAY, 2) + (Head(UINT, node) + Head(UINT, service))
  }

  function ReadDtn(s: seq<byte>): (p: Parse<EndpointID>)
    ensures p.Done? ==> |p.rest| < |s|
  {
    var (h, rest) :- ReadHead(s);
    if h.0 == UINT then Done(DTN_NONE, rest)
    else if h.0 == TEXT_STRING then
      var (ssp, rest') :- ReadRaw(h.1, rest);
      match ParseDtnSsp(ssp)
      case Ok(e) => if e.isDtnNone then Failed else Done(e, rest')
      case Err => Failed
    else Failed
  }

  function ReadIpn(s: seq<byte>): (p: Parse<EndpointID>)
    ensures p.Done? ==> |p.rest| < |s|
  {
    var (n, r0) :- ReadArrayLength(s);
    if n != 2 then Failed
    else
      var (node, r1) :- ReadUInt(r0);
      var (service, r2) :- ReadUInt(r1);
      Done(Ipn(node, service), r2)
  }

  function ReadEndpoint(s: seq<byte>): (p: Parse<EndpointID>)
    ensures p.Done? ==> |p.rest| < |s| && !p.value.NoType?
  {
    var (n, r0) :- ReadArrayLength(s);
    if n != 2 then Failed
    else
      var (scheme, r1) :- ReadUInt(r0);
      if scheme == 1 then ReadDtn(r1) else if scheme == 2 then ReadIpn(r1) else Failed
  }

  lemma SspBytesRoundTrip(e: EndpointID, rest: seq<byte>)
    requires Valid(e) && Fits(e)
    ensures (if e.Dtn? then ReadDtn(SspBytes(e) + rest) else ReadIpn(SspBytes(e) + rest)) == Done(Canon(e), rest)
  {
    match e
    case Dtn(nodeName, demux, none) =>
      if none {
        HeadRoundTrip(UINT, 0, rest);
      } else {
        var ssp := Ssp(nodeName, demux);
        assert SspBytes(e) + rest == Head(TEXT_STRING, |ssp|) + (ssp + rest);
        HeadRoundTrip(TEXT_STRING, |ssp|, ssp + rest);
        ReadRawWritten(ssp, rest);
        SspRoundTrip(e);
      }
    case Ipn(node, service) =>
      var tail := Head(UINT, service) + rest;
      assert SspBytes(e) + rest == Head(ARRAY, 2) + (Head(UINT, node) + tail);
      HeadRoundTrip(ARRAY, 2, Head(UINT, node) + tail);
      HeadRoundTrip(UINT, node, tail);
      HeadRoundTrip(UINT, service, rest);
  }

  /** Writing any valid endpoint and reading it back gives its normal form and leaves what follows. */
  lemma EndpointRoundTrip(e: EndpointID, rest: seq<byte>)
    requires Valid(e) && Fits(e)
    ensures ReadEndpoint(EndpointBytes(e) + rest) == Done(Canon(e), rest)
  {
    var scheme: u64 := if e.Dtn? then 1 else 2;
    var tail := SspBytes(e) + rest;
    assert EndpointBytes(e) + rest == Head(ARRAY, 2) + (Head(UINT, scheme) + tail);
    HeadRoundTrip(ARRAY, 2, Head(UINT, scheme) + tail);
    HeadRoundTrip(UINT, scheme, tail);
    SspBytesRoundTrip(e, rest);
  }
}
