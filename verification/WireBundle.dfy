/** The octets of a bundle as the specification draws them: a tree of CBOR items (RFC 8949, section 3)
    laid out as in RFC 9171, sections 4.1 to 4.3, and the encodings of every head that are read. */
module WireBundle {
  import opened Bytes
  import opened Cbor
  import opened Endpoint
  import opened Blocks
  import opened Primary
  import opened BundleCodec
  import opened Checksums

  datatype Item = Number(n: nat) | Octets(data: seq<byte>) | Text(text: seq<byte>) | List(items: seq<Item>)

  /** A major type and an argument in the shortest of five forms. */
  function Initial(major: nat, n: nat): seq<byte>
    requires major < 8
  {
    if n < 24 then [32 * major + n]
    else if n < 0x100 then [32 * major + 24, n]
    else if n < 0x1_0000 then [32 * major + 25, n / 0x100, n % 0x100]
    else if n < 0x1_0000_0000 then
      [32 * major + 26, n / 0x100_0000, n / 0x1_0000 % 0x100, n / 0x100 % 0x100, n % 0x100]
    else
      [32 * major + 27, n / 0x100_0000_0000_0000 % 0x100, n / 0x1_0000_0000_0000 % 0x100,
       n / 0x100_0000_0000 % 0x100, n / 0x1_0000_0000 % 0x100,
       n / 0x100_0000 % 0x100, n / 0x1_0000 % 0x100, n / 0x100 % 0x100, n % 0x100]
  }

  function Encode(item: Item): seq<byte>
    decreases item, 0
  {
    match item
    case Number(n) => Initial(0, n)
    case Octets(data) => Initial(2, |data|) + data
    case Text(text) => Initial(3, |text|) + text
    case List(items) => Initial(4, |items|) + EncodeAll(items)
  }

  function EncodeAll(items: seq<Item>): seq<byte>
    decreases items, 1
  {
    if items == [] then [] else Encode(items[0]) + EncodeAll(items[1..])
  }

  lemma HeadIsInitial(m: major, n: u64)
    ensures Head(m, n) == Initial(m, n)
  {
    hide Head, Initial;
    if n < 24 {
      InitialOne(m, n);
    } else if n < 0x100 {
      InitialTwo(m, n);
    } else if n < 0x1_0000 {
      InitialThree(m, n);
    } else if n < 0x1_0000_0000 {
      InitialFive(m, n);
    } else {
      InitialNine(m, n);
    }
  }

  lemma InitialOne(m: major, n: u64)
    requires n < 24
    ensures Head(m, n) == Initial(m, n)
  {
    hide PutBE;
  }

  lemma InitialTwo(m: major, n: u64)
    requires 24 <= n < 0x100
    ensures Head(m, n) == Initial(m, n)
  {
    hide PutBE;
    OneOctet(n);
  }

  lemma InitialThree(m: major, n: u64)
    requires 0x100 <= n < 0x1_0000
    ensures Head(m, n) == Initial(m, n)
  {
    hide PutBE;
    TwoOctets(n);
    assert n / 0x100 % 0x100 == n / 0x100;
  }

  lemma InitialFive(m: major, n: u64)
    requires 0x1_0000 <= n < 0x1_0000_0000
    ensures Head(m, n) == Initial(m, n)
  {
    hide PutBE;
    FourOctets(n);
    assert n / 0x100_0000 % 0x100 == n / 0x100_0000;
  }

  lemma InitialNine(m: major, n: u64)
    requires 0x1_0000_0000 <= n
    ensures Head(m, n) == Initial(m, n)
  {
    hide PutBE;
    EightOctets(n);
  }

  lemma OneOctet(n: nat)
    requires n < 0x100
    ensures PutBE(n, 1) == [n]
  {
    assert PutBE(n / 256, 0) == [];
  }

  lemma TwoOctets(n: nat)
    ensures PutBE(n, 2) == [n / 0x100 % 0x100, n % 0x100]
  {
    OneOctet(n / 0x100 % 0x100);
    assert PutBE(n / 256 / 256, 0) == [];
    assert PutBE(n / 256, 1) == [n / 256 % 256];
  }

  lemma FourOctets(n: nat)
    ensures PutBE(n, 4) == [n / 0x100_0000 % 0x100, n / 0x1_0000 % 0x100, n / 0x100 % 0x100, n % 0x100]
  {
    DivDiv(n, 0x100, 0x100);
    DivDiv(n, 0x1_0000, 0x100);
    assert PutBE(n, 4) == PutBE(n / 256, 3) + [n % 256];
    assert PutBE(n / 256, 3) == PutBE(n / 256 / 256, 2) + [n / 256 % 256];
    hide PutBE;
    TwoOctets(n / 0x1_0000);
  }

  /** Dividing twice is dividing by the product. */
  lemma DivDiv(n: nat, a: nat, b: nat)
    requires a >= 1 && b >= 1
    ensures n / a / b == n / (a * b)
  {
    NestedQuotient(n, a, b, n / a, n % a, n / a / b, n / a % b);
  }

  lemma NestedQuotient(n: nat, a: nat, b: nat, x: nat, r: nat, q: nat, s: nat)
    requires n == a * x + r && r < a && x == b * q + s && s < b
    ensures a * b >= 1 && n / (a * b) == q
  {
    Product(a, b, q, s);
    FlatQuotient(n, a * b, q, a * s, r);
  }

  lemma FlatQuotient(n: nat, d: nat, q: nat, m: nat, r: nat)
    requires d >= 1 && n == d * q + m + r && m + r < d
    ensures n / d == q
  {
    DivUnique(n, d, q, m + r);
  }

  lemma Product(a: nat, b: nat, q: nat, s: nat)
    requires a >= 1 && s < b
    ensures a * (b * q + s) == a * b * q + a * s
    ensures a * s + a <= a * b
    ensures a * b >= 1
  {
    NextMultiple(a, b, s);
  }

  lemma UpperHalf(n: nat)
    ensures PutBE(n, 8) == PutBE(n / 0x1_0000_0000, 4) + PutBE(n, 4)
  {
    DivDiv(n, 0x100, 0x100);
    DivDiv(n, 0x1_0000, 0x100);
    DivDiv(n, 0x100_0000, 0x100);
    var u := PutBE(n / 0x1_0000_0000, 4);
    assert PutBE(n / 0x100_0000, 5) == u + [n / 0x100_0000 % 256];
    assert PutBE(n / 0x1_0000, 6) == PutBE(n / 0x100_0000, 5) + [n / 0x1_0000 % 256];
    assert PutBE(n / 0x100, 7) == PutBE(n / 0x1_0000, 6) + [n / 0x100 % 256];
    assert PutBE(n, 8) == PutBE(n / 0x100, 7) + [n % 256];
    hide PutBE;
    FourOctets(n);
  }

  lemma EightOctets(n: nat)
    ensures PutBE(n, 8)
         == [n / 0x100_0000_0000_0000 % 0x100, n / 0x1_0000_0000_0000 % 0x100,
             n / 0x100_0000_0000 % 0x100, n / 0x1_0000_0000 % 0x100,
             n / 0x100_0000 % 0x100, n / 0x1_0000 % 0x100, n / 0x100 % 0x100, n % 0x100]
  {
    hide PutBE;
    UpperHalf(n);
    FourOctets(n);
    FourOctets(n / 0x1_0000_0000);
    DivDiv(n, 0x1_0000_0000, 0x100);
    DivDiv(n, 0x1_0000_0000, 0x1_0000);
    DivDiv(n, 0x1_0000_0000, 0x100_0000);
  }

  lemma EncodeFirst(item: Item, items: seq<Item>)
    ensures EncodeAll([item] + items) == Encode(item) + EncodeAll(items)
  {
    assert ([item] + items)[1..] == items;
  }

  lemma EncodeHead(items: seq<Item>)
    requires items != []
    ensures EncodeAll(items) == Encode(items[0]) + EncodeAll(items[1..])
  {
    hide Encode;
  }

  lemma {:induction false} EncodeMore(items: seq<Item>, more: seq<Item>)
    ensures EncodeAll(items + more) == EncodeAll(items) + EncodeAll(more)
  {
    if items == [] {
      assert [] + more == more;
      assert EncodeAll([]) == [];
      assert [] + EncodeAll(more) == EncodeAll(more);
    } else {
      hide Encode, EncodeAll;
      EncodeMore(items[1..], more);
      EncodeHead(items);
      assert (items + more)[0] == items[0] && (items + more)[1..] == items[1..] + more;
      EncodeHead(items + more);
      Assoc(Encode(items[0]), EncodeAll(items[1..]), EncodeAll(more));
    }
  }

  lemma EncodeTwo(a: Item, b: Item)
    ensures EncodeAll([a, b]) == Encode(a) + Encode(b)
  {
    assert [a, b][1..] == [b] && [b][1..] == [];
    assert EncodeAll([]) == [];
    assert EncodeAll([b]) == Encode(b);
  }

  /* ---- endpoints ---- */

  /** Scheme 1 with 0 or the text behind the colon, or scheme 2 with two numbers. */
  function EndpointItem(e: EndpointID): Item
    requires !e.NoType?
  {
    match e
    case Dtn(nodeName, demux, none) =>
      List([Number(1), if none then Number(0) else Text([0x2F, 0x2F] + nodeName + [0x2F] + demux)])
    case Ipn(node, service) => List([Number(2), List([Number(node), Number(service)])])
  }

  lemma EndpointForm(e: EndpointID)
    requires !e.NoType? && Fits(e)
    ensures EndpointBytes(e) == Encode(EndpointItem(e))
  {
    hide Initial, Head;
    HeadIsInitial(ARRAY, 2);
    match e
    case Dtn(nodeName, demux, none) =>
      var text := [0x2F, 0x2F] + nodeName + [0x2F] + demux;
      assert Ssp(nodeName, demux) == text;
      HeadIsInitial(UINT, 1);
      HeadIsInitial(UINT, 0);
      HeadIsInitial(TEXT_STRING, |text|);
      EncodeTwo(Number(1), if none then Number(0) else Text(text));
    case Ipn(node, service) =>
      HeadIsInitial(UINT, 2);
      HeadIsInitial(UINT, node);
      HeadIsInitial(UINT, service);
      EncodeTwo(Number(node), Number(service));
      EncodeTwo(Number(2), List([Number(node), Number(service)]));
  }

  /** The URI of an endpoint: dtn:none, dtn://node/demux, or ipn:node.service. */
  lemma UriText(e: EndpointID)
    ensures e.NoType? || (e.Dtn? && e.isDtnNone) ==> Uri(e) == [0x64, 0x74, 0x6E, 0x3A, 0x6E, 0x6F, 0x6E, 0x65]
    ensures e.Dtn? && !e.isDtnNone ==>
      Uri(e) == [0x64, 0x74, 0x6E, 0x3A, 0x2F, 0x2F] + e.nodeName + [0x2F] + e.demux
    ensures e.Ipn? ==> Uri(e) == [0x69, 0x70, 0x6E, 0x3A] + Decimal(e.node) + [0x2E] + Decimal(e.service)
  {
    hide Decimal;
    match e
    case NoType => Behind([0x64, 0x74, 0x6E, 0x3A], NONE_SSP, [], []);
    case Dtn(nodeName, demux, none) =>
      if none {
        Behind([0x64, 0x74, 0x6E, 0x3A], NONE_SSP, [], []);
      } else {
        Behind([0x64, 0x74, 0x6E, 0x3A, 0x2F, 0x2F], nodeName, [0x2F], demux);
        assert Uri(e) == [0x64, 0x74, 0x6E] + ([0x3A] + ([0x2F, 0x2F] + (nodeName + ([0x2F] + demux))));
      }
    case Ipn(node, service) => Behind([0x69, 0x70, 0x6E, 0x3A], Decimal(node), [0x2E], Decimal(service));
  }

  lemma Behind(scheme: seq<byte>, a: seq<byte>, dot: seq<byte>, b: seq<byte>)
    requires |scheme| >= 4
    ensures scheme[..3] + ([scheme[3]] + (scheme[4..] + (a + (dot + b)))) == scheme + a + dot + b
    ensures |scheme| == 4 ==> scheme[..3] + ([scheme[3]] + (a + (dot + b))) == scheme + a + dot + b
  {
    var t := a + (dot + b);
    assert scheme == scheme[..3] + ([scheme[3]] + scheme[4..]);
    assert scheme + a + dot + b == scheme + t;
    assert |scheme| == 4 ==> scheme[4..] + t == t;
  }

  /* ---- canonical blocks ---- */

  /** The type code and the content of each kind of extension block. */
  function Kind(v: ExtensionBlock): (u64, seq<byte>)
    requires WritableValue(v)
  {
    match v
    case Payload(data) => (1, data)
    case PreviousNode(e) => (6, Encode(EndpointItem(e)))
    case BundleAge(age) => (7, Encode(Number(age)))
    case HopCount(limit, count) => (10, Encode(List([Number(limit), Number(count)])))
    case BinarySpray(copies) => (192, Encode(Number(copies)))
    case Generic(code, data) => (code, data)
  }

  lemma KindForm(v: ExtensionBlock)
    requires WritableValue(v)
    ensures Kind(v) == (TypeCode(v), ValueBytes(v))
  {
    hide Initial, Head, Fits;
    match v
    case PreviousNode(e) => EndpointForm(e);
    case BundleAge(age) => HeadIsInitial(UINT, age);
    case HopCount(limit, count) =>
      HeadIsInitial(ARRAY, 2);
      HeadIsInitial(UINT, limit);
      HeadIsInitial(UINT, count);
      EncodeTwo(Number(limit), Number(count));
    case BinarySpray(copies) => HeadIsInitial(UINT, copies);
    case Payload(_) =>
    case Generic(_, _) =>
  }

  /** Type code, block number, flags, checksum type and content. */
  function BlockItems(cb: CanonicalBlock): seq<Item>
    requires WritableBlock(cb)
  {
    [Number(Kind(cb.value).0), Number(cb.number), Number(cb.flags), Number(cb.crcType), Octets(Kind(cb.value).1)]
  }

  /** The item list, with the checksum over all octets before it as its last item if there is one. */
  function Protected(env: Env, crcType: u64, items: seq<Item>): Item {
    if crcType == 0 then List(items)
    else List(items + [Octets(Demanded(env, crcType, Initial(4, |items| + 1) + EncodeAll(items)))])
  }

  lemma FewOctets(data: seq<byte>)
    requires |data| < 24
    ensures EncodeAll([Octets(data)]) == [0x40 + |data|] + data
  {
    assert [Octets(data)][1..] == [];
    assert EncodeAll([]) == [];
  }

  lemma EncodeList(items: seq<Item>)
    ensures Encode(List(items)) == Initial(4, |items|) + EncodeAll(items)
  {
  }

  lemma ProtectedForm(env: Env, crcType: u64, items: seq<Item>, body: seq<byte>)
    requires crcType <= 2 && |items| < 20
    requires body == Initial(4, |items| + if crcType == 0 then 0 else 1) + EncodeAll(items)
    ensures body + CrcField(env, crcType, body) == Encode(Protected(env, crcType, items))
  {
    hide Initial, Encode, EncodeAll, CrcField;
    if crcType == 0 {
      NoCrcField(env, body);
      EncodeList(items);
      assert body + [] == body;
    } else {
      WithCrc(env, crcType, items, body);
    }
  }

  lemma NoCrcField(env: Env, body: seq<byte>)
    ensures CrcField(env, 0, body) == []
  {
  }

  lemma WithCrc(env: Env, crcType: u64, items: seq<Item>, body: seq<byte>)
    requires 1 <= crcType <= 2 && |items| < 20 && body == Initial(4, |items| + 1) + EncodeAll(items)
    ensures body + CrcField(env, crcType, body) == Encode(List(items + [Octets(Demanded(env, crcType, body))]))
  {
    hide Initial, Encode, EncodeAll, CrcField, Demanded;
    var crc := Octets(Demanded(env, crcType, body));
    CrcFieldIs(env, crcType, body);
    FieldIsShort(crcType);
    FewOctets(crc.data);
    EncodeMore(items, [crc]);
    EncodeList(items + [crc]);
    Assoc(Initial(4, |items| + 1), EncodeAll(items), EncodeAll([crc]));
  }

  lemma FieldIsShort(crcType: u64)
    ensures FieldLen(crcType) < 24
  {
  }

  lemma EncodeFive(a: Item, b: Item, c: Item, d: Item, e: Item)
    ensures EncodeAll([a, b, c, d, e]) == Encode(a) + (Encode(b) + (Encode(c) + (Encode(d) + Encode(e))))
  {
    hide Encode;
    assert [a, b, c, d, e] == [a] + ([b] + ([c] + [d, e]));
    EncodeFirst(a, [b] + ([c] + [d, e]));
    EncodeFirst(b, [c] + [d, e]);
    EncodeFirst(c, [d, e]);
    EncodeTwo(d, e);
  }

  /** Every block is written as such a list of items. */
  lemma BlockForm(env: Env, cb: CanonicalBlock)
    requires WritableBlock(cb)
    ensures BlockBytes(env, cb) == Encode(Protected(env, cb.crcType, BlockItems(cb)))
  {
    hide Head, Initial, Kind, ValueBytes, TypeCode, WritableValue, Protected, EncodeAll, CrcField;
    var n: u64 := if cb.crcType == 0 then 5 else 6;
    HeadIsInitial(ARRAY, n);
    KindForm(cb.value);
    HeadIsInitial(UINT, TypeCode(cb.value));
    HeadIsInitial(UINT, cb.number);
    HeadIsInitial(UINT, cb.flags);
    HeadIsInitial(UINT, cb.crcType);
    HeadIsInitial(BYTE_STRING, |ValueBytes(cb.value)|);
    var v := Kind(cb.value);
    EncodeFive(Number(v.0), Number(cb.number), Number(cb.flags), Number(cb.crcType), Octets(v.1));
    ProtectedForm(env, cb.crcType, BlockItems(cb), BlockBody(cb));
  }

  /* ---- primary blocks and bundles ---- */

  /** Version 7, flags, checksum type, destination, source and report-to, creation timestamp, lifetime,
      and for a fragment, which flag 1 says, its offset and the total length. */
  function PrimaryItems(p: PrimaryBlock): seq<Item>
    requires WritablePrimary(p)
  {
    [Number(7), Number(p.flags), Number(p.crcType)]
    + [EndpointItem(p.destination), EndpointItem(p.source), EndpointItem(p.reportTo)]
    + [List([Number(p.time), Number(p.sequenceNumber)]), Number(p.lifetime)]
    + if p.flags % 2 == 1 then [Number(p.fragmentOffset), Number(p.totalDataLength)] else []
  }

  lemma HeadForm(p: PrimaryBlock, tail: seq<byte>)
    ensures PutHead(p, tail)
         == Initial(4, 8 + (if p.flags % 2 == 1 then 2 else 0) + (if p.crcType == 0 then 0 else 1))
            + (EncodeAll([Number(7), Number(p.flags), Number(p.crcType)]) + tail)
  {
    hide Head, Initial;
    HeadIsInitial(ARRAY, ArrayLen(p));
    HeadIsInitial(UINT, 7);
    HeadIsInitial(UINT, p.flags);
    HeadIsInitial(UINT, p.crcType);
    ThreeItems(Number(7), Number(p.flags), Number(p.crcType), tail);
  }

  lemma EndpointsForm(p: PrimaryBlock, tail: seq<byte>)
    requires WritablePrimary(p)
    ensures PutEndpoints(p, tail)
         == EncodeAll([EndpointItem(p.destination), EndpointItem(p.source), EndpointItem(p.reportTo)]) + tail
  {
    EndpointForms(p);
    ThreeItems(EndpointItem(p.destination), EndpointItem(p.source), EndpointItem(p.reportTo), tail);
    hide Encode, EncodeAll, EndpointBytes, EndpointItem, WritablePrimary;
  }

  lemma ThreeItems(a: Item, b: Item, c: Item, tail: seq<byte>)
    ensures EncodeAll([a, b, c]) + tail == Encode(a) + (Encode(b) + (Encode(c) + tail))
  {
    assert [a, b, c] == [a] + [b, c];
    EncodeFirst(a, [b, c]);
    EncodeTwo(b, c);
    hide Encode, EncodeAll;
    Assoc(Encode(a), Encode(b) + Encode(c), tail);
    Assoc(Encode(b), Encode(c), tail);
  }

  lemma EndpointForms(p: PrimaryBlock)
    requires WritablePrimary(p)
    ensures !p.destination.NoType? && !p.source.NoType? && !p.reportTo.NoType?
    ensures EndpointBytes(p.destination) == Encode(EndpointItem(p.destination))
    ensures EndpointBytes(p.source) == Encode(EndpointItem(p.source))
    ensures EndpointBytes(p.reportTo) == Encode(EndpointItem(p.reportTo))
  {
    EndpointForm(p.destination);
    EndpointForm(p.source);
    EndpointForm(p.reportTo);
  }

  lemma TimesForm(p: PrimaryBlock)
    ensures PutTimes(p, [])
         == EncodeAll([List([Number(p.time), Number(p.sequenceNumber)]), Number(p.lifetime)]
                      + if p.flags % 2 == 1 then [Number(p.fragmentOffset), Number(p.totalDataLength)] else [])
  {
    hide Head, Initial;
    HeadIsInitial(ARRAY, 2);
    HeadIsInitial(UINT, p.time);
    HeadIsInitial(UINT, p.sequenceNumber);
    HeadIsInitial(UINT, p.lifetime);
    HeadIsInitial(UINT, p.fragmentOffset);
    HeadIsInitial(UINT, p.totalDataLength);
    var stamp := List([Number(p.time), Number(p.sequenceNumber)]);
    var fragment: seq<Item> :=
      if p.flags % 2 == 1 then [Number(p.fragmentOffset), Number(p.totalDataLength)] else [];
    EncodeTwo(Number(p.time), Number(p.sequenceNumber));
    EncodeTwo(stamp, Number(p.lifetime));
    EncodeMore([stamp, Number(p.lifetime)], fragment);
    EncodeTwo(Number(p.fragmentOffset), Number(p.totalDataLength));
    var a, b, c, d := Initial(4, 2), Initial(0, p.time), Initial(0, p.sequenceNumber), Initial(0, p.lifetime);
    var f := PutFragment(p, []);
    FragmentForm(p, fragment);
    assert a + (b + (c + (d + f))) == ((a + (b + c)) + d) + f;
  }

  lemma FragmentForm(p: PrimaryBlock, fragment: seq<Item>)
    requires fragment == if p.flags % 2 == 1 then [Number(p.fragmentOffset), Number(p.totalDataLength)] else []
    ensures PutFragment(p, []) == EncodeAll(fragment)
  {
    HeadIsInitial(UINT, p.fragmentOffset);
    HeadIsInitial(UINT, p.totalDataLength);
    hide Head, Initial;
    if p.flags % 2 == 1 {
      EncodeTwo(Number(p.fragmentOffset), Number(p.totalDataLength));
      var x := Initial(0, p.totalDataLength);
      assert x + [] == x;
    }
  }

  lemma PrimaryForm(env: Env, p: PrimaryBlock)
    requires WritablePrimary(p)
    ensures PrimaryBytes(env, p) == Encode(Protected(env, p.crcType, PrimaryItems(p)))
  {
    EndpointForms(p);
    hide PutHead, PutEndpoints, PutTimes, Initial, Encode, EncodeAll, EndpointItem, Protected, CrcField,
         WritablePrimary;
    CrcTypeKnown(p);
    HeadForm(p, PutEndpoints(p, PutTimes(p, [])));
    EndpointsForm(p, PutTimes(p, []));
    TimesForm(p);
    var a := [Number(7), Number(p.flags), Number(p.crcType)];
    var b := [EndpointItem(p.destination), EndpointItem(p.source), EndpointItem(p.reportTo)];
    var c := [List([Number(p.time), Number(p.sequenceNumber)]), Number(p.lifetime)]
             + if p.flags % 2 == 1 then [Number(p.fragmentOffset), Number(p.totalDataLength)] else [];
    ThreeParts(a, b, c);
    assert PrimaryItems(p) == a + b + c by { Regrouped(p); }
    ProtectedForm(env, p.crcType, a + b + c, PutBody(p, []));
  }

  lemma Regrouped(p: PrimaryBlock)
    requires WritablePrimary(p)
    ensures !p.destination.NoType? && !p.source.NoType? && !p.reportTo.NoType?
    ensures PrimaryItems(p)
         == [Number(7), Number(p.flags), Number(p.crcType)]
            + [EndpointItem(p.destination), EndpointItem(p.source), EndpointItem(p.reportTo)]
            + ([List([Number(p.time), Number(p.sequenceNumber)]), Number(p.lifetime)]
               + if p.flags % 2 == 1 then [Number(p.fragmentOffset), Number(p.totalDataLength)] else [])
  {
    hide EndpointItem, Fits;
    var x := [Number(7), Number(p.flags), Number(p.crcType)]
             + [EndpointItem(p.destination), EndpointItem(p.source), EndpointItem(p.reportTo)];
    var y := [List([Number(p.time), Number(p.sequenceNumber)]), Number(p.lifetime)];
    var z: seq<Item> := if p.flags % 2 == 1 then [Number(p.fragmentOffset), Number(p.totalDataLength)] else [];
    assert x + y + z == x + (y + z);
  }

  lemma ThreeParts(a: seq<Item>, b: seq<Item>, c: seq<Item>)
    ensures EncodeAll(a + b + c) == EncodeAll(a) + (EncodeAll(b) + EncodeAll(c))
  {
    hide EncodeAll;
    EncodeMore(a + b, c);
    EncodeMore(a, b);
    Assoc(EncodeAll(a), EncodeAll(b), EncodeAll(c));
  }

  lemma CrcTypeKnown(p: PrimaryBlock)
    requires WritablePrimary(p)
    ensures p.crcType <= 2
  {
  }

  /** The items of a bundle: the primary block and the other blocks in their order. */
  function BundleItems(env: Env, b: Bundle): seq<Item>
    requires Writable(b)
  {
    [Protected(env, b.primary.crcType, PrimaryItems(b.primary))] + BlockLists(env, b.blocks)
  }

  function BlockLists(env: Env, blocks: seq<CanonicalBlock>): (items: seq<Item>)
    requires WritableBlocks(blocks)
    ensures |items| == |blocks|
    ensures forall i :: 0 <= i < |blocks| ==> items[i] == Protected(env, blocks[i].crcType, BlockItems(blocks[i]))
  {
    seq(|blocks|, i requires 0 <= i < |blocks| => Protected(env, blocks[i].crcType, BlockItems(blocks[i])))
  }

  lemma {:induction false} BlocksForm(env: Env, blocks: seq<CanonicalBlock>)
    requires WritableBlocks(blocks)
    ensures BlocksBytes(env, blocks) == EncodeAll(BlockLists(env, blocks))
  {
    hide BlockBytes, WritableBlock, Encode, Protected, BlockItems;
    if blocks != [] {
      BlocksForm(env, blocks[1..]);
      BlockForm(env, blocks[0]);
      assert BlockLists(env, blocks)[1..] == BlockLists(env, blocks[1..]);
    }
  }

  /** A marshalled bundle is an indefinite array of these items, closed by the break code. */
  lemma BundleForm(env: Env, b: Bundle)
    requires Writable(b)
    ensures BundleBytes(env, b) == [0x9F] + EncodeAll(BundleItems(env, b)) + [0xFF]
  {
    hide PrimaryBytes, BlocksBytes, WritablePrimary, WritableBlocks, Encode, Protected, BlockLists, PrimaryItems;
    PrimaryForm(env, b.primary);
    BlocksForm(env, b.blocks);
    EncodeFirst(Protected(env, b.primary.crcType, PrimaryItems(b.primary)), BlockLists(env, b.blocks));
    var x, y := PrimaryBytes(env, b.primary), BlocksBytes(env, b.blocks);
    assert [0x9F] + (x + (y + [0xFF])) == [0x9F] + (x + y) + [0xFF];
  }

  /* ---- heads that are read ---- */

  /** Every head is read, the longer forms of small arguments included; the reserved forms and the
      break code are not. */
  lemma HeadRead(s: seq<byte>)
    requires s != []
    ensures s[0] % 32 < 24 ==> ReadHead(s) == Done((s[0] / 32, s[0] % 32), s[1..])
    ensures s[0] % 32 == 24 && |s| >= 2 ==> ReadHead(s) == Done((s[0] / 32, s[1]), s[2..])
    ensures s[0] % 32 == 25 && |s| >= 3 ==>
      var p := ReadHead(s);
      p.Done? && p.value.0 == s[0] / 32 && p.value.1 == 0x100 * (s[1] as int) + s[2] as int && p.rest == s[3..]
    ensures s[0] == 0xFF ==> ReadHead(s) == Broke(s[1..])
    ensures 28 <= s[0] % 32 && s[0] != 0xFF ==> ReadHead(s) == Failed
  {
    if s[0] % 32 == 24 && |s| >= 2 {
      assert s[1..][..1] == [s[1]] && s[1..][1..] == s[2..];
      assert GetBE([]) == 0;
      assert [s[1]][..0] == [];
      assert GetBE([s[1]]) == s[1];
    } else if s[0] % 32 == 25 && |s| >= 3 {
      assert s[1..][..2] == [s[1], s[2]] && s[1..][2..] == s[3..];
      assert [s[1], s[2]][..1] == [s[1]];
      assert [s[1]][..0] == [];
      assert GetBE([s[1]]) == s[1];
    }
  }
}
