/** Bundle identifiers and the strings the store files bundles under. */
module BundleKey {
  import opened Bytes
  import opened Endpoint
  import opened Blocks
  import opened Primary

  datatype BundleID = BundleID(source: EndpointID, time: u64, sequenceNumber: u64,
                               isFragment: bool, fragmentOffset: u64, totalDataLength: u64)

  /** Bundle.ID. */
  function Id(b: Bundle): BundleID {
    BundleID(b.primary.source, b.primary.time, b.primary.sequenceNumber,
             IsFragment(b.primary), b.primary.fragmentOffset, b.primary.totalDataLength)
  }

  function Scrub(id: BundleID): BundleID {
    BundleID(id.source, id.time, id.sequenceNumber, false, 0, 0)
  }

  /** A dash and a decimal number behind a text. */
  function Dashed(front: seq<byte>, n: u64): seq<byte> {
    front + ([DASH] + Decimal(n))
  }

  /** BundleID.String. */
  function Key(id: BundleID): seq<byte> {
    var whole := Dashed(Dashed(Uri(id.source), id.time), id.sequenceNumber);
    if id.isFragment then Dashed(Dashed(whole, id.fragmentOffset), id.totalDataLength) else whole
  }

  /** Source, time and sequence number, and for a fragment its offset and total, between dashes. */
  lemma KeyText(id: BundleID)
    ensures Key(Scrub(id)) == Uri(id.source) + [0x2D] + Decimal(id.time) + [0x2D] + Decimal(id.sequenceNumber)
    ensures id.isFragment ==>
      Key(id) == Key(Scrub(id)) + [0x2D] + Decimal(id.fragmentOffset) + [0x2D] + Decimal(id.totalDataLength)
    ensures !id.isFragment ==> Key(id) == Key(Scrub(id))
  {
    hide Uri, Decimal;
  }

  lemma LastDash(front: seq<byte>, ds: seq<byte>, front': seq<byte>, ds': seq<byte>)
    requires Digits(ds) && Digits(ds') && front + ([DASH] + ds) == front' + ([DASH] + ds')
    ensures |front| >= |front'|
  {
    var s := front + ([DASH] + ds);
    assert forall k :: |front| < k < |s| ==> s[k] == ds[k - |front| - 1] && Digit(s[k]);
    assert s[|front'|] == DASH;
  }

  /** A text ends in at most one way with a dash and a number. */
  lemma DashedInjective(front: seq<byte>, n: u64, front': seq<byte>, n': u64)
    ensures Dashed(front, n) == Dashed(front', n') <==> front == front' && n == n'
  {
    var s := Dashed(front, n);
    if s == Dashed(front', n') {
      LastDash(front, Decimal(n), front', Decimal(n'));
      LastDash(front', Decimal(n'), front, Decimal(n));
      var k := |front|;
      assert front == s[..k] == front';
      assert Decimal(n) == s[k + 1..] == Decimal(n');
      DecimalRoundTrip(n);
      DecimalRoundTrip(n');
    }
  }

  predicate SameBundle(a: BundleID, b: BundleID)
    requires Valid(a.source) && Valid(b.source)
  {
    Canon(a.source) == Canon(b.source) && a.time == b.time && a.sequenceNumber == b.sequenceNumber
  }

  /** Two scrubbed identifiers print the same key exactly when source, up to its normal form, and
      creation timestamp agree, although a source may itself end in dashes and numbers. */
  lemma ScrubbedKeys(a: BundleID, b: BundleID)
    requires Valid(a.source) && Valid(b.source)
    ensures Key(Scrub(a)) == Key(Scrub(b)) <==> SameBundle(a, b)
  {
    DashedInjective(Dashed(Uri(a.source), a.time), a.sequenceNumber, Dashed(Uri(b.source), b.time), b.sequenceNumber);
    DashedInjective(Uri(a.source), a.time, Uri(b.source), b.time);
    UriInjective(a.source, b.source);
  }

  /** Among fragments of one bundle the full key tells offsets and totals apart. */
  lemma FragmentKeys(a: BundleID, b: BundleID)
    requires Valid(a.source) && Valid(b.source) && a.isFragment && b.isFragment
    ensures Key(a) == Key(b) <==>
            SameBundle(a, b) && a.fragmentOffset == b.fragmentOffset && a.totalDataLength == b.totalDataLength
  {
    var wa, wb := Key(Scrub(a)), Key(Scrub(b));
    DashedInjective(Dashed(wa, a.fragmentOffset), a.totalDataLength, Dashed(wb, b.fragmentOffset), b.totalDataLength);
    DashedInjective(wa, a.fragmentOffset, wb, b.fragmentOffset);
    ScrubbedKeys(a, b);
  }

  /** A fragment prints like a whole bundle exactly when the whole bundle's source ends in the
      fragment's timestamp and its own timestamp is the fragment's offset and total. */
  lemma FragmentAgainstWhole(a: BundleID, b: BundleID)
    requires a.isFragment && !b.isFragment
    ensures Key(a) == Key(b) <==>
            && Uri(b.source) == Key(Scrub(a))
            && b.time == a.fragmentOffset && b.sequenceNumber == a.totalDataLength
  {
    var w := Key(Scrub(a));
    DashedInjective(Dashed(w, a.fragmentOffset), a.totalDataLength, Dashed(Uri(b.source), b.time), b.sequenceNumber);
    DashedInjective(w, a.fragmentOffset, Uri(b.source), b.time);
  }

  /** So keys are unique among scrubbed identifiers only: dtn://n/s-1-2 at 3-4 shares its key with
      the fragment at 3 of 4 octets of dtn://n/s at 1-2. */
  lemma KeysCollide() returns (fragment: BundleID, whole: BundleID)
    ensures fragment == BundleID(Dtn([0x6E], [0x73], false), 1, 2, true, 3, 4)
    ensures whole == BundleID(Dtn([0x6E], [0x73, 0x2D, 0x31, 0x2D, 0x32], false), 3, 4, false, 0, 0)
    ensures Valid(fragment.source) && Valid(whole.source) && !SameBundle(fragment, whole)
    ensures Key(fragment) == Key(whole)
  {
    hide Uri, Decimal, Valid, Canon, Normal, Key;
    var demux, demux' := [0x73], [0x73, 0x2D, 0x31, 0x2D, 0x32];
    fragment := BundleID(Dtn([0x6E], demux, false), 1, 2, true, 3, 4);
    whole := BundleID(Dtn([0x6E], demux', false), 3, 4, false, 0, 0);
    SimpleNode(demux);
    SimpleNode(demux');
    DifferentBundles(fragment, whole);
    SmallNumbers();
    var one, two := [DASH] + Decimal(1), [DASH] + Decimal(2);
    assert demux + one + two == demux';
    UriAppend(demux, one);
    UriAppend(demux + one, two);
    KeyOfStamp(fragment);
    FragmentAgainstWhole(fragment, whole);
  }

  lemma SmallNumbers()
    ensures Decimal(1) == [0x31] && Decimal(2) == [0x32]
  {
  }

  lemma KeyOfStamp(id: BundleID)
    ensures Key(Scrub(id)) == Uri(id.source) + ([DASH] + Decimal(id.time)) + ([DASH] + Decimal(id.sequenceNumber))
  {
  }

  lemma DifferentBundles(a: BundleID, b: BundleID)
    requires Valid(a.source) && Valid(b.source) && a.time != b.time
    ensures !SameBundle(a, b)
  {
  }

  lemma UriAppend(demux: seq<byte>, t: seq<byte>)
    ensures Uri(Dtn([0x6E], demux + t, false)) == Uri(Dtn([0x6E], demux, false)) + t
  {
    Assoc([SLASH], demux, t);
    Assoc([0x6E], [SLASH] + demux, t);
    Assoc([SLASH, SLASH], NodePath([0x6E], demux), t);
    Assoc([COLON], Ssp([0x6E], demux), t);
    Assoc(DTN_SCHEME, [COLON] + Ssp([0x6E], demux), t);
  }

  /** Any demux part free of newlines makes a valid endpoint of the node n. */
  lemma SimpleNode(demux: seq<byte>)
    requires NEWLINE !in demux
    ensures Valid(Dtn([0x6E], demux, false)) && Normal(Dtn([0x6E], demux, false))
  {
    var e := Dtn([0x6E], demux, false);
    var ssp := Ssp([0x6E], demux);
    assert Uri(e)[..4] == DTN_SCHEME + [COLON];
    assert Uri(e)[4..] == ssp;
    SimplePath(demux);
    assert ssp[2..] == NodePath([0x6E], demux);
    assert ssp[0] == SLASH;
  }

  lemma SimplePath(demux: seq<byte>)
    requires NEWLINE !in demux
    ensures ParsePath(NodePath([0x6E], demux)).Ok?
  {
    var path := NodePath([0x6E], demux);
    SpanUnique(path, NodeChar, 1);
    assert path[2..] == demux;
  }
}
