/** What the store holds after any run of pushes: one part per distinct fragment, complete exactly
    when every fragment has arrived, and then the bundle of the fragmentation round trip. */
module StorageRuns {
  import opened Bytes
  import Endpoint
  import opened Blocks
  import opened Primary
  import opened BundleCodec
  import opened BlockList
  import opened Fragmentation
  import opened MtuBound
  import opened Reassembly
  import opened Coverage
  import opened RoundTrip
  import opened BundleKey
  import opened Storage

  predicate AllWritable(bs: seq<Bundle>) {
    forall i :: 0 <= i < |bs| ==> Writable(bs[i])
  }

  function PushAll(env: Env, s: State, pushed: seq<Bundle>): State
    requires AllWritable(pushed)
  {
    if pushed == [] then s else Pushed(env, PushAll(env, s, pushed[..|pushed| - 1]), pushed[|pushed| - 1])
  }

  predicate NoRepeats(bs: seq<Bundle>) {
    forall i, j :: 0 <= i < j < |bs| ==> bs[i] != bs[j]
  }

  /** The distinct members of bs among the pushed bundles, in the order of their first arrival. */
  function Arrived(bs: seq<Bundle>, pushed: seq<Bundle>): (r: seq<Bundle>)
    ensures NoRepeats(r)
    ensures forall f :: f in r <==> f in bs && f in pushed
  {
    if pushed == [] then []
    else
      var front, last := Arrived(bs, pushed[..|pushed| - 1]), pushed[|pushed| - 1];
      assert forall f :: f in pushed <==> f in pushed[..|pushed| - 1] || f == last;
      if last in bs && last !in front then front + [last] else front
  }

  function PartsOf(bs: seq<Bundle>): (parts: seq<BundlePart>)
    ensures |parts| == |bs| && forall i :: 0 <= i < |bs| ==> parts[i] == PartOf(bs[i])
  {
    hide PartOf;
    if bs == [] then [] else PartsOf(bs[..|bs| - 1]) + [PartOf(bs[|bs| - 1])]
  }

  /** Fragments of the bundle with the scrubbed identifier id, in strict offset order. */
  predicate FragmentsOf(bs: seq<Bundle>, id: BundleID) {
    && Endpoint.Valid(id.source)
    && AllWritable(bs) && StrictlyAscending(bs)
    && forall i :: 0 <= i < |bs| ==> IsFragment(bs[i].primary) && Scrub(Id(bs[i])) == id
  }

  /** A bundle of its own that shares no file name with the fragments. */
  predicate Foreign(b: Bundle, bs: seq<Bundle>, id: BundleID) {
    ItemKey(b) != Key(id) && forall i :: 0 <= i < |bs| ==> Key(Id(b)) != Key(Id(bs[i]))
  }

  /** A run that pushes fragments from bs, repeated and in any order, between other bundles. */
  predicate Run(pushed: seq<Bundle>, bs: seq<Bundle>, id: BundleID) {
    AllWritable(pushed) && forall i :: 0 <= i < |pushed| ==> pushed[i] in bs || Foreign(pushed[i], bs, id)
  }

  /** Each fragment has a file that starts with it. */
  predicate Filed(env: Env, files: map<seq<byte>, seq<byte>>, arrived: seq<Bundle>)
    requires AllWritable(arrived)
  {
    forall i :: 0 <= i < |arrived| ==>
      Key(Id(arrived[i])) in files && BundleBytes(env, arrived[i]) <= files[Key(Id(arrived[i]))]
  }

  /** What the store knows about the bundle when these fragments have arrived. */
  predicate Recorded(env: Env, s: State, key: seq<byte>, arrived: seq<Bundle>)
    requires AllWritable(arrived)
  {
    && (key in s.items <==> arrived != [])
    && (arrived != [] ==> s.items[key].fragmented && s.items[key].parts == PartsOf(arrived))
    && Filed(env, s.files, arrived)
  }

  lemma SameOffset(bs: seq<Bundle>, f: Bundle, g: Bundle)
    requires StrictlyAscending(bs) && f in bs && g in bs && Offset(f) == Offset(g)
    ensures f == g
  {
    var i :| 0 <= i < |bs| && bs[i] == f;
    var j :| 0 <= j < |bs| && bs[j] == g;
    assert i == j;
  }

  lemma DifferentFiles(bs: seq<Bundle>, id: BundleID, f: Bundle, g: Bundle)
    requires FragmentsOf(bs, id) && f in bs && g in bs && f != g
    ensures Key(Id(f)) != Key(Id(g))
  {
    hide Endpoint.Valid, Key, Writable;
    if Offset(f) == Offset(g) {
      SameOffset(bs, f, g);
    }
    FragmentKeys(Id(f), Id(g));
  }

  lemma KnownExactly(bs: seq<Bundle>, arrived: seq<Bundle>, f: Bundle)
    requires StrictlyAscending(bs) && f in bs && forall i :: 0 <= i < |arrived| ==> arrived[i] in bs
    ensures KnownPart(PartsOf(arrived), PartOf(f)) <==> f in arrived
  {
    hide PartsOf, Key;
    var parts := PartsOf(arrived);
    if KnownPart(parts, PartOf(f)) {
      var i :| 0 <= i < |parts| && parts[i].fragmentOffset == PartOf(f).fragmentOffset
               && parts[i].totalDataLength == PartOf(f).totalDataLength;
      SameOffset(bs, arrived[i], f);
    }
    if f in arrived {
      var i :| 0 <= i < |arrived| && arrived[i] == f;
      assert parts[i] == PartOf(f);
    }
  }

  lemma PushForeign(env: Env, s: State, bs: seq<Bundle>, id: BundleID, arrived: seq<Bundle>, b: Bundle)
    requires FragmentsOf(bs, id) && Writable(b) && Foreign(b, bs, id)
    requires AllWritable(arrived) && forall i :: 0 <= i < |arrived| ==> arrived[i] in bs
    requires Recorded(env, s, Key(id), arrived)
    ensures Recorded(env, Pushed(env, s, b), Key(id), arrived)
  {
    hide Endpoint.Valid, Key, BundleBytes, Writable, PartsOf, KnownPart;
  }

  lemma PushKnown(env: Env, s: State, bs: seq<Bundle>, id: BundleID, arrived: seq<Bundle>, f: Bundle)
    requires FragmentsOf(bs, id) && f in bs && f in arrived
    requires AllWritable(arrived) && forall i :: 0 <= i < |arrived| ==> arrived[i] in bs
    requires Recorded(env, s, Key(id), arrived)
    ensures Pushed(env, s, f) == s
  {
    hide Endpoint.Valid, Key, BundleBytes, Writable, PartsOf, KnownPart;
    KnownExactly(bs, arrived, f);
  }

  /** What pushing a new fragment writes. */
  lemma PushNewWrites(env: Env, s: State, bs: seq<Bundle>, id: BundleID, arrived: seq<Bundle>, f: Bundle)
    requires FragmentsOf(bs, id) && f in bs && f !in arrived
    requires AllWritable(arrived) && forall i :: 0 <= i < |arrived| ==> arrived[i] in bs
    requires Recorded(env, s, Key(id), arrived)
    ensures Writable(f) && Key(id) in Pushed(env, s, f).items
    ensures var item := Pushed(env, s, f).items[Key(id)];
            item.fragmented && item.parts == PartsOf(arrived) + [PartOf(f)]
    ensures Pushed(env, s, f).files
         == s.files[Key(Id(f)) := Overwritten(FileOf(s.files, Key(Id(f))), BundleBytes(env, f))]
  {
    hide Endpoint.Valid, Key, BundleBytes, Writable, KnownPart, PartsOf, FileOf, Overwritten;
    KnownExactly(bs, arrived, f);
    if arrived == [] {
      assert PartsOf(arrived) == [];
    }
  }

  lemma PushNew(env: Env, s: State, bs: seq<Bundle>, id: BundleID, arrived: seq<Bundle>, f: Bundle)
    requires FragmentsOf(bs, id) && f in bs && f !in arrived
    requires AllWritable(arrived) && forall i :: 0 <= i < |arrived| ==> arrived[i] in bs
    requires Recorded(env, s, Key(id), arrived)
    ensures AllWritable(arrived + [f]) && Recorded(env, Pushed(env, s, f), Key(id), arrived + [f])
  {
    hide Endpoint.Valid, Key, BundleBytes, Writable, Pushed, FileOf, Overwritten, PartsOf, Filed;
    PushNewWrites(env, s, bs, id, arrived, f);
    PartsOfMore(arrived, f);
    forall i | 0 <= i < |arrived| ensures Key(Id(arrived[i])) != Key(Id(f)) {
      DifferentFiles(bs, id, arrived[i], f);
    }
    hide FragmentsOf;
    FiledMore(env, s.files, arrived, f);
  }

  lemma PartsOfMore(arrived: seq<Bundle>, f: Bundle)
    ensures PartsOf(arrived + [f]) == PartsOf(arrived) + [PartOf(f)]
  {
    hide PartOf;
    assert (arrived + [f])[..|arrived|] == arrived;
  }

  lemma FiledMore(env: Env, files: map<seq<byte>, seq<byte>>, arrived: seq<Bundle>, f: Bundle)
    requires AllWritable(arrived) && Writable(f) && Filed(env, files, arrived)
    requires forall i :: 0 <= i < |arrived| ==> Key(Id(arrived[i])) != Key(Id(f))
    ensures AllWritable(arrived + [f])
    ensures Filed(env, files[Key(Id(f)) := Overwritten(FileOf(files, Key(Id(f))), BundleBytes(env, f))], arrived + [f])
  {
    hide Key, Id, BundleBytes, Writable, FileOf, Overwritten;
  }

  /** After any run on a store that does not know the bundle, stale files or not, the item has
      exactly one part for each distinct fragment pushed, and every part's file starts with it. */
  lemma {:induction false} RunRecords(env: Env, s: State, bs: seq<Bundle>, id: BundleID, pushed: seq<Bundle>)
    requires FragmentsOf(bs, id) && Run(pushed, bs, id) && Key(id) !in s.items
    ensures AllWritable(Arrived(bs, pushed))
    ensures Recorded(env, PushAll(env, s, pushed), Key(id), Arrived(bs, pushed))
    decreases |pushed|
  {
    hide Endpoint.Valid, Key, BundleBytes, Writable, PartsOf, Recorded, Pushed, Foreign;
    if pushed == [] {
      NothingRecorded(env, s, Key(id));
    } else {
      var front, last := pushed[..|pushed| - 1], pushed[|pushed| - 1];
      RunRecords(env, s, bs, id, front);
      var arrived, before := Arrived(bs, front), PushAll(env, s, front);
      if last !in bs {
        PushForeign(env, before, bs, id, arrived, last);
      } else if last in arrived {
        PushKnown(env, before, bs, id, arrived, last);
      } else {
        PushNew(env, before, bs, id, arrived, last);
      }
    }
  }

  lemma NothingRecorded(env: Env, s: State, key: seq<byte>)
    requires key !in s.items
    ensures Recorded(env, s, key, [])
  {
  }

  /** Parsing ignores what an overwritten file has behind the bundle. */
  lemma FileLoads(env: Env, f: Bundle, file: seq<byte>)
    requires Writable(f) && NormalBundle(env, f) && ValidBundle(env, f) && BundleBytes(env, f) <= file
    ensures ReadBundle(env, file).Done? && ReadBundle(env, file).value == f
  {
    hide ReadBundle, BundleBytes, Writable, NormalBundle, ValidBundle;
    var bs := BundleBytes(env, f);
    assert file == bs + file[|bs|..];
    BundleRoundTrip(env, f, file[|bs|..]);
  }

  predicate Readable(env: Env, bs: seq<Bundle>) {
    AllWritable(bs) && forall i :: 0 <= i < |bs| ==> NormalBundle(env, bs[i]) && ValidBundle(env, bs[i])
  }

  lemma {:induction false} PartsLoad(env: Env, files: map<seq<byte>, seq<byte>>, arrived: seq<Bundle>)
    requires Readable(env, arrived) && Filed(env, files, arrived)
    ensures LoadParts(env, files, PartsOf(arrived)) == Ok(arrived)
  {
    hide Key, Id, BundleBytes, Writable, NormalBundle, ValidBundle, ReadBundle, PartsOf;
    if arrived != [] {
      var front, last := arrived[..|arrived| - 1], arrived[|arrived| - 1];
      PartsLoad(env, files, front);
      PartsOfMore(front, last);
      assert PartsOf(arrived)[..|front|] == PartsOf(front);
      FileLoads(env, last, files[Key(Id(last))]);
      assert LoadPart(env, files, PartOf(last)) == Ok(last);
      assert front + [last] == arrived;
    }
  }

  /* ---- completeness ---- */

  lemma {:induction false} CountNoRepeats(s: seq<Bundle>, x: Bundle)
    requires NoRepeats(s)
    ensures multiset(s)[x] == if x in s then 1 else 0
  {
    if s != [] {
      var front, last := s[..|s| - 1], s[|s| - 1];
      CountNoRepeats(front, x);
      assert s == front + [last];
    }
  }

  lemma SameMembers(a: seq<Bundle>, b: seq<Bundle>)
    requires NoRepeats(a) && NoRepeats(b) && forall x :: x in a <==> x in b
    ensures multiset(a) == multiset(b)
  {
    forall x ensures multiset(a)[x] == multiset(b)[x] {
      CountNoRepeats(a, x);
      CountNoRepeats(b, x);
    }
  }

  /** Two tiles are the same or apart. */
  lemma TilesApart(bs: seq<Bundle>, p: seq<byte>, f: Bundle, g: Bundle)
    requires Tiles(bs, p) && f in bs && g in bs && Offset(f) <= Offset(g)
    ensures SliceOf(f, p) && SliceOf(g, p)
    ensures f == g || Stop(f) <= Offset(g) < Stop(g)
  {
    hide SliceOf, Sized, HasType, PayloadData, Covers;
    var i :| 0 <= i < |bs| && bs[i] == f;
    var j :| 0 <= j < |bs| && bs[j] == g;
    assert i <= j;
  }

  lemma SomeTiles(bs: seq<Bundle>, p: seq<byte>, s: seq<Bundle>)
    requires Tiles(bs, p) && SortedByOffset(s) && forall i :: 0 <= i < |s| ==> s[i] in bs
    ensures SlicesOf(s, p) && NoStepBack(s, p)
  {
    hide Sized, HasType, PayloadData, Covers, Stop;
    forall i | 0 <= i < |s| ensures SliceOf(s[i], p) {
      TilesApart(bs, p, s[i], s[i]);
    }
    forall i | 0 < i < |s| ensures Stop(s[i - 1]) <= Stop(s[i]) {
      TilesApart(bs, p, s[i - 1], s[i]);
    }
  }

  lemma AllTilesCover(bs: seq<Bundle>, p: seq<byte>, s: seq<Bundle>)
    requires Tiles(bs, p) && SlicesOf(s, p) && forall f :: f in bs ==> f in s
    ensures Covers(s, p)
  {
    hide Sized, HasType, PayloadData;
    forall x | 0 <= x < |p| ensures Covered(x, s, p) {
      assert Covered(x, bs, p);
      var i :| 0 <= i < |bs| && CoveredBy(x, bs[i]);
      assert bs[i] in bs;
      var j :| 0 <= j < |s| && s[j] == bs[i];
      assert CoveredBy(x, s[j]);
    }
  }

  lemma CoverNeedsTile(bs: seq<Bundle>, p: seq<byte>, s: seq<Bundle>, k: nat)
    requires Tiles(bs, p) && SlicesOf(s, p) && Covers(s, p) && k < |bs|
    requires forall i :: 0 <= i < |s| ==> s[i] in bs
    ensures bs[k] in s
  {
    hide Sized, HasType, PayloadData;
    var x := Offset(bs[k]);
    assert Offset(bs[k]) < Stop(bs[k]) <= |p| by { StopInside(bs[k], p); }
    assert Covered(x, s, p);
    var i :| 0 <= i < |s| && CoveredBy(x, s[i]);
    TilesApart(bs, p, s[i], bs[k]);
  }

  lemma StopInside(b: Bundle, p: seq<byte>)
    requires SliceOf(b, p)
    ensures Stop(b) <= |p|
  {
  }

  /** Parts of a tiling are accepted exactly when none is missing. */
  lemma CompleteExactly(bs: seq<Bundle>, p: seq<byte>, s: seq<Bundle>)
    requires Tiles(bs, p) && p != [] && SortedByOffset(s) && forall i :: 0 <= i < |s| ==> s[i] in bs
    ensures AllSized(s)
    ensures Accepts(s) <==> forall f :: f in bs ==> f in s
  {
    hide Sized, HasType, PayloadData, SliceOf, Tiles, Covers, NoStepBack, SlicesOf;
    SomeTiles(bs, p, s);
    CoverIsAccepted(s, p);
    if forall f :: f in bs ==> f in s {
      AllTilesCover(bs, p, s);
    }
    if Covers(s, p) {
      forall f | f in bs ensures f in s {
        var k :| 0 <= k < |bs| && bs[k] == f;
        CoverNeedsTile(bs, p, s, k);
      }
    }
  }

  /* ---- the fragments of one bundle ---- */

  lemma PieceIsNormal(env: Env, b: Bundle, i: nat, j: nat)
    requires Sized(b) && ValidBundle(env, b) && NormalBundle(env, b)
    requires HasType(b.blocks, PAYLOAD_TYPE) && i <= j <= |PayloadData(b)|
    ensures NormalBundle(env, Piece(b, i, j))
  {
    hide ValidBundle, FindType, Select, Sized, NormalValue, Endpoint.Normal;
    SizedHasFewBlocks(b);
    FlagIsSet(b.primary.flags);
    var s := Select(b.blocks, i == 0);
    var blocks := Piece(b, i, j).blocks;
    forall k | 0 <= k < |blocks| ensures NormalValue(env, blocks[k].value) {
      if k < |s| {
        assert s[k] in b.blocks;
      } else {
        NormalPayload(env, PiecePayload(b, i, j).value);
      }
    }
  }

  lemma NormalPayload(env: Env, v: ExtensionBlock)
    requires v.Payload?
    ensures NormalValue(env, v)
  {
  }

  /** A bundle that can be cut, marshalled and parsed without loss. */
  predicate Sendable(env: Env, b: Bundle) {
    && Sized(b) && Writable(b) && ValidBundle(env, b) && NormalBundle(env, b)
    && !IsFragment(b.primary)
  }

  predicate CutInto(env: Env, b: Bundle, mtu: int, bs: seq<Bundle>)
    requires Sized(b)
  {
    Fragments(env, b, mtu) == Ok(bs) && |bs| >= 2
  }

  lemma PieceIdentity(env: Env, b: Bundle, i: nat, j: nat)
    requires Sendable(env, b) && HasType(b.blocks, PAYLOAD_TYPE) && i <= j <= |PayloadData(b)|
    ensures Scrub(Id(Piece(b, i, j))) == Scrub(Id(b)) && IsFragment(Piece(b, i, j).primary)
    ensures Writable(Piece(b, i, j)) && NormalBundle(env, Piece(b, i, j))
  {
    hide ValidBundle, FindType, Select, Renumber, Sized, NormalBundle, Writable;
    PieceIsWritable(env, b, i, j);
    PieceIsNormal(env, b, i, j);
    FlagIsSet(b.primary.flags);
  }

  lemma ValidSource(env: Env, b: Bundle)
    requires ValidBundle(env, b)
    ensures Endpoint.Valid(b.primary.source)
  {
  }

  /** The fragments of a bundle meet what the store theorems ask for. */
  lemma FragmentsAreStorable(env: Env, b: Bundle, mtu: int, bs: seq<Bundle>)
    requires Sendable(env, b) && CutInto(env, b, mtu, bs)
    ensures FragmentsOf(bs, Scrub(Id(b))) && Readable(env, bs)
    ensures HasType(b.blocks, PAYLOAD_TYPE) && PayloadData(b) != [] && Tiles(bs, PayloadData(b))
  {
    hide ValidBundle, FindType, Piece, Sized, NormalBundle, Writable, Tiles, PayloadData, Endpoint.Valid, Stop,
         SlicesOf;
    PayloadIsLast(env, b);
    ValidSource(env, b);
    FragmentsTile(env, b, mtu);
    var cuts := FragmentsAreCut(env, b, mtu);
    PiecesAreValid(env, b, mtu, 0);
    forall k | 0 <= k < |bs|
      ensures Writable(bs[k]) && NormalBundle(env, bs[k])
      ensures IsFragment(bs[k].primary) && Scrub(Id(bs[k])) == Scrub(Id(b))
    {
      PieceIdentity(env, b, cuts[k], cuts[k + 1]);
    }
    TilesAscend(bs, PayloadData(b));
  }

  lemma TilesAscend(bs: seq<Bundle>, p: seq<byte>)
    requires Tiles(bs, p)
    ensures StrictlyAscending(bs) && NoRepeats(bs)
  {
    hide Sized, HasType, PayloadData, Covers;
    forall i, j | 0 <= i < j < |bs| ensures Offset(bs[i]) < Offset(bs[j]) {
      assert Offset(bs[i]) < Stop(bs[i]) <= Offset(bs[j]);
    }
  }

  /** The outcome of IsComplete and Load on any order the sort may leave the parts in. */
  lemma StoredOutcome(env: Env, b: Bundle, mtu: int, bs: seq<Bundle>, arrived: seq<Bundle>, order: seq<Bundle>)
    requires Sendable(env, b) && CutInto(env, b, mtu, bs)
    requires NoRepeats(arrived) && forall i :: 0 <= i < |arrived| ==> arrived[i] in bs
    requires SortedByOffset(order) && multiset(order) == multiset(arrived)
    ensures HasType(b.blocks, PAYLOAD_TYPE) && AllSized(order)
    ensures Accepts(order) <==> forall f :: f in bs ==> f in arrived
    ensures Accepts(order) ==> Reassemble(env, order) == Value(Restored(b))
    ensures !Accepts(order) ==> Reassemble(env, order) == Error
  {
    hide ValidBundle, FindType, Sized, NormalBundle, Writable, Tiles, PayloadData, Restored, Fragments, Accepts,
         Rebuilt, Merge;
    FragmentsAreStorable(env, b, mtu, bs);
    forall x ensures x in order <==> x in arrived {
      assert x in order <==> x in multiset(order);
      assert x in arrived <==> x in multiset(arrived);
    }
    forall i | 0 <= i < |order| ensures order[i] in bs {
      assert order[i] in arrived;
    }
    CompleteExactly(bs, PayloadData(b), order);
    if Accepts(order) {
      TilesAscend(bs, PayloadData(b));
      SameMembers(arrived, bs);
      FragmentsReassemble(env, b, mtu, order);
    }
  }

  /** Pushing a run into a new store, in which at least one fragment occurs. */
  method StoreRun(env: Env, b: Bundle, mtu: int, bs: seq<Bundle>, pushed: seq<Bundle>)
    returns (store: Store, item: BundleItem, complete: bool, r: Outcome<Bundle>)
    requires Sendable(env, b) && CutInto(env, b, mtu, bs)
    requires Run(pushed, bs, Scrub(Id(b))) && exists f :: f in bs && f in pushed
    ensures item.parts == PartsOf(Arrived(bs, pushed))
    ensures complete <==> forall f :: f in bs ==> f in pushed
    ensures HasType(b.blocks, PAYLOAD_TYPE)
    ensures complete ==> r == Value(Restored(b))
    ensures !complete ==> r == Error
  {
    hide ValidBundle, FindType, Sized, NormalBundle, Writable, Tiles, PayloadData, Restored, Fragments, Accepts,
         Recorded, Pushed, Key, PartsOf, LoadParts, Reassemble, FragmentsOf, IsNews;
    ghost var id := Scrub(Id(b));
    ghost var empty := State(map[], map[]);
    FragmentsAreStorable(env, b, mtu, bs);
    store := new Store();
    var i := 0;
    while i < |pushed|
      invariant 0 <= i <= |pushed| && Keyed(store.Value())
      invariant store.Value() == PushAll(env, empty, pushed[..i])
    {
      assert pushed[..i + 1][..i] == pushed[..i];
      var ok := store.Push(env, pushed[i]);
      i := i + 1;
    }
    assert pushed[..i] == pushed;
    ghost var arrived := Arrived(bs, pushed);
    RunRecords(env, empty, bs, id, pushed);
    RecordLoads(env, store.Value(), Key(id), bs, arrived);
    var stored := store.QueryId(Id(b));
    item := stored.value;
    ghost var order0, order1;
    ArrivedIsSized(env, b, mtu, bs, arrived);
    complete, order0 := store.IsComplete(env, item);
    StoredOutcome(env, b, mtu, bs, arrived, order0);
    r, order1 := store.Load(env, item);
    StoredOutcome(env, b, mtu, bs, arrived, order1);
  }

  lemma ArrivedIsSized(env: Env, b: Bundle, mtu: int, bs: seq<Bundle>, arrived: seq<Bundle>)
    requires Sendable(env, b) && CutInto(env, b, mtu, bs) && forall i :: 0 <= i < |arrived| ==> arrived[i] in bs
    ensures AllSized(arrived)
  {
    hide ValidBundle, FindType, Sized, NormalBundle, Writable, PayloadData, Fragments, Stop, FragmentsOf;
    FragmentsAreStorable(env, b, mtu, bs);
    forall i | 0 <= i < |arrived| ensures Sized(arrived[i]) {
      TilesApart(bs, PayloadData(b), arrived[i], arrived[i]);
    }
  }

  lemma RecordLoads(env: Env, s: State, key: seq<byte>, bs: seq<Bundle>, arrived: seq<Bundle>)
    requires Readable(env, bs) && arrived != [] && forall i :: 0 <= i < |arrived| ==> arrived[i] in bs
    requires AllWritable(arrived) && Recorded(env, s, key, arrived)
    ensures key in s.items && s.items[key].fragmented && s.items[key].parts == PartsOf(arrived)
    ensures LoadParts(env, s.files, PartsOf(arrived)) == Ok(arrived)
  {
    hide Writable, NormalBundle, ValidBundle, BundleBytes, Key, LoadParts, PartsOf;
    PartsLoad(env, s.files, arrived);
  }

  /* ---- deleting ---- */

  predicate Untouched(s: State, bs: seq<Bundle>, key: seq<byte>) {
    key !in s.items && forall i :: 0 <= i < |bs| ==> Key(Id(bs[i])) !in s.files
  }

  /** Apart from the item and its parts' files the store is as it was. */
  predicate AddsOnly(before: State, after: State, key: seq<byte>, arrived: seq<Bundle>) {
    && after.items - {key} == before.items
    && after.files - PartNames(PartsOf(arrived)) == before.files
  }

  lemma MoreNames(arrived: seq<Bundle>, f: Bundle)
    ensures PartNames(PartsOf(arrived + [f])) == PartNames(PartsOf(arrived)) + {Key(Id(f))}
  {
    hide Key;
    var parts := PartsOf(arrived + [f]);
    assert (arrived + [f])[..|arrived|] == arrived;
    OneMoreName(parts, |arrived|);
    assert parts[..|arrived|] == PartsOf(arrived) && parts[..|arrived| + 1] == parts;
  }

  lemma PushNewAdds(env: Env, s: State, before: State, bs: seq<Bundle>, id: BundleID, arrived: seq<Bundle>, f: Bundle)
    requires FragmentsOf(bs, id) && f in bs && f !in arrived && Untouched(s, bs, Key(id))
    requires AllWritable(arrived) && forall i :: 0 <= i < |arrived| ==> arrived[i] in bs
    requires Recorded(env, before, Key(id), arrived) && AddsOnly(s, before, Key(id), arrived)
    ensures AddsOnly(s, Pushed(env, before, f), Key(id), arrived + [f])
  {
    hide Endpoint.Valid, Key, BundleBytes, Writable, KnownPart, PartsOf, FileOf, Overwritten, PartNames;
    PushNewWrites(env, before, bs, id, arrived, f);
    MoreNames(arrived, f);
    var after := Pushed(env, before, f);
    assert after.items - {Key(id)} == before.items - {Key(id)};
    hide Pushed, Recorded, FragmentsOf;
    var name := Key(Id(f));
    assert name !in s.files;
    assert after.files - (PartNames(PartsOf(arrived)) + {name}) == before.files - PartNames(PartsOf(arrived)) - {name};
  }

  lemma {:induction false} PushesAdd(env: Env, s: State, bs: seq<Bundle>, id: BundleID, pushed: seq<Bundle>)
    requires FragmentsOf(bs, id) && AllWritable(pushed) && (forall i :: 0 <= i < |pushed| ==> pushed[i] in bs)
    requires Untouched(s, bs, Key(id))
    ensures AddsOnly(s, PushAll(env, s, pushed), Key(id), Arrived(bs, pushed))
    decreases |pushed|
  {
    hide Endpoint.Valid, Key, BundleBytes, Writable, PartsOf, Recorded, Pushed, AddsOnly, FragmentsOf;
    if pushed == [] {
      NothingAdded(s, Key(id), bs);
    } else {
      var front, last := pushed[..|pushed| - 1], pushed[|pushed| - 1];
      PushesAdd(env, s, bs, id, front);
      RunRecords(env, s, bs, id, front);
      var arrived, before := Arrived(bs, front), PushAll(env, s, front);
      if last in arrived {
        PushKnown(env, before, bs, id, arrived, last);
      } else {
        PushNewAdds(env, s, before, bs, id, arrived, last);
      }
    }
  }

  lemma NothingAdded(s: State, key: seq<byte>, bs: seq<Bundle>)
    requires Untouched(s, bs, key)
    ensures AddsOnly(s, s, key, [])
  {
    assert PartNames(PartsOf([])) == {};
    assert s.items - {key} == s.items;
    assert s.files - {} == s.files;
  }

  /** Delete undoes any pushes of fragments, down to the files. */
  lemma DeleteUndoesPushes(env: Env, s: State, bs: seq<Bundle>, id: BundleID, pushed: seq<Bundle>)
    requires FragmentsOf(bs, id) && AllWritable(pushed) && (forall i :: 0 <= i < |pushed| ==> pushed[i] in bs)
    requires Untouched(s, bs, Key(id)) && Scrub(id) == id
    ensures Deleted(PushAll(env, s, pushed), id) == s
  {
    hide Endpoint.Valid, Key, BundleBytes, Writable, PartsOf, Pushed, FragmentsOf, PartNames;
    PushesAdd(env, s, bs, id, pushed);
    RunRecords(env, s, bs, id, pushed);
    if pushed != [] {
      assert pushed[0] in Arrived(bs, pushed);
    }
  }

  /* ---- whole bundles ---- */

  /** A whole bundle is stored and counts as complete, but Load, which always reassembles, refuses
      it: only its single part can be loaded. */
  lemma WholeNeverLoads(env: Env, b: Bundle)
    requires Sendable(env, b)
    ensures var s := Pushed(env, State(map[], map[]), b);
      && ItemKey(b) in s.items
      && var item := s.items[ItemKey(b)];
      && !item.fragmented && LoadParts(env, s.files, item.parts) == Ok([b])
      && AllSized([b]) && Reassemble(env, [b]) == Error
  {
    hide ValidBundle, Sized, NormalBundle, Writable, Key, BundleBytes, ReadBundle;
    var s := Pushed(env, State(map[], map[]), b);
    FileLoads(env, b, s.files[Key(Id(b))]);
    assert [PartOf(b)][..0] == [] && [b][..0] == [];
    assert LoadParts(env, s.files, []) == Ok([]);
    assert [] + [b] == [b];
  }
}
