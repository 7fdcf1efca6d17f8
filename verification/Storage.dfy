/** The store of bundles and their parts: a database of items and a directory of files. */
module Storage {
  import opened Bytes
  import opened Blocks
  import opened Primary
  import opened BundleCodec
  import opened Reassembly
  import opened BundleKey

  /** The file name stands for the digest of the identifier's text. */
  datatype BundlePart = BundlePart(filename: seq<byte>, fragmentOffset: u64, totalDataLength: u64)

  datatype BundleItem =
    BundleItem(id: seq<byte>, bid: BundleID, pending: bool, fragmented: bool, parts: seq<BundlePart>)

  datatype State = State(items: map<seq<byte>, BundleItem>, files: map<seq<byte>, seq<byte>>)

  function PartOf(b: Bundle): BundlePart {
    BundlePart(Key(Id(b)), b.primary.fragmentOffset, b.primary.totalDataLength)
  }

  function ItemKey(b: Bundle): seq<byte> { Key(Scrub(Id(b))) }

  /** newBundleItem. */
  function NewBundleItem(b: Bundle): BundleItem {
    BundleItem(ItemKey(b), Scrub(Id(b)), false, IsFragment(b.primary), [PartOf(b)])
  }

  /** A file opened for writing without truncation keeps what lies behind the octets written. */
  function Overwritten(before: seq<byte>, written: seq<byte>): (after: seq<byte>)
    ensures written <= after
  {
    written + if |before| > |written| then before[|written|..] else []
  }

  function FileOf(files: map<seq<byte>, seq<byte>>, name: seq<byte>): seq<byte> {
    if name in files then files[name] else []
  }

  predicate KnownPart(parts: seq<BundlePart>, part: BundlePart) {
    exists i :: 0 <= i < |parts| &&
      parts[i].fragmentOffset == part.fragmentOffset && parts[i].totalDataLength == part.totalDataLength
  }

  /** Whether Push has to write: unknown bundles and new fragments of fragmented ones. */
  predicate IsNews(s: State, b: Bundle) {
    var key := ItemKey(b);
    key in s.items ==>
      IsFragment(b.primary) && s.items[key].fragmented && !KnownPart(s.items[key].parts, PartOf(b))
  }

  /** The store after a successful Push. */
  function Pushed(env: Env, s: State, b: Bundle): State
    requires Writable(b)
  {
    if !IsNews(s, b) then s
    else
      var key, part := ItemKey(b), PartOf(b);
      var item := if key in s.items then s.items[key].(parts := s.items[key].parts + [part]) else NewBundleItem(b);
      State(s.items[key := item],
            s.files[part.filename := Overwritten(FileOf(s.files, part.filename), BundleBytes(env, b))])
  }

  /** BundlePart.Load. */
  function LoadPart(env: Env, files: map<seq<byte>, seq<byte>>, part: BundlePart): Result<Bundle> {
    if part.filename !in files then Err
    else
      match ReadBundle(env, files[part.filename])
      case Done(b, _) => Ok(b)
      case _ => Err
  }

  /** bundleParts. */
  function LoadParts(env: Env, files: map<seq<byte>, seq<byte>>, parts: seq<BundlePart>): (r: Result<seq<Bundle>>)
    ensures r.Ok? ==> |r.value| == |parts|
  {
    if parts == [] then Ok([])
    else
      match (LoadParts(env, files, parts[..|parts| - 1]), LoadPart(env, files, parts[|parts| - 1]))
      case (Ok(bs), Ok(b)) => Ok(bs + [b])
      case _ => Err
  }

  function PartNames(parts: seq<BundlePart>): set<seq<byte>> {
    set i | 0 <= i < |parts| :: parts[i].filename
  }

  /** The store after Delete. */
  function Deleted(s: State, bid: BundleID): State {
    var key := Key(Scrub(bid));
    if key !in s.items then s
    else State(s.items - {key}, s.files - PartNames(s.items[key].parts))
  }

  /** Items are filed under their own identifier. */
  predicate Keyed(s: State) {
    forall k :: k in s.items ==> s.items[k].id == k
  }

  class Store {
    var items: map<seq<byte>, BundleItem>
    var files: map<seq<byte>, seq<byte>>

    function Value(): State
      reads this
    {
      State(items, files)
    }

    constructor ()
      ensures Value() == State(map[], map[]) && Keyed(Value())
    {
      items, files := map[], map[];
    }

    /** QueryId. */
    method QueryId(bid: BundleID) returns (r: Result<BundleItem>)
      ensures r == if Key(Scrub(bid)) in items then Ok(items[Key(Scrub(bid))]) else Err
    {
      var key := Key(Scrub(bid));
      r := if key in items then Ok(items[key]) else Err;
    }

    /** storeBundle: when marshalling fails some octets may have been written. */
    method StoreBundle(env: Env, part: BundlePart, b: Bundle) returns (ok: bool)
      modifies this`files
      ensures ok == Writable(b)
      ensures forall name :: name != part.filename ==> (name in files <==> name in old(files))
      ensures forall name :: name != part.filename && name in files ==> files[name] == old(files)[name]
      ensures ok ==>
        files == old(files)[part.filename := Overwritten(FileOf(old(files), part.filename), BundleBytes(env, b))]
    {
      var before := FileOf(files, part.filename);
      if Writable(b) {
        files := files[part.filename := Overwritten(before, BundleBytes(env, b))];
        ok := true;
      } else {
        var written: seq<byte> := *;
        files := files[part.filename := Overwritten(before, written)];
        ok := false;
      }
    }

    /** The search of Push for a fragment with the same offset and total. */
    static method FindPart(parts: seq<BundlePart>, compPart: BundlePart) returns (knownFragment: bool)
      ensures knownFragment == KnownPart(parts, compPart)
    {
      var i := 0;
      while i < |parts|
        invariant 0 <= i <= |parts|
        invariant !KnownPart(parts[..i], compPart)
      {
        var part := parts[i];
        if part.fragmentOffset == compPart.fragmentOffset && part.totalDataLength == compPart.totalDataLength {
          return true;
        }
        i := i + 1;
      }
      assert parts[..i] == parts;
      knownFragment := false;
    }

    /** Push. */
    method Push(env: Env, b: Bundle) returns (ok: bool)
      requires Keyed(Value())
      modifies this
      ensures Keyed(Value())
      ensures ok == (IsNews(old(Value()), b) ==> Writable(b))
      ensures ok && Writable(b) ==> Value() == Pushed(env, old(Value()), b)
      ensures !IsNews(old(Value()), b) ==> Value() == old(Value())
      ensures !ok ==> items == old(items)
      ensures !ok ==> forall name :: name in old(files) && name != Key(Id(b)) ==>
        name in files && files[name] == old(files)[name]
      ensures ItemKey(b) in old(items) && (!IsFragment(b.primary) || !old(items)[ItemKey(b)].fragmented) ==>
        ok && Value() == old(Value())
      ensures ItemKey(b) !in old(items) && ok ==>
        && ItemKey(b) in items && items[ItemKey(b)].fragmented == IsFragment(b.primary)
        && items[ItemKey(b)].parts
           == [BundlePart(Key(Id(b)), b.primary.fragmentOffset, b.primary.totalDataLength)]
    {
      hide KnownPart, Key, BundleBytes, Writable, Overwritten;
      var bi := NewBundleItem(b);
      var stored := QueryId(Id(b));
      if stored.Err? {
        ok := StoreBundle(env, bi.parts[0], b);
        if ok {
          items := items[bi.id := bi];
        }
      } else if bi.fragmented {
        var item := stored.value;
        if !item.fragmented {
          return true;
        }
        var compPart := bi.parts[0];
        var knownFragment := FindPart(item.parts, compPart);
        if knownFragment {
          return true;
        }
        ok := StoreBundle(env, compPart, b);
        if ok {
          items := items[item.id := item.(parts := item.parts + [compPart])];
        }
      } else {
        return true;
      }
    }

    /** Delete. */
    method Delete(bid: BundleID)
      requires Keyed(Value())
      modifies this
      ensures Keyed(Value())
      ensures Value() == Deleted(old(Value()), bid)
    {
      var stored := QueryId(bid);
      if stored.Ok? {
        var parts := stored.value.parts;
        var i := 0;
        while i < |parts|
          invariant 0 <= i <= |parts|
          invariant files == old(files) - PartNames(parts[..i])
          invariant items == old(items)
        {
          files := files - {parts[i].filename};
          assert PartNames(parts[..i + 1]) == PartNames(parts[..i]) + {parts[i].filename} by { OneMoreName(parts, i); }
          i := i + 1;
        }
        assert parts[..i] == parts;
        items := items - {stored.value.id};
      }
    }

    /** bundleParts: the slice of loaded parts, filled one by one. */
    method BundleParts(env: Env, item: BundleItem) returns (r: Result<seq<Bundle>>)
      ensures r == LoadParts(env, files, item.parts)
    {
      hide LoadPart;
      var bundleParts: seq<Bundle> := [];
      var i := 0;
      while i < |item.parts|
        invariant 0 <= i <= |item.parts|
        invariant LoadParts(env, files, item.parts[..i]) == Ok(bundleParts)
      {
        assert item.parts[..i + 1][..i] == item.parts[..i];
        var b := LoadPart(env, files, item.parts[i]);
        if b.Err? {
          LoadStops(env, files, item.parts, i);
          return Err;
        }
        bundleParts := bundleParts + [b.value];
        i := i + 1;
      }
      assert item.parts[..i] == item.parts;
      r := Ok(bundleParts);
    }

    /** BundleItem.Load, with the order the sort puts the parts into. */
    method Load(env: Env, item: BundleItem) returns (r: Outcome<Bundle>, ghost order: seq<Bundle>)
      requires LoadParts(env, files, item.parts).Ok? ==> AllSized(LoadParts(env, files, item.parts).value)
      ensures LoadParts(env, files, item.parts).Err? ==> r == Error
      ensures LoadParts(env, files, item.parts).Ok? ==>
        && SortedByOffset(order) && multiset(order) == multiset(LoadParts(env, files, item.parts).value)
        && AllSized(order) && r == Reassemble(env, order)
    {
      hide LoadParts, AllSized, Reassemble, SortedByOffset;
      var parts := BundleParts(env, item);
      if parts.Err? {
        return Error, [];
      }
      var bs := new Bundle[|parts.value|](i requires 0 <= i < |parts.value| => parts.value[i]);
      assert bs[..] == parts.value;
      r := ReassembleFragments(env, bs);
      order := bs[..];
    }

    /** BundleItem.IsComplete. */
    method IsComplete(env: Env, item: BundleItem) returns (complete: bool, ghost order: seq<Bundle>)
      requires LoadParts(env, files, item.parts).Ok? ==> AllSized(LoadParts(env, files, item.parts).value)
      ensures !item.fragmented ==> complete
      ensures item.fragmented && LoadParts(env, files, item.parts).Err? ==> !complete
      ensures item.fragmented && LoadParts(env, files, item.parts).Ok? ==>
        && SortedByOffset(order) && multiset(order) == multiset(LoadParts(env, files, item.parts).value)
        && AllSized(order) && complete == Accepts(order)
    {
      hide LoadParts, AllSized, Accepts, SortedByOffset;
      if !item.fragmented {
        return true, [];
      }
      var parts := BundleParts(env, item);
      if parts.Err? {
        return false, [];
      }
      var bs := new Bundle[|parts.value|](i requires 0 <= i < |parts.value| => parts.value[i]);
      assert bs[..] == parts.value;
      complete := IsBundleReassemblable(bs);
      order := bs[..];
    }
  }

  lemma OneMoreName(parts: seq<BundlePart>, i: nat)
    requires i < |parts|
    ensures PartNames(parts[..i + 1]) == PartNames(parts[..i]) + {parts[i].filename}
  {
    var a, b := parts[..i + 1], parts[..i];
    assert a == b + [parts[i]];
    forall n | n in PartNames(a) ensures n in PartNames(b) + {parts[i].filename} {
      var k :| 0 <= k < |a| && a[k].filename == n;
      if k < i { assert b[k].filename == n; }
    }
    forall n | n in PartNames(b) ensures n in PartNames(a) {
      var k :| 0 <= k < |b| && b[k].filename == n;
      assert a[k].filename == n;
    }
    assert a[i].filename in PartNames(a);
  }

  lemma {:induction false} LoadStops(env: Env, files: map<seq<byte>, seq<byte>>, parts: seq<BundlePart>, i: nat)
    requires i < |parts| && LoadParts(env, files, parts[..i + 1]).Err?
    ensures LoadParts(env, files, parts).Err?
    decreases |parts|
  {
    if i + 1 < |parts| {
      assert parts[..|parts| - 1][..i + 1] == parts[..i + 1];
      LoadStops(env, files, parts[..|parts| - 1], i);
    } else {
      assert parts[..i + 1] == parts;
    }
  }
}
