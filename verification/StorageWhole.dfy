/** Whole bundles in the store: a stored whole bundle stays as it is whatever is pushed later, and
    a whole bundle that comes after fragments of it adds nothing. */
module StorageWhole {
  import opened Bytes
  import opened Blocks
  import opened Primary
  import opened BundleCodec
  import opened BundleKey
  import opened Storage
  import opened StorageRuns

  /** Pushed bundles either have the key of b or share neither its key nor its file's name. */
  predicate Beside(pushed: seq<Bundle>, b: Bundle) {
    forall i :: 0 <= i < |pushed| && ItemKey(pushed[i]) != ItemKey(b) ==> Key(Id(pushed[i])) != ItemKey(b)
  }

  /** The name of a file that a bundle under another key may have written. */
  predicate OthersFile(name: seq<byte>, pushed: seq<Bundle>, b: Bundle) {
    exists i :: 0 <= i < |pushed| && ItemKey(pushed[i]) != ItemKey(b) && Key(Id(pushed[i])) == name
  }

  /** t has the whole bundle b with one part and its file, which has b in front of what the file had
      behind that; all other files are those of s, apart from those of bundles under other keys. */
  ghost predicate HoldsWhole(env: Env, s: State, t: State, b: Bundle, pushed: seq<Bundle>)
    requires Writable(b)
  {
    var key, written := ItemKey(b), BundleBytes(env, b);
    && key in t.items && key in t.files
    && var id := BundleID(b.primary.source, b.primary.time, b.primary.sequenceNumber, false, 0, 0);
    && t.items[key] == BundleItem(key, id, false, false,
                                  [BundlePart(key, b.primary.fragmentOffset, b.primary.totalDataLength)])
    && t.files[key] == (if key in s.files && |written| < |s.files[key]| then written + s.files[key][|written|..]
                        else written)
    && forall name :: name != key && !OthersFile(name, pushed, b) ==>
         (name in t.files <==> name in s.files) && (name in s.files ==> t.files[name] == s.files[name])
  }

  /** A fragment that comes to fragments of the same bundle is a new part exactly when no part has both
      its offset and its total length. */
  lemma NewPartExactly(env: Env, s: State, f: Bundle)
    requires Writable(f) && IsFragment(f.primary) && ItemKey(f) in s.items && s.items[ItemKey(f)].fragmented
    ensures var key, o, n := ItemKey(f), f.primary.fragmentOffset, f.primary.totalDataLength;
      var t := PushAll(env, s, [f]);
      if exists i :: 0 <= i < |s.items[key].parts|
                     && s.items[key].parts[i].fragmentOffset == o && s.items[key].parts[i].totalDataLength == n
      then t == s
      else
        && key in t.items && t.items[key].parts == s.items[key].parts + [BundlePart(Key(Id(f)), o, n)]
        && Key(Id(f)) in t.files && BundleBytes(env, f) <= t.files[Key(Id(f))]
  {
    hide Writable, BundleBytes, Key;
    assert [f][..0] == [];
    assert PushAll(env, s, []) == s;
  }

  lemma WholeStored(env: Env, s: State, b: Bundle)
    requires Writable(b) && !IsFragment(b.primary) && ItemKey(b) !in s.items
    ensures HoldsWhole(env, s, PushAll(env, s, [b]), b, [])
  {
    hide Writable, BundleBytes, Dashed;
    assert [b][..0] == [];
    assert PushAll(env, s, []) == s;
    assert Key(Id(b)) == ItemKey(b);
    hide Key;
    var written := BundleBytes(env, b);
    assert written + [] == written;
  }

  lemma OneMorePushed(env: Env, s: State, pushed: seq<Bundle>, last: Bundle)
    requires AllWritable(pushed) && Writable(last)
    ensures AllWritable(pushed + [last])
    ensures PushAll(env, s, pushed + [last]) == Pushed(env, PushAll(env, s, pushed), last)
  {
    hide Pushed, Writable;
    assert (pushed + [last])[..|pushed|] == pushed;
  }

  lemma StaysBesideOne(env: Env, s: State, t: State, b: Bundle, pushed: seq<Bundle>, last: Bundle)
    requires Writable(b) && Writable(last) && Beside(pushed + [last], b) && HoldsWhole(env, s, t, b, pushed)
    ensures HoldsWhole(env, s, Pushed(env, t, last), b, pushed + [last])
  {
    hide Writable, BundleBytes, Key, KnownPart, FileOf, Overwritten;
    var more := pushed + [last];
    assert more[|pushed|] == last;
    forall name | OthersFile(name, pushed, b) ensures OthersFile(name, more, b) {
      var i :| 0 <= i < |pushed| && ItemKey(pushed[i]) != ItemKey(b) && Key(Id(pushed[i])) == name;
      assert more[i] == pushed[i];
    }
  }

  /** Once a whole bundle has been stored, any run of pushes of that bundle, of fragments with its
      key and of bundles under other keys that do not use its file leaves its item, its single part
      and its file as they were, and writes no file but those of the bundles under other keys. */
  lemma {:induction false} WholeStays(env: Env, s: State, b: Bundle, pushed: seq<Bundle>)
    requires Writable(b) && !IsFragment(b.primary) && ItemKey(b) !in s.items
    requires AllWritable(pushed) && Beside(pushed, b)
    ensures AllWritable([b] + pushed) && HoldsWhole(env, s, PushAll(env, s, [b] + pushed), b, pushed)
    decreases |pushed|
  {
    hide Writable, HoldsWhole, Pushed, Key;
    if pushed == [] {
      assert [b] + pushed == [b];
      WholeStored(env, s, b);
    } else {
      var front, last := pushed[..|pushed| - 1], pushed[|pushed| - 1];
      assert pushed == front + [last];
      WholeStays(env, s, b, front);
      assert [b] + pushed == ([b] + front) + [last];
      OneMorePushed(env, s, [b] + front, last);
      StaysBesideOne(env, s, PushAll(env, s, [b] + front), b, front, last);
    }
  }

  /** The run without its whole bundles of this key. */
  function WithoutWhole(pushed: seq<Bundle>, key: seq<byte>): (r: seq<Bundle>)
    ensures forall i :: 0 <= i < |r| ==> r[i] in pushed && (IsFragment(r[i].primary) || ItemKey(r[i]) != key)
  {
    if pushed == [] then []
    else
      var front, last := WithoutWhole(pushed[..|pushed| - 1], key), pushed[|pushed| - 1];
      if !IsFragment(last.primary) && ItemKey(last) == key then front else front + [last]
  }

  lemma ItemsStay(env: Env, s: State, last: Bundle, key: seq<byte>)
    requires Writable(last) && key in s.items
    ensures key in Pushed(env, s, last).items
    ensures !IsFragment(last.primary) && ItemKey(last) == key ==> Pushed(env, s, last) == s
  {
    hide Writable, BundleBytes, Key, KnownPart;
  }

  /** The other way round: when the store has anything under a key, whole bundles of that key may be
      left out of any run. */
  lemma {:induction false} WholeAddsNothing(env: Env, s: State, pushed: seq<Bundle>, key: seq<byte>)
    requires AllWritable(pushed) && key in s.items
    ensures AllWritable(WithoutWhole(pushed, key)) && key in PushAll(env, s, pushed).items
    ensures PushAll(env, s, pushed) == PushAll(env, s, WithoutWhole(pushed, key))
    decreases |pushed|
  {
    hide Writable, Pushed, Key, IsFragment;
    if pushed != [] {
      var front, last := pushed[..|pushed| - 1], pushed[|pushed| - 1];
      WholeAddsNothing(env, s, front, key);
      ItemsStay(env, PushAll(env, s, front), last, key);
      OneMorePushed(env, s, WithoutWhole(front, key), last);
    }
  }

  /** So a whole bundle that arrives after fragments of it, with anything before and after, does not
      make the store complete: what is stored is what is stored without it. */
  lemma WholeAfterFragments(env: Env, s: State, before: seq<Bundle>, b: Bundle, after: seq<Bundle>)
    requires AllWritable(before) && Writable(b) && AllWritable(after) && !IsFragment(b.primary)
    requires ItemKey(b) in PushAll(env, s, before).items
    ensures AllWritable(before + [b] + after) && AllWritable(before + after)
    ensures PushAll(env, s, before + [b] + after) == PushAll(env, s, before + after)
  {
    hide Writable, Pushed, Key, IsFragment;
    OneMorePushed(env, s, before, b);
    ItemsStay(env, PushAll(env, s, before), b, ItemKey(b));
    PushedOneByOne(env, s, before + [b], after);
    PushedOneByOne(env, s, before, after);
  }

  lemma {:induction false} PushedOneByOne(env: Env, s: State, before: seq<Bundle>, after: seq<Bundle>)
    requires AllWritable(before) && AllWritable(after)
    ensures AllWritable(before + after)
    ensures PushAll(env, s, before + after) == PushAll(env, PushAll(env, s, before), after)
    decreases |after|
  {
    hide Writable, Pushed;
    if after == [] {
      assert before + after == before;
    } else {
      var front, last := after[..|after| - 1], after[|after| - 1];
      PushedOneByOne(env, s, before, front);
      assert before + after == (before + front) + [last] && after == front + [last];
      OneMorePushed(env, s, before + front, last);
      OneMorePushed(env, PushAll(env, s, before), front, last);
    }
  }

  /** The methods: a new store that is given a whole bundle and then any such run. */
  method StoreWhole(env: Env, b: Bundle, pushed: seq<Bundle>) returns (store: Store, item: Result<BundleItem>)
    requires Writable(b) && !IsFragment(b.primary) && AllWritable(pushed) && Beside(pushed, b)
    ensures HoldsWhole(env, State(map[], map[]), store.Value(), b, pushed)
    ensures item == Ok(store.items[ItemKey(b)])
  {
    hide Writable, HoldsWhole, Pushed, Key, IsNews, IsFragment;
    ghost var empty := State(map[], map[]);
    store := new Store();
    var ok := store.Push(env, b);
    assert [b][..0] == [];
    assert PushAll(env, empty, []) == empty;
    assert [b] + pushed[..0] == [b];
    var i := 0;
    while i < |pushed|
      invariant 0 <= i <= |pushed| && Keyed(store.Value())
      invariant AllWritable([b] + pushed[..i])
      invariant store.Value() == PushAll(env, empty, [b] + pushed[..i])
    {
      OneMorePushed(env, empty, [b] + pushed[..i], pushed[i]);
      assert [b] + pushed[..i + 1] == ([b] + pushed[..i]) + [pushed[i]];
      ok := store.Push(env, pushed[i]);
      i := i + 1;
    }
    assert pushed[..i] == pushed;
    WholeStays(env, empty, b, pushed);
    WholeIsFiled(env, empty, store.Value(), b, pushed);
    item := store.QueryId(Id(b));
  }

  lemma WholeIsFiled(env: Env, s: State, t: State, b: Bundle, pushed: seq<Bundle>)
    requires Writable(b) && HoldsWhole(env, s, t, b, pushed)
    ensures ItemKey(b) in t.items
  {
  }
}
