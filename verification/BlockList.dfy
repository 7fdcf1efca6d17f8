/** The list of canonical blocks of one bundle: its order, block numbers, and what adding and
    removing blocks keeps. */
module BlockList {
  import opened Bytes
  import opened Blocks
  import opened BundleCodec

  /** The order of canonicalBlockNumberSort: ascending numbers, number 1 behind all others. */
  predicate Less(a: CanonicalBlock, b: CanonicalBlock) {
    if a.number == 1 then false else if b.number == 1 then true else a.number < b.number
  }

  predicate Sorted(blocks: seq<CanonicalBlock>) {
    forall i, j :: 0 <= i < j < |blocks| ==> !Less(blocks[j], blocks[i])
  }

  function Numbers(blocks: seq<CanonicalBlock>): (s: set<nat>)
    ensures forall n :: n in s <==> exists i :: 0 <= i < |blocks| && blocks[i].number == n
    ensures |s| <= |blocks|
  {
    if blocks == [] then {} else Numbers(blocks[..|blocks| - 1]) + {blocks[|blocks| - 1].number}
  }

  /** The least number from n on that is not taken; each step uses up one taken number. */
  function LeastFree(taken: set<nat>, n: nat): (r: nat)
    ensures n <= r <= n + |taken|
    ensures r !in taken
    ensures forall m :: n <= m < r ==> m in taken
    decreases |taken|
  {
    if n in taken then
      var r := LeastFree(taken - {n}, n + 1);
      assert forall m {:trigger m in taken} :: n <= m < r ==> m == n || m in taken - {n};
      r
    else n
  }

  lemma LeastFreeIs(taken: set<nat>, n: nat, r: nat)
    requires n <= r && r !in taken && forall m :: n <= m < r ==> m in taken
    ensures LeastFree(taken, n) == r
  {
    assert forall m :: n <= m < LeastFree(taken, n) ==> m in taken;
  }

  function FirstNumber(v: ExtensionBlock): nat {
    if TypeCode(v) == PAYLOAD_TYPE then 1 else 2
  }

  /** The number AddExtensionBlock gives to a new block. */
  function NewNumber(blocks: seq<CanonicalBlock>, v: ExtensionBlock): u64
    requires |blocks| <= MAX_LEN
  {
    LeastFree(Numbers(blocks), FirstNumber(v))
  }

  /** A new block goes behind every block that is not greater. */
  function Insert(blocks: seq<CanonicalBlock>, cb: CanonicalBlock): (r: seq<CanonicalBlock>)
    ensures |r| == |blocks| + 1
  {
    if blocks == [] || !Less(cb, blocks[|blocks| - 1]) then blocks + [cb]
    else Insert(blocks[..|blocks| - 1], cb) + [blocks[|blocks| - 1]]
  }

  /** The list after AddExtensionBlock on a sorted list. */
  function Added(blocks: seq<CanonicalBlock>, cb: CanonicalBlock): seq<CanonicalBlock>
    requires |blocks| <= MAX_LEN
  {
    Insert(blocks, cb.(number := NewNumber(blocks, cb.value)))
  }

  /** The position of the first block with a number, or |blocks|. */
  function FindNumber(blocks: seq<CanonicalBlock>, n: u64): (i: nat)
    ensures i <= |blocks|
    ensures i < |blocks| ==> blocks[i].number == n
    ensures forall j :: 0 <= j < i ==> blocks[j].number != n
  {
    if blocks == [] || blocks[0].number == n then 0 else 1 + FindNumber(blocks[1..], n)
  }

  /** The list after RemoveExtensionBlockByBlockNumber. */
  function Removed(blocks: seq<CanonicalBlock>, n: u64): seq<CanonicalBlock> {
    var i := FindNumber(blocks, n);
    if i == |blocks| then blocks else blocks[..i] + blocks[i + 1..]
  }

  /** Numbers are distinct, one payload block has number 1 and stands last, and the other blocks
      have ascending numbers from 2 on. */
  predicate WellNumbered(blocks: seq<CanonicalBlock>) {
    && blocks != []
    && var last := |blocks| - 1;
    && TypeCode(blocks[last].value) == PAYLOAD_TYPE && blocks[last].number == 1
    && (forall i :: 0 <= i < last ==> TypeCode(blocks[i].value) != PAYLOAD_TYPE && blocks[i].number >= 2)
    && (forall i, j :: 0 <= i < j < last ==> blocks[i].number < blocks[j].number)
  }

  lemma WellNumberedIsSorted(blocks: seq<CanonicalBlock>)
    requires WellNumbered(blocks)
    ensures Sorted(blocks) && DistinctNumbers(blocks)
  {
  }

  lemma {:induction false} InsertIsPermutation(blocks: seq<CanonicalBlock>, cb: CanonicalBlock)
    ensures multiset(Insert(blocks, cb)) == multiset(blocks + [cb])
  {
    if blocks != [] && Less(cb, blocks[|blocks| - 1]) {
      var front, last := blocks[..|blocks| - 1], blocks[|blocks| - 1];
      InsertIsPermutation(front, cb);
      assert blocks == front + [last];
    }
  }

  lemma {:induction false} InsertKeepsSorted(blocks: seq<CanonicalBlock>, cb: CanonicalBlock)
    requires Sorted(blocks)
    ensures Sorted(Insert(blocks, cb))
  {
    if blocks != [] && Less(cb, blocks[|blocks| - 1]) {
      var front, last := blocks[..|blocks| - 1], blocks[|blocks| - 1];
      InsertKeepsSorted(front, cb);
      var r := Insert(front, cb);
      forall i | 0 <= i < |r| ensures !Less(last, r[i]) {
        InsertedIsOneOf(front, cb, i);
      }
      SortedSnoc(r, last);
    }
  }

  lemma InsertedIsOneOf(blocks: seq<CanonicalBlock>, cb: CanonicalBlock, i: nat)
    requires i < |Insert(blocks, cb)|
    ensures Insert(blocks, cb)[i] == cb || Insert(blocks, cb)[i] in blocks
  {
    hide Less;
    InsertIsPermutation(blocks, cb);
    assert Insert(blocks, cb)[i] in multiset(blocks + [cb]);
  }

  lemma SortedSnoc(blocks: seq<CanonicalBlock>, cb: CanonicalBlock)
    requires Sorted(blocks) && forall i :: 0 <= i < |blocks| ==> !Less(cb, blocks[i])
    ensures Sorted(blocks + [cb])
  {
    hide Less;
  }

  lemma SortedHeadIsLeast(a: seq<CanonicalBlock>, x: CanonicalBlock)
    requires Sorted(a) && a != [] && x in a
    ensures !Less(x, a[0])
  {
  }

  lemma SortedHeadsAgree(a: seq<CanonicalBlock>, b: seq<CanonicalBlock>)
    requires Sorted(a) && Sorted(b) && multiset(a) == multiset(b) && DistinctNumbers(a) && a != []
    ensures b != [] && a[0] == b[0]
  {
    assert a[0] in multiset(b);
    assert b[0] in multiset(a);
    SortedHeadIsLeast(a, b[0]);
    SortedHeadIsLeast(b, a[0]);
    var i :| 0 <= i < |a| && a[i] == b[0];
    assert a[0].number == a[i].number;
  }

  lemma TailsAgree(a: seq<CanonicalBlock>, b: seq<CanonicalBlock>)
    requires a != [] && b != [] && a[0] == b[0] && multiset(a) == multiset(b)
    ensures multiset(a[1..]) == multiset(b[1..])
  {
    assert a == [a[0]] + a[1..] && b == [b[0]] + b[1..];
    assert multiset(a[1..]) == multiset(a) - multiset{a[0]};
    assert multiset(b[1..]) == multiset(b) - multiset{b[0]};
  }

  /** A list of blocks with distinct numbers has only one sorted order, so it does not matter that
      the program's sort is not stable. */
  lemma {:induction false} SortedOrderIsUnique(a: seq<CanonicalBlock>, b: seq<CanonicalBlock>)
    requires Sorted(a) && Sorted(b) && multiset(a) == multiset(b) && DistinctNumbers(a)
    ensures a == b
  {
    if a == [] {
      assert |multiset(b)| == |b|;
    } else {
      SortedHeadsAgree(a, b);
      TailsAgree(a, b);
      SortedOrderIsUnique(a[1..], b[1..]);
      assert a == [a[0]] + a[1..] && b == [b[0]] + b[1..];
    }
  }

  /* ---- adding and removing ---- */

  /** A block whose number is new lands between the smaller and the larger ones. */
  lemma {:induction false} InsertAt(blocks: seq<CanonicalBlock>, cb: CanonicalBlock) returns (k: nat)
    requires Sorted(blocks)
    ensures k <= |blocks| && Insert(blocks, cb) == blocks[..k] + [cb] + blocks[k..]
    ensures forall i :: 0 <= i < k ==> !Less(cb, blocks[i])
    ensures forall i :: k <= i < |blocks| ==> Less(cb, blocks[i])
  {
    if blocks == [] || !Less(cb, blocks[|blocks| - 1]) {
      k := |blocks|;
      forall i | 0 <= i < |blocks| ensures !Less(cb, blocks[i]) {
        if i < |blocks| - 1 { assert !Less(blocks[|blocks| - 1], blocks[i]); }
      }
    } else {
      var front := blocks[..|blocks| - 1];
      k := InsertAt(front, cb);
      assert blocks == front + [blocks[|blocks| - 1]];
      assert blocks[..k] == front[..k];
      assert blocks[k..] == front[k..] + [blocks[|blocks| - 1]];
    }
  }

  lemma InsertedIsWellNumbered(blocks: seq<CanonicalBlock>, cb: CanonicalBlock, k: nat)
    requires WellNumbered(blocks) && k < |blocks| && TypeCode(cb.value) != PAYLOAD_TYPE && cb.number >= 2
    requires forall i :: 0 <= i < k ==> blocks[i].number < cb.number
    requires forall i :: k <= i < |blocks| - 1 ==> cb.number < blocks[i].number
    ensures WellNumbered(blocks[..k] + [cb] + blocks[k..])
  {
    hide TypeCode;
    var r := blocks[..k] + [cb] + blocks[k..];
    assert r[|r| - 1] == blocks[|blocks| - 1];
    forall i | 0 <= i < |r| - 1 ensures TypeCode(r[i].value) != PAYLOAD_TYPE && r[i].number >= 2 {
      ElementAfterInsert(blocks, cb, k, i);
    }
    forall i, j | 0 <= i < j < |r| - 1 ensures r[i].number < r[j].number {
      ElementAfterInsert(blocks, cb, k, i);
      ElementAfterInsert(blocks, cb, k, j);
    }
  }

  lemma ElementAfterInsert(blocks: seq<CanonicalBlock>, cb: CanonicalBlock, k: nat, i: nat)
    requires k <= |blocks| && i <= |blocks|
    ensures (blocks[..k] + [cb] + blocks[k..])[i] == if i < k then blocks[i] else if i == k then cb else blocks[i - 1]
  {
  }

  lemma InsertPosition(blocks: seq<CanonicalBlock>, cb: CanonicalBlock) returns (k: nat)
    requires WellNumbered(blocks) && cb.number >= 2
    requires forall i :: 0 <= i < |blocks| ==> blocks[i].number != cb.number
    ensures k < |blocks| && Insert(blocks, cb) == blocks[..k] + [cb] + blocks[k..]
    ensures forall i :: 0 <= i < k ==> blocks[i].number < cb.number
    ensures forall i :: k <= i < |blocks| - 1 ==> cb.number < blocks[i].number
  {
    WellNumberedIsSorted(blocks);
    k := InsertAt(blocks, cb);
    assert Less(cb, blocks[|blocks| - 1]);
  }

  lemma InsertKeepsDistinct(blocks: seq<CanonicalBlock>, cb: CanonicalBlock)
    requires Sorted(blocks) && DistinctNumbers(blocks)
    requires forall i :: 0 <= i < |blocks| ==> blocks[i].number != cb.number
    ensures DistinctNumbers(Insert(blocks, cb))
  {
    var k := InsertAt(blocks, cb);
    var r := Insert(blocks, cb);
    assert forall i :: 0 <= i < k ==> r[i] == blocks[i];
    assert r[k] == cb;
    assert forall i :: k < i < |r| ==> r[i] == blocks[i - 1];
  }

  /** On a list in order any sort after appending has the same outcome. */
  lemma SortAfterAppend(blocks: seq<CanonicalBlock>, cb: CanonicalBlock, after: seq<CanonicalBlock>)
    requires Sorted(blocks) && DistinctNumbers(blocks)
    requires forall i :: 0 <= i < |blocks| ==> blocks[i].number != cb.number
    requires Sorted(after) && multiset(after) == multiset(blocks + [cb])
    ensures after == Insert(blocks, cb)
  {
    InsertKeepsSorted(blocks, cb);
    InsertIsPermutation(blocks, cb);
    InsertKeepsDistinct(blocks, cb);
    SortedOrderIsUnique(Insert(blocks, cb), after);
  }

  lemma NewNumberIsFree(blocks: seq<CanonicalBlock>, v: ExtensionBlock)
    requires |blocks| <= MAX_LEN
    ensures forall i :: 0 <= i < |blocks| ==> blocks[i].number != NewNumber(blocks, v)
  {
    assert forall i :: 0 <= i < |blocks| ==> blocks[i].number in Numbers(blocks);
  }

  /** Adding any block but a payload keeps the numbering; the block gets the least free number
      from 2 on. */
  lemma AddKeepsNumbering(blocks: seq<CanonicalBlock>, cb: CanonicalBlock)
    requires WellNumbered(blocks) && |blocks| <= MAX_LEN && TypeCode(cb.value) != PAYLOAD_TYPE
    ensures WellNumbered(Added(blocks, cb))
    ensures var n := NewNumber(blocks, cb.value);
            2 <= n && n !in Numbers(blocks) && forall m :: 2 <= m < n ==> m in Numbers(blocks)
  {
    var new' := cb.(number := NewNumber(blocks, cb.value));
    NewNumberIsFree(blocks, cb.value);
    var k := InsertPosition(blocks, new');
    InsertedIsWellNumbered(blocks, new', k);
  }

  /** Removing any block but the payload keeps the numbering. */
  lemma RemoveKeepsNumbering(blocks: seq<CanonicalBlock>, n: u64)
    requires WellNumbered(blocks) && n != 1
    ensures WellNumbered(Removed(blocks, n))
  {
    hide TypeCode, FindNumber;
    var k := FindNumber(blocks, n);
    if k < |blocks| {
      WithoutOne(blocks, k);
      CutKeepsNumbering(blocks, k, Removed(blocks, n));
    }
  }

  lemma WithoutOne(blocks: seq<CanonicalBlock>, k: nat)
    requires k < |blocks|
    ensures var r := blocks[..k] + blocks[k + 1..];
      && |r| == |blocks| - 1
      && (forall i :: 0 <= i < k ==> r[i] == blocks[i]) && (forall i :: k <= i < |r| ==> r[i] == blocks[i + 1])
  {
  }

  lemma CutKeepsNumbering(blocks: seq<CanonicalBlock>, k: nat, r: seq<CanonicalBlock>)
    requires WellNumbered(blocks) && k < |blocks| && blocks[k].number != 1
    requires |r| == |blocks| - 1
    requires (forall i :: 0 <= i < k ==> r[i] == blocks[i]) && (forall i :: k <= i < |r| ==> r[i] == blocks[i + 1])
    ensures WellNumbered(r)
  {
    hide TypeCode;
    var last := |blocks| - 1;
    assert k < last && r[|r| - 1] == blocks[last];
    forall i | 0 <= i < |r| - 1 ensures TypeCode(r[i].value) != PAYLOAD_TYPE && r[i].number >= 2 {
      assert r[i] == blocks[if i < k then i else i + 1];
    }
    forall i, j | 0 <= i < j < |r| - 1 ensures r[i].number < r[j].number {
      var p, q := if i < k then i else i + 1, if j < k then j else j + 1;
      assert r[i] == blocks[p] && r[j] == blocks[q];
    }
  }

  lemma FindNumberIs(blocks: seq<CanonicalBlock>, n: u64, k: nat)
    requires k < |blocks| && blocks[k].number == n && forall j :: 0 <= j < k ==> blocks[j].number != n
    ensures FindNumber(blocks, n) == k
  {
  }

  lemma RemoveInserted(blocks: seq<CanonicalBlock>, cb: CanonicalBlock, k: nat)
    requires k <= |blocks| && forall i :: 0 <= i < k ==> blocks[i].number != cb.number
    ensures Removed(blocks[..k] + [cb] + blocks[k..], cb.number) == blocks
  {
    hide FindNumber;
    var r := blocks[..k] + [cb] + blocks[k..];
    assert r[k] == cb;
    assert forall j :: 0 <= j < k ==> r[j] == blocks[j];
    FindNumberIs(r, cb.number, k);
    assert r[..k] == blocks[..k] && r[k + 1..] == blocks[k..];
  }

  /** Removing the block just added gives back the list. */
  lemma RemoveUndoesAdd(blocks: seq<CanonicalBlock>, cb: CanonicalBlock)
    requires WellNumbered(blocks) && |blocks| <= MAX_LEN && TypeCode(cb.value) != PAYLOAD_TYPE
    ensures Removed(Added(blocks, cb), NewNumber(blocks, cb.value)) == blocks
  {
    var new' := cb.(number := NewNumber(blocks, cb.value));
    NewNumberIsFree(blocks, cb.value);
    var k := InsertPosition(blocks, new');
    RemoveInserted(blocks, new', k);
  }

  datatype Edit = Add(block: CanonicalBlock) | Remove(number: u64)

  /** The edits of the property: no payload block is added or removed. */
  predicate NonPayloadEdit(e: Edit) {
    match e
    case Add(block) => TypeCode(block.value) != PAYLOAD_TYPE
    case Remove(n) => n != 1
  }

  function Apply(blocks: seq<CanonicalBlock>, e: Edit): (r: seq<CanonicalBlock>)
    requires |blocks| <= MAX_LEN
    ensures |r| <= |blocks| + 1
  {
    match e
    case Add(block) => Added(blocks, block)
    case Remove(n) => Removed(blocks, n)
  }

  function ApplyAll(blocks: seq<CanonicalBlock>, edits: seq<Edit>): (r: seq<CanonicalBlock>)
    requires |blocks| + |edits| <= MAX_LEN
    ensures |r| <= |blocks| + |edits|
  {
    if edits == [] then blocks
    else Apply(ApplyAll(blocks, edits[..|edits| - 1]), edits[|edits| - 1])
  }

  /** Over any sequence of additions and removals the numbering is kept. */
  lemma {:induction false} EditsKeepNumbering(blocks: seq<CanonicalBlock>, edits: seq<Edit>)
    requires WellNumbered(blocks) && |blocks| + |edits| <= MAX_LEN
    requires forall i :: 0 <= i < |edits| ==> NonPayloadEdit(edits[i])
    ensures WellNumbered(ApplyAll(blocks, edits))
  {
    if edits != [] {
      var before := ApplyAll(blocks, edits[..|edits| - 1]);
      EditsKeepNumbering(blocks, edits[..|edits| - 1]);
      match edits[|edits| - 1]
      case Add(block) => AddKeepsNumbering(before, block);
      case Remove(n) => RemoveKeepsNumbering(before, n);
    }
  }

  /* ---- building a list from nothing ---- */

  /** Blocks numbered n, n + 1, ... in their order. */
  function Renumber(blocks: seq<CanonicalBlock>, n: nat): (r: seq<CanonicalBlock>)
    requires n + |blocks| < TWO64
    ensures |r| == |blocks|
    ensures forall i :: 0 <= i < |r| ==> r[i] == blocks[i].(number := n + i)
  {
    if blocks == [] then []
    else Renumber(blocks[..|blocks| - 1], n) + [blocks[|blocks| - 1].(number := n + |blocks| - 1)]
  }

  lemma RenumberedNumbers(blocks: seq<CanonicalBlock>)
    requires |blocks| + 2 < TWO64
    ensures forall m :: m in Numbers(Renumber(blocks, 2)) <==> 2 <= m < |blocks| + 2
  {
    var r := Renumber(blocks, 2);
    forall m | 2 <= m < |blocks| + 2 ensures m in Numbers(r) {
      assert r[m - 2].number == m;
    }
  }

  lemma RenumberedIsSorted(blocks: seq<CanonicalBlock>)
    requires |blocks| + 2 < TWO64
    ensures Sorted(Renumber(blocks, 2)) && DistinctNumbers(Renumber(blocks, 2))
  {
  }

  lemma RenumberSnoc(blocks: seq<CanonicalBlock>, cb: CanonicalBlock)
    requires |blocks| + 3 < TWO64
    ensures Renumber(blocks + [cb], 2) == Renumber(blocks, 2) + [cb.(number := |blocks| + 2)]
  {
    assert (blocks + [cb])[..|blocks|] == blocks;
  }

  lemma InsertLargest(blocks: seq<CanonicalBlock>, cb: CanonicalBlock)
    requires blocks == [] || !Less(cb, blocks[|blocks| - 1])
    ensures Insert(blocks, cb) == blocks + [cb]
  {
  }

  lemma NumbersContinue(blocks: seq<CanonicalBlock>, v: ExtensionBlock)
    requires |blocks| < MAX_LEN && TypeCode(v) != PAYLOAD_TYPE
    ensures NewNumber(Renumber(blocks, 2), v) == |blocks| + 2
  {
    RenumberedNumbers(blocks);
    LeastFreeIs(Numbers(Renumber(blocks, 2)), 2, |blocks| + 2);
  }

  /** Adding one more block behind blocks numbered 2, 3, ... appends it with the next number. */
  lemma AddContinues(blocks: seq<CanonicalBlock>, cb: CanonicalBlock)
    requires |blocks| < MAX_LEN && TypeCode(cb.value) != PAYLOAD_TYPE
    ensures Added(Renumber(blocks, 2), cb) == Renumber(blocks + [cb], 2)
  {
    NumbersContinue(blocks, cb.value);
    InsertLargest(Renumber(blocks, 2), cb.(number := |blocks| + 2));
    RenumberSnoc(blocks, cb);
    hide Renumber, Insert, Numbers, NewNumber;
  }

  /** Adding the payload block last closes the list with number 1. */
  lemma AddPayloadCloses(blocks: seq<CanonicalBlock>, payload: CanonicalBlock)
    requires |blocks| < MAX_LEN && TypeCode(payload.value) == PAYLOAD_TYPE
    ensures Added(Renumber(blocks, 2), payload) == Renumber(blocks, 2) + [payload.(number := 1)]
  {
    hide Renumber, Insert, Numbers;
    RenumberedNumbers(blocks);
    LeastFreeIs(Numbers(Renumber(blocks, 2)), 1, 1);
    InsertLargest(Renumber(blocks, 2), payload.(number := 1));
  }
}
