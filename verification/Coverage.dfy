/** When fragments of one payload can be put together: acceptance means coverage, and fragments
    whose ends never step back are accepted exactly when they cover the payload, which is then
    what merging gives. */
module Coverage {
  import opened Bytes
  import opened Blocks
  import opened Primary
  import opened BundleCodec
  import opened Fragmentation
  import opened Reassembly

  /** A flagged fragment that holds a slice of payload p and knows its length. */
  predicate SliceOf(b: Bundle, p: seq<byte>) {
    && Sized(b) && HasType(b.blocks, PAYLOAD_TYPE)
    && IsFragment(b.primary)
    && b.primary.totalDataLength == |p|
    && Offset(b) + |PayloadData(b)| <= |p|
    && PayloadData(b) == p[Offset(b)..Offset(b) + |PayloadData(b)|]
  }

  predicate SlicesOf(bs: seq<Bundle>, p: seq<byte>) {
    |p| <= MAX_LEN && forall i :: 0 <= i < |bs| ==> SliceOf(bs[i], p)
  }

  function Stop(b: Bundle): nat
    requires Sized(b) && HasType(b.blocks, PAYLOAD_TYPE)
  {
    Offset(b) + |PayloadData(b)|
  }

  predicate CoveredBy(x: nat, b: Bundle)
    requires Sized(b) && HasType(b.blocks, PAYLOAD_TYPE)
  {
    Offset(b) <= x < Stop(b)
  }

  predicate Covered(x: nat, bs: seq<Bundle>, p: seq<byte>)
    requires SlicesOf(bs, p)
  {
    exists i :: 0 <= i < |bs| && CoveredBy(x, bs[i])
  }

  ghost predicate Covers(bs: seq<Bundle>, p: seq<byte>)
    requires SlicesOf(bs, p)
  {
    forall x :: 0 <= x < |p| ==> Covered(x, bs, p)
  }

  /** No range lies inside another. */
  predicate NoneContained(bs: seq<Bundle>, p: seq<byte>)
    requires SlicesOf(bs, p)
  {
    forall i, j :: 0 <= i < |bs| && 0 <= j < |bs| && i != j ==>
      !(Offset(bs[j]) <= Offset(bs[i]) && Stop(bs[i]) <= Stop(bs[j]))
  }

  /** In the given order, no fragment ends before its predecessor. */
  predicate NoStepBack(bs: seq<Bundle>, p: seq<byte>)
    requires SlicesOf(bs, p)
  {
    forall i :: 0 < i < |bs| ==> Stop(bs[i - 1]) <= Stop(bs[i])
  }

  /** Each fragment starts no later than its predecessor ends, the first at 0. */
  predicate NoGap(bs: seq<Bundle>, p: seq<byte>)
    requires SlicesOf(bs, p)
  {
    && (bs != [] ==> Offset(bs[0]) == 0)
    && forall i :: 0 < i < |bs| ==> Offset(bs[i]) <= Stop(bs[i - 1])
  }

  lemma SlicesAreSized(bs: seq<Bundle>, p: seq<byte>)
    requires SlicesOf(bs, p)
    ensures AllSized(bs)
  {
  }

  /** What the gap check computes for slices of one payload. */
  lemma {:induction false} ChainOfSlices(bs: seq<Bundle>, p: seq<byte>)
    requires SlicesOf(bs, p)
    ensures AllSized(bs)
    ensures ChainEnd(bs).Ok? <==> NoGap(bs, p)
    ensures ChainEnd(bs).Ok? ==> ChainEnd(bs).value == if bs == [] then 0 else Stop(bs[|bs| - 1])
  {
    hide Sized, HasType, PayloadData;
    SlicesAreSized(bs, p);
    if bs != [] {
      var front := bs[..|bs| - 1];
      ChainOfSlices(front, p);
      EndOfSlice(bs[|bs| - 1], p);
      if front != [] { assert front[0] == bs[0]; }
    }
  }

  lemma EndOfSlice(b: Bundle, p: seq<byte>)
    requires SliceOf(b, p) && |p| <= MAX_LEN
    ensures End(b) == Stop(b)
  {
    SmallMod(Stop(b), TWO64);
  }

  lemma AcceptedSlices(bs: seq<Bundle>, p: seq<byte>)
    requires SlicesOf(bs, p)
    ensures AllSized(bs)
    ensures Accepts(bs) <==> bs != [] && NoGap(bs, p) && Stop(bs[|bs| - 1]) == |p|
  {
    hide Sized, HasType, PayloadData;
    ChainOfSlices(bs, p);
  }

  lemma {:induction false} NoGapCovers(bs: seq<Bundle>, p: seq<byte>, x: nat)
    requires SlicesOf(bs, p) && NoGap(bs, p) && bs != [] && x < Stop(bs[|bs| - 1])
    ensures Covered(x, bs, p)
  {
    hide Sized, HasType, PayloadData, Stop;
    var k := |bs| - 1;
    if CoveredBy(x, bs[k]) {
    } else {
      assert x < Offset(bs[k]);
      var front := bs[..k];
      assert k > 0 && front[|front| - 1] == bs[k - 1];
      NoGapCovers(front, p, x);
      var i :| 0 <= i < |front| && CoveredBy(x, front[i]);
      assert CoveredBy(x, bs[i]);
    }
  }

  /** Accepted fragments cover the payload, whatever ranges they have. */
  lemma AcceptedCovers(bs: seq<Bundle>, p: seq<byte>)
    requires SlicesOf(bs, p)
    ensures AllSized(bs)
    ensures Accepts(bs) ==> Covers(bs, p)
  {
    hide Sized, HasType, PayloadData;
    AcceptedSlices(bs, p);
    if Accepts(bs) {
      forall x | 0 <= x < |p| ensures Covered(x, bs, p) {
        NoGapCovers(bs, p, x);
      }
    }
  }

  lemma {:induction false} StopsAscend(bs: seq<Bundle>, p: seq<byte>, i: nat, j: nat)
    requires SlicesOf(bs, p) && NoStepBack(bs, p) && i <= j < |bs|
    ensures Stop(bs[i]) <= Stop(bs[j])
    decreases j - i
  {
    if i < j {
      StopsAscend(bs, p, i, j - 1);
    }
  }

  lemma CoverHasNoGap(bs: seq<Bundle>, p: seq<byte>, k: nat)
    requires SlicesOf(bs, p) && SortedByOffset(bs) && NoStepBack(bs, p) && Covers(bs, p)
    requires 0 < k < |bs|
    ensures Offset(bs[k]) <= Stop(bs[k - 1])
  {
    hide Sized, HasType, PayloadData;
    var x := Stop(bs[k - 1]);
    if x < Offset(bs[k]) {
      assert Covered(x, bs, p);
      var i :| 0 <= i < |bs| && CoveredBy(x, bs[i]);
      if i < k {
        StopsAscend(bs, p, i, k - 1);
      }
    }
  }

  /** In offset order and with ends that never step back, coverage is acceptance. */
  lemma CoverIsAccepted(bs: seq<Bundle>, p: seq<byte>)
    requires SlicesOf(bs, p) && SortedByOffset(bs) && NoStepBack(bs, p) && p != []
    ensures AllSized(bs)
    ensures Accepts(bs) <==> Covers(bs, p)
  {
    hide Sized, HasType, PayloadData;
    AcceptedSlices(bs, p);
    AcceptedCovers(bs, p);
    if Covers(bs, p) {
      assert Covered(0, bs, p);
      forall k | 0 < k < |bs| ensures Offset(bs[k]) <= Stop(bs[k - 1]) {
        CoverHasNoGap(bs, p, k);
      }
      assert Covered(|p| - 1, bs, p);
      var i :| 0 <= i < |bs| && CoveredBy(|p| - 1, bs[i]);
      StopsAscend(bs, p, i, |bs| - 1);
    }
  }

  /** Merging fragments without gaps gives the payload up to the last end, or runs into a slice
      expression out of range as soon as an end steps back. */
  lemma {:induction false} MergeOfSlices(bs: seq<Bundle>, p: seq<byte>)
    requires SlicesOf(bs, p) && NoGap(bs, p)
    ensures AllSized(bs)
    ensures !NoStepBack(bs, p) ==> Merge(bs) == Panic
    ensures NoStepBack(bs, p) ==>
      var stop := if bs == [] then 0 else Stop(bs[|bs| - 1]);
      stop <= |p| && Merge(bs) == Value((p[..stop], stop))
  {
    hide Sized, HasType, PayloadData;
    SlicesAreSized(bs, p);
    if bs != [] {
      var k := |bs| - 1;
      var front, last := bs[..k], bs[k];
      SplitLast(bs, p);
      MergeOfSlices(front, p);
      assert bs == front + [last];
      if NoStepBack(front, p) {
        MergeStep(front, last, p, if k == 0 then 0 else Stop(front[k - 1]));
      }
    }
  }

  lemma SplitLast(bs: seq<Bundle>, p: seq<byte>)
    requires SlicesOf(bs, p) && NoGap(bs, p) && bs != []
    ensures var k := |bs| - 1; var front := bs[..k];
      && SlicesOf(front, p) && NoGap(front, p)
      && Offset(bs[k]) <= (if k == 0 then 0 else Stop(front[k - 1]))
      && (NoStepBack(bs, p) <==> NoStepBack(front, p) && (k > 0 ==> Stop(front[k - 1]) <= Stop(bs[k])))
  {
    hide Sized, HasType, PayloadData, SliceOf;
    assert forall i :: 0 <= i < |bs| - 1 ==> bs[..|bs| - 1][i] == bs[i];
  }

  lemma ExtendPrefix(p: seq<byte>, start: nat, index: nat, stop: nat)
    requires start <= index <= stop <= |p|
    ensures p[..index] + p[start..stop][index - start..] == p[..stop]
  {
    assert p[start..stop][index - start..] == p[index..stop];
  }

  lemma MergeStep(front: seq<Bundle>, last: Bundle, p: seq<byte>, index: nat)
    requires SliceOf(last, p) && index <= |p| <= MAX_LEN
    requires AllSized(front + [last]) && AllSized(front)
    requires Merge(front) == Value((p[..index], index)) && Offset(last) <= index
    ensures Merge(front + [last]) == if index <= Stop(last) then Value((p[..Stop(last)], Stop(last))) else Panic
  {
    hide Sized, HasType, FindType, PayloadData, ToInt;
    assert (front + [last])[..|front|] == front;
    if index <= Stop(last) {
      ExtendPrefix(p, Offset(last), index, Stop(last));
    }
  }

  /** For slices in offset order: they are accepted and merged into data exactly when they cover
      the payload and no end steps back, and the data is then the payload. */
  lemma ReassemblableExactly(bs: seq<Bundle>, p: seq<byte>)
    requires SlicesOf(bs, p) && SortedByOffset(bs) && p != []
    ensures AllSized(bs)
    ensures Accepts(bs) && Merge(bs).Value? <==> Covers(bs, p) && NoStepBack(bs, p)
    ensures Accepts(bs) && Merge(bs).Value? ==> Merge(bs).value.0 == p
    ensures Accepts(bs) && !NoStepBack(bs, p) ==> Merge(bs) == Panic
  {
    hide Sized, HasType, PayloadData, Covers, NoGap, NoStepBack;
    AcceptedSlices(bs, p);
    AcceptedCovers(bs, p);
    if NoStepBack(bs, p) {
      CoverIsAccepted(bs, p);
    }
    if Accepts(bs) {
      MergeOfSlices(bs, p);
      assert p[..|p|] == p;
    }
  }

  /** When no range lies inside another, no end steps back in offset order. */
  lemma NoneContainedNoStepBack(bs: seq<Bundle>, p: seq<byte>)
    requires SlicesOf(bs, p) && SortedByOffset(bs) && NoneContained(bs, p)
    ensures NoStepBack(bs, p)
  {
    hide Sized, HasType, PayloadData;
  }

  lemma SlicesPermute(a: seq<Bundle>, b: seq<Bundle>, p: seq<byte>)
    requires SlicesOf(a, p) && multiset(a) == multiset(b)
    ensures SlicesOf(b, p)
  {
    forall i | 0 <= i < |b| ensures SliceOf(b[i], p) {
      assert b[i] in multiset(a);
    }
  }

  lemma CoversPermute(a: seq<Bundle>, b: seq<Bundle>, p: seq<byte>)
    requires SlicesOf(a, p) && SlicesOf(b, p) && multiset(a) == multiset(b) && Covers(a, p)
    ensures Covers(b, p)
  {
    hide Sized, HasType, PayloadData;
    forall x | 0 <= x < |p| ensures Covered(x, b, p) {
      assert Covered(x, a, p);
      var i :| 0 <= i < |a| && CoveredBy(x, a[i]);
      assert a[i] in multiset(b);
      var j :| 0 <= j < |b| && b[j] == a[i];
      assert CoveredBy(x, b[j]);
    }
  }

  /** Overlap merge, as the method behaves on any order of its argument: with no range inside
      another, the fragments are reassemblable exactly when they cover the payload, and merging
      the sorted slice then gives the payload. */
  method CheckAndMerge(bs: array<Bundle>, p: seq<byte>) returns (ok: bool, data: Outcome<seq<byte>>)
    requires SlicesOf(bs[..], p) && NoneContained(bs[..], p) && p != []
    modifies bs
    ensures multiset(bs[..]) == multiset(old(bs[..]))
    ensures ok <==> Covers(old(bs[..]), p)
    ensures ok ==> data == Value(p)
  {
    SlicesAreSized(bs[..], p);
    ok := IsBundleReassemblable(bs);
    SlicesPermute(old(bs[..]), bs[..], p);
    NoneContainedPermute(old(bs[..]), bs[..], p);
    NoneContainedNoStepBack(bs[..], p);
    CoverIsAccepted(bs[..], p);
    if ok {
      CoversPermute(bs[..], old(bs[..]), p);
      ReassemblableExactly(bs[..], p);
      data := MergeFragmentPayload(bs[..]);
    } else {
      data := Error;
      if Covers(old(bs[..]), p) {
        CoversPermute(old(bs[..]), bs[..], p);
      }
    }
  }

  lemma NoneContainedPermute(a: seq<Bundle>, b: seq<Bundle>, p: seq<byte>)
    requires SlicesOf(a, p) && SlicesOf(b, p) && multiset(a) == multiset(b) && NoneContained(a, p)
    ensures NoneContained(b, p)
  {
    hide Sized, HasType, PayloadData;
    forall i, j | 0 <= i < |b| && 0 <= j < |b| && i != j
      ensures !(Offset(b[j]) <= Offset(b[i]) && Stop(b[i]) <= Stop(b[j]))
    {
      assert b[i] in multiset(a) && b[j] in multiset(a);
      if b[i] == b[j] {
        RepeatedElement(b, i, j);
        RepeatedPositions(a, b[i]);
      } else {
        var k :| 0 <= k < |a| && a[k] == b[i];
        var l :| 0 <= l < |a| && a[l] == b[j];
        assert k != l;
      }
    }
  }

  lemma RepeatedElement(b: seq<Bundle>, i: nat, j: nat)
    requires i < |b| && j < |b| && i != j && b[i] == b[j]
    ensures multiset(b)[b[i]] >= 2
  {
    var k, l := if i < j then i else j, if i < j then j else i;
    assert b == b[..k] + [b[k]] + b[k + 1..l] + [b[l]] + b[l + 1..];
  }

  lemma {:induction false} RepeatedPositions(a: seq<Bundle>, x: Bundle)
    requires multiset(a)[x] >= 2
    ensures exists k, l :: 0 <= k < l < |a| && a[k] == x && a[l] == x
  {
    assert a == [a[0]] + a[1..];
    if a[0] == x {
      assert x in multiset(a[1..]);
      var l :| 0 <= l < |a[1..]| && a[1..][l] == x;
      assert a[0] == x && a[l + 1] == x;
    } else {
      RepeatedPositions(a[1..], x);
      var k, l :| 0 <= k < l < |a[1..]| && a[1..][k] == x && a[1..][l] == x;
      assert a[k + 1] == x && a[l + 1] == x;
    }
  }
}
