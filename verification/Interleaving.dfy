/** A manager that receives the segments of many transfers in any interleaving keeps them apart. */
module Interleaving {
  import opened Bytes
  import opened Messages
  import opened Blocks
  import opened BundleCodec
  import opened Transfer
  import opened TransferRuns

  /** The manager after a stream of segments, up to its first failure, and what it answered. */
  function Feed(env: Env, p: Peer, segments: seq<Message>): (r: (Peer, seq<Message>))
    requires AreSegments(segments)
  {
    if segments == [] then (p, [])
    else
      var (q, out) := Feed(env, p, segments[..|segments| - 1]);
      if q.failed then (q, out)
      else
        var (q', out') := HandleSegment(env, q, segments[|segments| - 1]);
        (q', out + out')
  }

  /** Two managers agree on one transfer. */
  predicate Agree(p: Peer, q: Peer, id: u64) {
    && (id in p.inTransfers <==> id in q.inTransfers)
    && (id in p.inTransfers ==> p.inTransfers[id] == q.inTransfers[id])
    && (id in p.finished <==> id in q.finished)
    && (id in p.finished ==> p.finished[id] == q.finished[id])
  }

  /** What a segment does to its own transfer depends on that transfer alone. */
  lemma OwnEffect(env: Env, p: Peer, m: Message)
    requires m.XferSegment? && !p.failed
    ensures var (p', out) := HandleSegment(env, p, m);
            var id := m.transferId;
            match InSegment(TransferFor(p, id), m)
            case Err =>
              && p'.failed && out == [] && id in p'.inTransfers && p'.inTransfers[id] == TransferFor(p, id)
              && p'.finished == p.finished
            case Ok((t, ack)) =>
              && out == [ack]
              && if t.endFlag && ReadBundle(env, t.buf).Done?
                 then !p'.failed && id !in p'.inTransfers && id in p'.finished && p'.finished[id] == t.buf
                 else p'.failed == t.endFlag && id in p'.inTransfers && p'.inTransfers[id] == t
                      && p'.finished == p.finished
  {
    hide ReadBundle, InSegment, TransferFor;
  }

  lemma SameTransfer(p: Peer, q: Peer, id: u64)
    requires Agree(p, q, id)
    ensures TransferFor(p, id) == TransferFor(q, id)
  {
  }

  lemma HandleAgrees(env: Env, p: Peer, q: Peer, m: Message)
    requires m.XferSegment? && Agree(p, q, m.transferId) && !p.failed && !q.failed
    ensures Agree(HandleSegment(env, p, m).0, HandleSegment(env, q, m).0, m.transferId)
    ensures HandleSegment(env, p, m).1 == HandleSegment(env, q, m).1
    ensures HandleSegment(env, p, m).0.failed == HandleSegment(env, q, m).0.failed
  {
    hide ReadBundle, InSegment, TransferFor, HandleSegment;
    OwnEffect(env, p, m);
    OwnEffect(env, q, m);
    SameTransfer(p, q, m.transferId);
  }

  lemma AnswerIsOwnAck(env: Env, p: Peer, m: Message)
    requires m.XferSegment?
    ensures var out := HandleSegment(env, p, m).1;
            out == [] || (|out| == 1 && out[0].XferAck? && out[0].ackId == m.transferId)
  {
    hide ReadBundle, TransferFor;
  }

  lemma OthersKept(env: Env, p: Peer, m: Message, id: u64)
    requires m.XferSegment? && m.transferId != id
    ensures Agree(HandleSegment(env, p, m).0, p, id)
  {
    hide ReadBundle, TransferFor, InSegment;
    match InSegment(TransferFor(p, m.transferId), m)
    case Err =>
    case Ok(_) =>
  }

  lemma HandleElsewhere(env: Env, p: Peer, m: Message, id: u64)
    requires m.XferSegment? && m.transferId != id
    ensures Agree(HandleSegment(env, p, m).0, p, id)
    ensures Pick(HandleSegment(env, p, m).1, false, id) == []
  {
    hide HandleSegment, Agree;
    OthersKept(env, p, m, id);
    AnswerIsOwnAck(env, p, m);
    var out := HandleSegment(env, p, m).1;
    if out != [] {
      assert out[1..] == [];
    }
  }

  lemma AgreeTransitive(p: Peer, q: Peer, r: Peer, id: u64)
    requires Agree(p, q, id) && Agree(q, r, id)
    ensures Agree(p, r, id)
  {
  }

  lemma AnswersOwn(env: Env, p: Peer, m: Message)
    requires m.XferSegment?
    ensures var out := HandleSegment(env, p, m).1; Pick(out, false, m.transferId) == out
  {
    hide HandleSegment;
    AnswerIsOwnAck(env, p, m);
    var out := HandleSegment(env, p, m).1;
    if out != [] {
      assert out == [out[0]] && out[1..] == [];
    }
  }

  lemma PickSegmentsLast(segments: seq<Message>, id: u64)
    requires AreSegments(segments) && segments != []
    ensures var front, last := segments[..|segments| - 1], segments[|segments| - 1];
            Pick(segments, true, id)
            == if last.transferId == id then Pick(front, true, id) + [last] else Pick(front, true, id)
  {
    var front, last := segments[..|segments| - 1], segments[|segments| - 1];
    assert segments == front + [last];
    PickOne(front, last, true, id);
  }

  /** Interleaved transfers stay apart: as long as the manager does not fail, what it knows of one
      transfer and the acknowledgements it sent for it are those of that transfer's segments alone. */
  lemma {:induction false} InterleavingIsProjection(env: Env, p: Peer, segments: seq<Message>, id: u64)
    requires AreSegments(segments) && !p.failed && !Feed(env, p, segments).0.failed
    ensures AreSegments(Pick(segments, true, id))
    ensures var (q, out) := Feed(env, p, segments);
            var (q', out') := Feed(env, p, Pick(segments, true, id));
            !q'.failed && Agree(q, q', id) && Pick(out, false, id) == out'
    decreases |segments|
  {
    hide HandleSegment, Agree, Pick;
    if segments == [] {
      assert Pick(segments, true, id) == [] && Pick([], false, id) == [] by { PickNothing(id); }
      assert Agree(p, p, id) by { AgreeReflexive(p, id); }
    } else {
      var front, last := segments[..|segments| - 1], segments[|segments| - 1];
      InterleavingIsProjection(env, p, front, id);
      PickSegmentsLast(segments, id);
      var own := Pick(front, true, id);
      var (q, out) := Feed(env, p, front);
      var q' := Feed(env, p, own).0;
      var (r, answer) := HandleSegment(env, q, last);
      PickAppend(out, answer, false, id);
      if last.transferId == id {
        assert (own + [last])[..|own|] == own;
        HandleAgrees(env, q, q', last);
        AnswersOwn(env, q, last);
      } else {
        HandleElsewhere(env, q, last, id);
        AgreeTransitive(r, q, q', id);
        assert Pick(out, false, id) + [] == Pick(out, false, id);
      }
    }
  }

  lemma PickNothing(id: u64)
    ensures Pick([], true, id) == [] && Pick([], false, id) == []
  {
  }

  lemma AgreeReflexive(p: Peer, id: u64)
    ensures Agree(p, p, id)
  {
  }

  /** The acknowledgement of each segment, with the running length. */
  function Answers(segments: seq<Message>): seq<Message>
    requires AreSegments(segments)
  {
    if segments == [] then []
    else
      var last := segments[|segments| - 1];
      Answers(segments[..|segments| - 1]) + [XferAck(last.flags, last.transferId, |DataOf(segments)| % TWO64)]
  }

  /** One transfer's segments, END on none but the last. */
  predicate OneTransfer(segments: seq<Message>, id: u64) {
    && AreSegments(segments)
    && (forall i :: 0 <= i < |segments| ==> segments[i].transferId == id)
    && forall i :: 0 <= i < |segments| - 1 ==> !HasEnd(segments[i].flags)
  }

  /** What a segment does to an open transfer with the octets buf. */
  lemma OpenStep(env: Env, q: Peer, m: Message, buf: seq<byte>)
    requires m.XferSegment? && TransferFor(q, m.transferId) == Incoming(m.transferId, false, buf)
    requires !q.failed && m.transferId !in q.finished
    ensures var (r, out) := HandleSegment(env, q, m); var id := m.transferId;
      && out == [XferAck(m.flags, id, |buf + m.data| % TWO64)]
      && if HasEnd(m.flags)
         then (if ReadBundle(env, buf + m.data).Done?
               then !r.failed && id !in r.inTransfers && id in r.finished && r.finished[id] == buf + m.data
               else r.failed)
         else
           && !r.failed && id !in r.finished
           && id in r.inTransfers && r.inTransfers[id] == Incoming(id, false, buf + m.data)
  {
    hide ReadBundle, HasEnd, TransferFor;
  }

  lemma OpenTransfer(p: Peer, id: u64)
    requires id in p.inTransfers || id !in p.finished
    ensures TransferFor(p, id) == if id in p.inTransfers then p.inTransfers[id] else Incoming(id, false, [])
  {
  }

  /** A transfer's own segments: its octets are their concatenation in order, and its
      acknowledgements are the running lengths. Only a bundle that does not parse makes it fail. */
  lemma {:induction false} OwnSegments(env: Env, p: Peer, segments: seq<Message>, id: u64)
    requires OneTransfer(segments, id) && !p.failed && id !in p.inTransfers && id !in p.finished && segments != []
    ensures var (q, out) := Feed(env, p, segments);
      && out == Answers(segments)
      && if HasEnd(segments[|segments| - 1].flags)
         then (if ReadBundle(env, DataOf(segments)).Done?
               then !q.failed && id !in q.inTransfers && id in q.finished && q.finished[id] == DataOf(segments)
               else q.failed)
         else
           && !q.failed && id !in q.finished
           && id in q.inTransfers && q.inTransfers[id] == Incoming(id, false, DataOf(segments))
    decreases |segments|
  {
    hide ReadBundle, HasEnd, HandleSegment, TransferFor, DataOf;
    var front, last := segments[..|segments| - 1], segments[|segments| - 1];
    assert segments == front + [last];
    DataOfLast(front, last);
    var q := Feed(env, p, front).0;
    if front == [] {
      NoData();
    } else {
      OwnSegments(env, p, front, id);
    }
    OpenTransfer(q, id);
    OpenStep(env, q, last, DataOf(front));
  }

  lemma NoData()
    ensures DataOf([]) == [] && Answers([]) == []
  {
  }
}
