/** The state of delay-tolerant link state routing: the newest peer data received from each node,
    and the numbering of nodes the shortest-path search needs. */
module Dtlsr {
  import opened Bytes
  import opened Endpoint

  /** DTLSRPeerData. */
  datatype PeerData = PeerData(id: EndpointID, timestamp: u64, peers: map<EndpointID, u64>)

  predicate ShouldReplace(data: PeerData, stored: PeerData) { data.timestamp > stored.timestamp }

  /** The merge of NotifyNewBundle. */
  function Merged(received: map<EndpointID, PeerData>, data: PeerData): map<EndpointID, PeerData> {
    if data.id !in received || ShouldReplace(data, received[data.id]) then received[data.id := data] else received
  }

  function MergedAll(stream: seq<PeerData>): map<EndpointID, PeerData> {
    if stream == [] then map[] else Merged(MergedAll(stream[..|stream| - 1]), stream[|stream| - 1])
  }

  /** Position i has the first of the newest records of its origin. */
  predicate FirstNewest(stream: seq<PeerData>, i: nat)
    requires i < |stream|
  {
    forall j :: 0 <= j < |stream| && stream[j].id == stream[i].id ==>
      stream[j].timestamp <= stream[i].timestamp && (j < i ==> stream[j].timestamp < stream[i].timestamp)
  }

  /** The record kept under an origin is at position i. */
  predicate KeptAt(stream: seq<PeerData>, received: map<EndpointID, PeerData>, id: EndpointID, i: nat) {
    && i < |stream| && stream[i].id == id && FirstNewest(stream, i)
    && id in received && received[id] == stream[i]
  }

  lemma KeptAfter(front: seq<PeerData>, received: map<EndpointID, PeerData>, last: PeerData, id: EndpointID, i: nat)
    returns (k: nat)
    requires KeptAt(front, received, id, i)
    ensures KeptAt(front + [last], Merged(received, last), id, k)
  {
    var stream := front + [last];
    assert forall j :: 0 <= j < |front| ==> stream[j] == front[j];
    k := if last.id == id && ShouldReplace(last, front[i]) then |front| else i;
  }

  /** The record kept for an origin is the first to arrive among those with the largest timestamp,
      and there is one exactly when one has arrived. */
  lemma {:induction false} KeptIsFirstNewest(stream: seq<PeerData>, id: EndpointID)
    ensures id in MergedAll(stream) <==> exists i :: 0 <= i < |stream| && stream[i].id == id
    ensures id in MergedAll(stream) ==> exists i: nat :: KeptAt(stream, MergedAll(stream), id, i)
  {
    hide FirstNewest;
    if stream != [] {
      var front, last := stream[..|stream| - 1], stream[|stream| - 1];
      KeptIsFirstNewest(front, id);
      assert stream == front + [last];
      assert last.id == id ==> stream[|stream| - 1].id == id;
      if id in MergedAll(front) {
        var i: nat :| KeptAt(front, MergedAll(front), id, i);
        var k := KeptAfter(front, MergedAll(front), last, id, i);
      } else {
        assert forall j :: 0 <= j < |front| ==> stream[j] == front[j] && front[j].id != id;
        if last.id == id {
          OnlyOne(stream, id);
        }
      }
    }
  }

  lemma OnlyOne(stream: seq<PeerData>, id: EndpointID)
    requires stream != [] && forall j :: 0 <= j < |stream| ==> (stream[j].id == id <==> j == |stream| - 1)
    requires id !in MergedAll(stream[..|stream| - 1])
    ensures KeptAt(stream, MergedAll(stream), id, |stream| - 1)
  {
  }

  predicate SameStamp(a: PeerData, b: PeerData) { a.id == b.id && a.timestamp == b.timestamp }

  /** A timestamp identifies one record of an origin. */
  predicate Consistent(stream: seq<PeerData>) {
    forall i, j :: 0 <= i < |stream| && 0 <= j < |stream| && SameStamp(stream[i], stream[j]) ==> stream[i] == stream[j]
  }

  lemma SameOrigins(s: seq<PeerData>, t: seq<PeerData>, id: EndpointID)
    requires forall x :: x in s ==> x in t
    ensures id in MergedAll(s) ==> id in MergedAll(t)
  {
    hide MergedAll;
    KeptIsFirstNewest(s, id);
    KeptIsFirstNewest(t, id);
    if id in MergedAll(s) {
      var i :| 0 <= i < |s| && s[i].id == id;
      assert s[i] in t;
    }
  }

  /** Arrival order and repetition do not matter when timestamps identify records: nodes that have
      received the same records have merged them alike. */
  lemma OrderDoesNotMatter(s: seq<PeerData>, t: seq<PeerData>)
    requires Consistent(s) && forall x :: x in s <==> x in t
    ensures MergedAll(s) == MergedAll(t)
  {
    hide MergedAll;
    forall id ensures id in MergedAll(s) <==> id in MergedAll(t) {
      SameOrigins(s, t, id);
      SameOrigins(t, s, id);
    }
    forall id | id in MergedAll(s) ensures MergedAll(s)[id] == MergedAll(t)[id] {
      KeptIsFirstNewest(s, id);
      KeptIsFirstNewest(t, id);
      var i: nat :| KeptAt(s, MergedAll(s), id, i);
      var j: nat :| KeptAt(t, MergedAll(t), id, j);
      assert s[i] in t && t[j] in s;
      var k :| 0 <= k < |t| && t[k] == s[i];
      var l :| 0 <= l < |s| && s[l] == t[j];
      assert s[i].timestamp == s[l].timestamp;
    }
  }

  /** And only then: of two records, either order gives the same exactly when they do not share
      origin and timestamp without being equal. */
  lemma OrderOfTwo(a: PeerData, b: PeerData)
    ensures MergedAll([a, b]) == MergedAll([b, a]) <==> (SameStamp(a, b) ==> a == b)
  {
    MergedTwo(a, b);
    MergedTwo(b, a);
    hide MergedAll;
    if a.id == b.id {
      assert a.id in MergedAll([a, b]) && a.id in MergedAll([b, a]);
    } else {
      assert map[a.id := a, b.id := b] == map[b.id := b, a.id := a];
    }
  }

  lemma MergedTwo(a: PeerData, b: PeerData)
    ensures MergedAll([a, b])
         == if a.id == b.id && !ShouldReplace(b, a) then map[a.id := a] else map[a.id := a][b.id := b]
  {
    assert [a, b][..1] == [a] && [a][..0] == [];
    assert MergedAll([]) == map[];
    assert MergedAll([a]) == Merged(map[], a) == map[a.id := a];
  }

  /* ---- what a node knows ---- */

  /** The nodes that have a number, this node's own peer data, and what it has received. */
  datatype Knowledge = Knowledge(numbered: set<EndpointID>, peers: PeerData, received: map<EndpointID, PeerData>)

  datatype Event = Appear(peer: EndpointID, now: u64) | Disappear(gone: EndpointID, at: u64) | Receive(data: PeerData)

  function Initial(nodeId: EndpointID, now: u64): Knowledge {
    Knowledge({nodeId}, PeerData(nodeId, now, map[]), map[])
  }

  /** The own peer data after a peer has connected, with time 0, or disconnected. */
  function Reported(peers: PeerData, peer: EndpointID, value: u64, now: u64): PeerData {
    PeerData(peers.id, now, peers.peers[peer := value])
  }

  /** Received data that is kept gives numbers to its peers, and new data to its origin. */
  function Received(k: Knowledge, data: PeerData): Knowledge {
    var received := Merged(k.received, data);
    if received == k.received then k
    else
      Knowledge(k.numbered + data.peers.Keys + if data.id in k.received then {} else {data.id}, k.peers, received)
  }

  lemma ReceivedNew(k: Knowledge, data: PeerData)
    requires data.id !in k.received
    ensures Received(k, data)
         == Knowledge(k.numbered + {data.id} + data.peers.Keys, k.peers, k.received[data.id := data])
  {
    assert data.id in k.received[data.id := data];
  }

  lemma ReceivedAgain(k: Knowledge, data: PeerData)
    requires data.id in k.received
    ensures Received(k, data)
         == if ShouldReplace(data, k.received[data.id])
            then Knowledge(k.numbered + data.peers.Keys, k.peers, k.received[data.id := data]) else k
  {
    assert k.received[data.id := data][data.id] == data;
  }

  function After(k: Knowledge, e: Event): Knowledge {
    match e
    case Appear(peer, now) => k.(numbered := k.numbered + {peer}, peers := Reported(k.peers, peer, 0, now))
    case Disappear(peer, now) => k.(peers := Reported(k.peers, peer, now, now))
    case Receive(data) => Received(k, data)
  }

  function AfterAll(k: Knowledge, events: seq<Event>): Knowledge {
    if events == [] then k else After(AfterAll(k, events[..|events| - 1]), events[|events| - 1])
  }

  /** Every own peer has a number. */
  predicate OwnNumbered(k: Knowledge) { k.peers.peers.Keys <= k.numbered }

  lemma {:induction false} AfterAllFront(k: Knowledge, events: seq<Event>, i: nat)
    requires i <= |events|
    ensures AfterAll(k, events[..i]).numbered <= AfterAll(k, events).numbered
    decreases |events|
  {
    var n := |events|;
    if i == n {
      assert events[..i] == events;
    } else {
      AfterAllFront(k, events[..n - 1], i);
      assert events[..n - 1][..i] == events[..i];
    }
  }

  /** The own peers after a run are those of its start and those that appeared or disappeared. */
  lemma {:induction false} OwnPeers(k: Knowledge, events: seq<Event>, e: EndpointID)
    ensures e in AfterAll(k, events).peers.peers <==>
      e in k.peers.peers || exists i :: 0 <= i < |events| && (Appears(events[i], e) || Disappears(events[i], e))
  {
    if events != [] {
      var front, last := events[..|events| - 1], events[|events| - 1];
      OwnPeers(k, front, e);
      assert events == front + [last];
      assert events[|events| - 1] == last;
    }
  }

  predicate Appears(event: Event, e: EndpointID) { event.Appear? && event.peer == e }

  predicate Disappears(event: Event, e: EndpointID) { event.Disappear? && event.gone == e }

  /** The last event about an own peer is at i. */
  predicate LastAbout(events: seq<Event>, e: EndpointID, i: nat) {
    && i < |events| && (Appears(events[i], e) || Disappears(events[i], e))
    && forall j :: i < j < |events| ==> !Appears(events[j], e) && !Disappears(events[j], e)
  }

  /** What a node tells about its own peers after any run: 0 for one that has appeared since, and the
      time for one that has disappeared. */
  lemma {:induction false} OwnValues(k: Knowledge, events: seq<Event>, e: EndpointID, i: nat)
    requires LastAbout(events, e, i)
    ensures var own := AfterAll(k, events).peers;
      && own.id == k.peers.id && e in own.peers
      && own.peers[e] == if events[i].Appear? then 0 else events[i].at
    decreases |events|
  {
    var front, last := events[..|events| - 1], events[|events| - 1];
    OwnId(k, front);
    if i < |front| {
      assert forall j :: 0 <= j < |front| ==> front[j] == events[j];
      OwnValues(k, front, e, i);
      assert !Appears(events[|front|], e) && !Disappears(events[|front|], e);
    }
  }

  lemma {:induction false} OwnId(k: Knowledge, events: seq<Event>)
    ensures AfterAll(k, events).peers.id == k.peers.id
  {
    if events != [] {
      OwnId(k, events[..|events| - 1]);
    }
  }

  /** And the timestamp of what it tells is the time of the last event about any own peer. */
  lemma {:induction false} OwnTimestamp(k: Knowledge, events: seq<Event>, i: nat)
    requires i < |events| && !events[i].Receive? && forall j :: i < j < |events| ==> events[j].Receive?
    ensures AfterAll(k, events).peers.timestamp == if events[i].Appear? then events[i].now else events[i].at
    decreases |events|
  {
    var front := events[..|events| - 1];
    if i < |front| {
      assert forall j :: 0 <= j < |front| ==> front[j] == events[j];
      assert events[|front|].Receive?;
      OwnTimestamp(k, front, i);
    }
  }

  lemma AppearedIsNumbered(k: Knowledge, events: seq<Event>, i: nat)
    requires i < |events| && events[i].Appear?
    ensures events[i].peer in AfterAll(k, events).numbered
  {
    var upTo := events[..i + 1];
    assert upTo[..i] == events[..i] && upTo[i] == events[i];
    assert events[i].peer in AfterAll(k, upTo).numbered;
    AfterAllFront(k, events, i + 1);
  }

  /** After any run of appearing and disappearing peers and received data, every own peer has a
      number exactly when every peer that has disappeared has one. */
  lemma OwnNumberedExactly(nodeId: EndpointID, now: u64, events: seq<Event>)
    ensures OwnNumbered(AfterAll(Initial(nodeId, now), events)) <==>
      forall i :: 0 <= i < |events| && events[i].Disappear? ==>
        events[i].gone in AfterAll(Initial(nodeId, now), events).numbered
  {
    hide AfterAll;
    var k := Initial(nodeId, now);
    var after := AfterAll(k, events);
    if OwnNumbered(after) {
      forall i | 0 <= i < |events| && events[i].Disappear? ensures events[i].gone in after.numbered {
        OwnPeers(k, events, events[i].gone);
        assert Disappears(events[i], events[i].gone);
      }
    }
    if forall i :: 0 <= i < |events| && events[i].Disappear? ==> events[i].gone in after.numbered {
      forall e | e in after.peers.peers ensures e in after.numbered {
        OwnPeers(k, events, e);
        var i :| 0 <= i < |events| && (Appears(events[i], e) || Disappears(events[i], e));
        if Appears(events[i], e) {
          AppearedIsNumbered(k, events, i);
        }
      }
    }
  }

  /** Throughout a run every own peer has a number exactly when each peer had one at the moment it
      disappeared. */
  lemma AlwaysNumberedExactly(nodeId: EndpointID, now: u64, events: seq<Event>)
    ensures (forall j :: 0 <= j <= |events| ==> OwnNumbered(AfterAll(Initial(nodeId, now), events[..j]))) <==>
      forall i :: 0 <= i < |events| && events[i].Disappear? ==>
        events[i].gone in AfterAll(Initial(nodeId, now), events[..i]).numbered
  {
    var k := Initial(nodeId, now);
    if forall j :: 0 <= j <= |events| ==> OwnNumbered(AfterAll(k, events[..j])) {
      forall i | 0 <= i < |events| && events[i].Disappear? ensures events[i].gone in AfterAll(k, events[..i]).numbered {
        assert OwnNumbered(AfterAll(k, events[..i + 1]));
        LastEvent(k, events, i);
      }
    }
    if forall i :: 0 <= i < |events| && events[i].Disappear? ==> events[i].gone in AfterAll(k, events[..i]).numbered {
      forall j | 0 <= j <= |events| ensures OwnNumbered(AfterAll(k, events[..j])) {
        var upTo := events[..j];
        forall i | 0 <= i < |upTo| && upTo[i].Disappear? ensures upTo[i].gone in AfterAll(k, upTo).numbered {
          assert upTo[..i] == events[..i];
          AfterAllFront(k, upTo, i);
        }
        OwnNumberedExactly(nodeId, now, upTo);
      }
    }
  }

  lemma LastEvent(k: Knowledge, events: seq<Event>, i: nat)
    requires i < |events|
    ensures AfterAll(k, events[..i + 1]) == After(AfterAll(k, events[..i]), events[i])
  {
    assert events[..i + 1][..i] == events[..i];
  }

  /** A node that has just started and whose first event is that another peer disappears has an own
      peer without a number. */
  lemma UnknownPeerDisappears(nodeId: EndpointID, peer: EndpointID, now: u64, at: u64)
    requires peer != nodeId
    ensures !OwnNumbered(AfterAll(Initial(nodeId, now), [Disappear(peer, at)]))
  {
    var events := [Disappear(peer, at)];
    assert events[..0] == [];
    var k := After(Initial(nodeId, now), events[0]);
    assert peer in k.peers.peers.Keys && peer !in k.numbered;
  }

  class DTLSR {
    const nodeId: EndpointID
    var peers: PeerData
    var peerChange: bool
    var receivedChange: bool
    var receivedData: map<EndpointID, PeerData>
    var nodeIndex: map<EndpointID, nat>
    var indexNode: seq<EndpointID>
    var length: nat

    /** nodeIndex and indexNode are inverse to each other, with this node at 0. */
    ghost predicate Bijection()
      reads this`nodeIndex, this`indexNode, this`length
    {
      && length == |indexNode| && length > 0 && indexNode[0] == nodeId
      && (forall i :: 0 <= i < length ==> indexNode[i] in nodeIndex && nodeIndex[indexNode[i]] == i)
      && forall e :: e in nodeIndex ==> nodeIndex[e] < length && indexNode[nodeIndex[e]] == e
    }

    /** Every origin of received data and every peer named in it is numbered. */
    ghost predicate CoversReceived()
      reads this`nodeIndex, this`receivedData
    {
      forall id :: id in receivedData ==>
        id in nodeIndex && forall e :: e in receivedData[id].peers ==> e in nodeIndex
    }

    ghost function Knows(): Knowledge
      reads this`nodeIndex, this`peers, this`receivedData
    {
      Knowledge(nodeIndex.Keys, peers, receivedData)
    }

    constructor (nodeId: EndpointID, now: u64)
      ensures this.nodeId == nodeId && Bijection() && CoversReceived()
      ensures Knows() == Initial(nodeId, now)
    {
      this.nodeId := nodeId;
      peers, peerChange, receivedChange := PeerData(nodeId, now, map[]), false, false;
      receivedData, nodeIndex, indexNode, length := map[], map[nodeId := 0], [nodeId], 1;
    }

    /** newNode. */
    method NewNode(id: EndpointID)
      requires Bijection()
      modifies this`nodeIndex, this`indexNode, this`length
      ensures Bijection() && nodeIndex.Keys == old(nodeIndex).Keys + {id}
      ensures indexNode == if id in old(nodeIndex) then old(indexNode) else old(indexNode) + [id]
    {
      if id in nodeIndex {
        return;
      }
      nodeIndex := nodeIndex[id := length];
      indexNode := indexNode + [id];
      length := length + 1;
    }

    /** The loop over a record's peers, in whatever order the map gives them. */
    method TrackPeers(data: PeerData)
      requires Bijection()
      modifies this`nodeIndex, this`indexNode, this`length
      ensures Bijection() && nodeIndex.Keys == old(nodeIndex).Keys + data.peers.Keys
      ensures old(indexNode) <= indexNode
    {
      hide Bijection;
      var left := data.peers.Keys;
      while left != {}
        invariant left <= data.peers.Keys
        invariant Bijection() && old(indexNode) <= indexNode
        invariant nodeIndex.Keys == old(nodeIndex).Keys + (data.peers.Keys - left)
        decreases left
      {
        var node :| node in left;
        NewNode(node);
        left := left - {node};
      }
    }

    lemma CoverExtends(before: map<EndpointID, PeerData>, numbered: set<EndpointID>, data: PeerData)
      requires forall id :: id in before ==> id in numbered && before[id].peers.Keys <= numbered
      requires receivedData == before[data.id := data]
      requires nodeIndex.Keys >= numbered + {data.id} + data.peers.Keys
      ensures CoversReceived()
    {
    }

    /** The branch of NotifyNewBundle for a new origin. */
    method AddData(data: PeerData)
      requires Bijection() && CoversReceived() && data.id !in receivedData
      modifies this`receivedData, this`receivedChange, this`nodeIndex, this`indexNode, this`length
      ensures Bijection() && CoversReceived() && old(indexNode) <= indexNode && receivedChange
      ensures nodeIndex.Keys == old(nodeIndex).Keys + {data.id} + data.peers.Keys
      ensures receivedData == old(receivedData)[data.id := data]
    {
      ghost var before, numbered := receivedData, nodeIndex.Keys;
      assert forall id :: id in before ==> id in numbered && before[id].peers.Keys <= numbered;
      hide Bijection, CoversReceived;
      receivedData := receivedData[data.id := data];
      receivedChange := true;
      NewNode(data.id);
      TrackPeers(data);
      CoverExtends(before, numbered, data);
    }

    /** The branch of NotifyNewBundle for newer data of a known origin. */
    method ReplaceData(data: PeerData)
      requires Bijection() && CoversReceived() && data.id in receivedData
      modifies this`receivedData, this`receivedChange, this`nodeIndex, this`indexNode, this`length
      ensures Bijection() && CoversReceived() && old(indexNode) <= indexNode && receivedChange
      ensures nodeIndex.Keys == old(nodeIndex).Keys + data.peers.Keys
      ensures receivedData == old(receivedData)[data.id := data]
    {
      ghost var before, numbered := receivedData, nodeIndex.Keys;
      assert forall id :: id in before ==> id in numbered && before[id].peers.Keys <= numbered;
      hide Bijection, CoversReceived;
      receivedData := receivedData[data.id := data];
      receivedChange := true;
      TrackPeers(data);
      CoverExtends(before, numbered, data);
    }

    /** NotifyNewBundle, for a bundle with peer data; numbers that were given stay. */
    method NotifyNewBundle(data: PeerData)
      requires Bijection() && CoversReceived()
      modifies this`receivedData, this`receivedChange, this`nodeIndex, this`indexNode, this`length
      ensures Bijection() && CoversReceived() && old(indexNode) <= indexNode
      ensures Knows() == Received(old(Knows()), data)
      ensures receivedChange == (old(receivedChange) || receivedData != old(receivedData))
    {
      hide Bijection, CoversReceived, Received;
      if data.id !in receivedData {
        ReceivedNew(Knows(), data);
        AddData(data);
        assert data.id in receivedData;
      } else {
        ReceivedAgain(Knows(), data);
        if ShouldReplace(data, receivedData[data.id]) {
          ReplaceData(data);
          assert receivedData[data.id] == data;
        }
      }
    }

    /** ReportPeerAppeared. */
    method ReportPeerAppeared(peerID: EndpointID, now: u64)
      requires Bijection() && CoversReceived()
      modifies this`peers, this`peerChange, this`nodeIndex, this`indexNode, this`length
      ensures Bijection() && CoversReceived() && old(indexNode) <= indexNode
      ensures Knows() == After(old(Knows()), Appear(peerID, now)) && peerChange
      ensures peers == PeerData(old(peers).id, now, old(peers).peers[peerID := 0]) && peerID in nodeIndex
    {
      ghost var before, numbered := receivedData, nodeIndex.Keys;
      assert forall id :: id in before ==> id in numbered && before[id].peers.Keys <= numbered;
      hide Bijection;
      NewNode(peerID);
      peers := peers.(peers := peers.peers[peerID := 0], timestamp := now);
      peerChange := true;
    }

    /** ReportPeerDisappeared does not number the peer. */
    method ReportPeerDisappeared(peerID: EndpointID, now: u64)
      requires Bijection() && CoversReceived()
      modifies this`peers, this`peerChange
      ensures Bijection() && CoversReceived()
      ensures Knows() == After(old(Knows()), Disappear(peerID, now)) && peerChange
      ensures peers == PeerData(old(peers).id, now, old(peers).peers[peerID := now])
      ensures OwnNumbered(Knows()) <==> OwnNumbered(old(Knows())) && peerID in nodeIndex
    {
      peers := peers.(peers := peers.peers[peerID := now], timestamp := now);
      peerChange := true;
      assert peerID in peers.peers;
    }
  }

  /** After any run of events the mappings are inverse, every origin and peer of received data has
      its number, and the node knows what the run says. */
  method HandleAll(nodeId: EndpointID, now: u64, events: seq<Event>) returns (d: DTLSR)
    ensures fresh(d) && d.nodeId == nodeId
    ensures d.Bijection() && d.CoversReceived() && d.Knows() == AfterAll(Initial(nodeId, now), events)
  {
    hide OwnNumbered, Received, Reported;
    d := new DTLSR(nodeId, now);
    var i := 0;
    while i < |events|
      invariant 0 <= i <= |events| && fresh(d)
      invariant d.Bijection() && d.CoversReceived()
      invariant d.Knows() == AfterAll(Initial(nodeId, now), events[..i])
    {
      LastEvent(Initial(nodeId, now), events, i);
      match events[i] {
        case Appear(peer, at) => d.ReportPeerAppeared(peer, at);
        case Disappear(peer, at) => d.ReportPeerDisappeared(peer, at);
        case Receive(data) => d.NotifyNewBundle(data);
      }
      i := i + 1;
    }
    assert events[..i] == events;
  }

  /** The records among the events, in their order. */
  function Records(events: seq<Event>): seq<PeerData> {
    if events == [] then []
    else
      var front, last := Records(events[..|events| - 1]), events[|events| - 1];
      if last.Receive? then front + [last.data] else front
  }

  /** What was received is merged as if nothing had happened between. */
  lemma {:induction false} EventsMerge(nodeId: EndpointID, now: u64, events: seq<Event>)
    ensures AfterAll(Initial(nodeId, now), events).received == MergedAll(Records(events))
  {
    if events != [] {
      var front, last := events[..|events| - 1], events[|events| - 1];
      EventsMerge(nodeId, now, front);
      if last.Receive? {
        var rs := Records(front);
        assert (rs + [last.data])[..|rs|] == rs;
      }
    }
  }
}
