/** Binary spray and wait: every node hands half of its copies of a bundle to one new peer at a
    time. Each call of the routing algorithm is one step; direct delivery is not one of them. */
module Spray {
  import opened Bytes
  import opened Endpoint
  import opened BundleKey

  datatype Option<+T> = None | Some(value: T)

  /** sprayMetaData. */
  datatype MetaData = MetaData(sent: seq<EndpointID>, remainingCopies: u64)

  /** NotifyNewBundle: the copies come from the bundle's spray block, or are all of them at the
      originator, whose bundle has none. */
  function Notified(l: u64, block: Option<u64>, previousNode: Option<EndpointID>): MetaData {
    match block
    case Some(copies) => MetaData(if previousNode.Some? then [previousNode.value] else [], copies)
    case None => MetaData([], l)
  }

  /** The first sender to a node that is not known to have the bundle. */
  function FirstNew(sent: seq<EndpointID>, senders: seq<EndpointID>): (i: nat)
    ensures i <= |senders|
    ensures i < |senders| ==> senders[i] !in sent
    ensures forall j :: 0 <= j < i ==> senders[j] in sent
  {
    if senders == [] || senders[0] !in sent then 0 else 1 + FirstNew(sent, senders[1..])
  }

  /** There are two copies or more, and a sender to a node that is not known to have the bundle. */
  predicate Sprayable(m: MetaData, senders: seq<EndpointID>) {
    m.remainingCopies >= 2 && exists i :: 0 <= i < |senders| && senders[i] !in m.sent
  }

  /** SenderForBundle: the metadata afterwards, and the chosen peer with the copies it gets. */
  function Sprayed(m: MetaData, senders: seq<EndpointID>): (MetaData, Option<(EndpointID, u64)>) {
    var i := FirstNew(m.sent, senders);
    if m.remainingCopies < 2 || i == |senders| then (m, None)
    else
      var copies := m.remainingCopies / 2;
      (MetaData(m.sent + [senders[i]], m.remainingCopies - copies), Some((senders[i], copies)))
  }

  /** The list without the first occurrence of an element. */
  function Without(sent: seq<EndpointID>, e: EndpointID): seq<EndpointID> {
    if sent == [] then [] else if sent[0] == e then sent[1..] else [sent[0]] + Without(sent[1..], e)
  }

  /** One occurrence goes, the first one; an element that is not there takes nothing with it. */
  lemma {:induction false} WithoutFirst(front: seq<EndpointID>, e: EndpointID, back: seq<EndpointID>)
    requires e !in front
    ensures Without(front + ([e] + back), e) == front + back
    ensures Without(front, e) == front
  {
    if front == [] {
      assert [] + ([e] + back) == [e] + back;
      assert ([e] + back)[1..] == back;
      assert [] + back == back;
    } else {
      hide Without;
      WithoutFirst(front[1..], e, back);
      WithoutHead(front, e);
      var s := front + ([e] + back);
      assert s[1..] == front[1..] + ([e] + back);
      WithoutHead(s, e);
      Rejoined(front, back);
    }
  }

  lemma WithoutHead(s: seq<EndpointID>, e: EndpointID)
    requires s != [] && s[0] != e
    ensures Without(s, e) == [s[0]] + Without(s[1..], e)
  {
  }

  lemma Rejoined(front: seq<EndpointID>, back: seq<EndpointID>)
    requires front != []
    ensures [front[0]] + front[1..] == front && [front[0]] + (front[1..] + back) == front + back
  {
  }

  lemma WithoutStep(sent: seq<EndpointID>, i: nat, e: EndpointID)
    requires i < |sent|
    ensures sent[..i] + Without(sent[i..], e)
         == if sent[i] == e then sent[..i] + sent[i + 1..] else sent[..i + 1] + Without(sent[i + 1..], e)
  {
    assert sent[i..][1..] == sent[i + 1..];
    if sent[i] != e {
      var more := Without(sent[i + 1..], e);
      assert sent[..i] + ([sent[i]] + more) == sent[..i + 1] + more;
    }
  }

  lemma WithoutEnd(sent: seq<EndpointID>, e: EndpointID)
    ensures sent[..|sent|] + Without(sent[|sent|..], e) == sent
  {
    assert sent[|sent|..] == [];
  }

  /** BinarySpray, with the parts of a bundle it looks at as parameters. */
  class BinarySpray {
    const l: u64
    var bundleData: map<BundleID, MetaData>

    constructor (multiplicity: u64)
      ensures l == multiplicity && bundleData == map[]
    {
      l, bundleData := multiplicity, map[];
    }

    method NotifyNewBundle(id: BundleID, block: Option<u64>, previousNode: Option<EndpointID>)
      modifies this
      ensures bundleData == old(bundleData)[id := Notified(l, block, previousNode)]
      ensures block.None? ==> bundleData[id] == MetaData([], l)
      ensures block.Some? ==>
        bundleData[id] == MetaData(if previousNode.Some? then [previousNode.value] else [], block.value)
    {
      if block.Some? {
        var metadata := MetaData([], block.value);
        if previousNode.Some? {
          metadata := metadata.(sent := metadata.sent + [previousNode.value]);
          assert metadata.sent == [previousNode.value];
        }
        bundleData := bundleData[id := metadata];
      } else {
        bundleData := bundleData[id := MetaData([], l)];
      }
    }

    /** The inner loop of SenderForBundle. */
    static method IsKnown(sent: seq<EndpointID>, peer: EndpointID) returns (skip: bool)
      ensures skip == (peer in sent)
    {
      for i := 0 to |sent|
        invariant peer !in sent[..i]
      {
        if peer == sent[i] {
          return true;
        }
      }
      assert sent[..|sent|] == sent;
      skip := false;
    }

    /** SenderForBundle: the block the bundle is sent with is the second result. */
    method SenderForBundle(id: BundleID, block: Option<u64>, senders: seq<EndpointID>)
      returns (css: seq<EndpointID>, sentBlock: Option<u64>, del: bool)
      modifies this
      ensures !del
      ensures id !in old(bundleData) ==> css == [] && sentBlock == block && bundleData == old(bundleData)
      ensures id in old(bundleData) ==>
        var (m, chosen) := Sprayed(old(bundleData)[id], senders);
        && bundleData == old(bundleData)[id := m]
        && match chosen
           case None => css == [] && sentBlock == block
           case Some((peer, copies)) => css == [peer] && sentBlock == Some(copies)
      ensures id in old(bundleData) && Sprayable(old(bundleData)[id], senders) ==>
        var c, sent := old(bundleData)[id].remainingCopies, old(bundleData)[id].sent;
        && |css| == 1 && css[0] in senders && css[0] !in sent && sentBlock == Some(c / 2)
        && bundleData[id] == MetaData(sent + css, c - c / 2)
      ensures id in old(bundleData) && !Sprayable(old(bundleData)[id], senders) ==>
        css == [] && sentBlock == block && bundleData == old(bundleData)
    {
      css, sentBlock, del := [], block, false;
      if id !in bundleData {
        return;
      }
      var metadata := bundleData[id];
      assert bundleData[id := metadata] == bundleData;
      if metadata.remainingCopies < 2 {
        return;
      }
      var i := 0;
      while i < |senders| && css == []
        invariant 0 <= i <= |senders|
        invariant css == [] ==>
          metadata == old(bundleData)[id] && sentBlock == block && i <= FirstNew(metadata.sent, senders)
        invariant css != [] ==>
          var (m, chosen) := Sprayed(old(bundleData)[id], senders);
          metadata == m && chosen.Some? && css == [chosen.value.0] && sentBlock == Some(chosen.value.1)
        invariant bundleData == old(bundleData)
        decreases |senders| - i
      {
        var skip := IsKnown(metadata.sent, senders[i]);
        if !skip {
          css := css + [senders[i]];
          var sendCopies := metadata.remainingCopies / 2;
          metadata := MetaData(metadata.sent + [senders[i]], metadata.remainingCopies - sendCopies);
          sentBlock := Some(sendCopies);
        }
        i := i + 1;
      }
      bundleData := bundleData[id := metadata];
    }

    /** The loop of ReportFailure. */
    static method RemoveFirst(sent: seq<EndpointID>, sender: EndpointID) returns (r: seq<EndpointID>)
      ensures r == Without(sent, sender)
    {
      assert [] + sent == sent;
      hide Without;
      assert sent[..0] + Without(sent[0..], sender) == Without(sent, sender);
      var i := 0;
      while i < |sent|
        invariant 0 <= i <= |sent|
        invariant sent[..i] + Without(sent[i..], sender) == Without(sent, sender)
      {
        WithoutStep(sent, i, sender);
        if sent[i] == sender {
          return sent[..i] + sent[i + 1..];
        }
        i := i + 1;
      }
      WithoutEnd(sent, sender);
      r := sent;
    }

    /** ReportFailure: the sum of copies goes into the bundle's block, not into the metadata. */
    method ReportFailure(id: BundleID, block: Option<u64>, sender: EndpointID) returns (newBlock: Option<u64>)
      modifies this
      ensures block.None? || id !in old(bundleData) ==> newBlock == block && bundleData == old(bundleData)
      ensures block.Some? && id in old(bundleData) ==>
        var m := old(bundleData)[id];
        && newBlock == Some((m.remainingCopies + block.value) % TWO64)
        && bundleData == old(bundleData)[id := m.(sent := Without(m.sent, sender))]
    {
      newBlock := block;
      if block.None? || id !in bundleData {
        return;
      }
      var metadata := bundleData[id];
      newBlock := Some((metadata.remainingCopies + block.value) % TWO64);
      var sent := RemoveFirst(metadata.sent, sender);
      bundleData := bundleData[id := metadata.(sent := sent)];
    }
  }

  /* ---- one bundle in the network ---- */

  /** A node: whether its store has the bundle, and its spray metadata for it. */
  datatype Station = Station(eid: EndpointID, stored: bool, meta: Option<MetaData>)

  /** The bundle on its way, with the copies in its spray block. */
  datatype Parcel = Parcel(from: nat, to: nat, copies: u64)

  datatype Net = Net(created: bool, stations: seq<Station>, flight: seq<Parcel>)

  datatype Step =
    | Originate(n: nat)
    | Forward(n: nat, peers: seq<nat>)
    | Arrive(i: nat)
    | Fail(i: nat)
    | FailAfterDelivery(i: nat)
    | Expire(n: nat)
    | Collect(n: nat)

  function Eids(net: Net, peers: seq<nat>): (r: seq<EndpointID>)
    requires forall j :: 0 <= j < |peers| ==> peers[j] < |net.stations|
    ensures |r| == |peers|
  {
    seq(|peers|, j requires 0 <= j < |peers| => net.stations[peers[j]].eid)
  }

  predicate WellAddressed(net: Net) {
    forall i :: 0 <= i < |net.flight| ==> net.flight[i].from < |net.stations| && net.flight[i].to < |net.stations|
  }

  predicate Can(net: Net, step: Step) {
    WellAddressed(net)
    && match step
       case Originate(n) => !net.created && n < |net.stations|
       case Forward(n, peers) =>
         n < |net.stations| && net.stations[n].meta.Some? && forall j :: 0 <= j < |peers| ==> peers[j] < |net.stations|
       case Arrive(i) => i < |net.flight|
       case Fail(i) => i < |net.flight|
       case FailAfterDelivery(i) => i < |net.flight|
       case Expire(n) => n < |net.stations|
       case Collect(n) => n < |net.stations| && !net.stations[n].stored
  }

  function Drop(flight: seq<Parcel>, i: nat): seq<Parcel>
    requires i < |flight|
  {
    flight[..i] + flight[i + 1..]
  }

  /** ReportFailure at the sender. */
  function Reported(net: Net, p: Parcel): seq<Station>
    requires p.from < |net.stations| && p.to < |net.stations|
  {
    var s := net.stations[p.from];
    if s.meta.None? then net.stations
    else
      var m := s.meta.value;
      net.stations[p.from := s.(meta := Some(m.(sent := Without(m.sent, net.stations[p.to].eid))))]
  }

  /** A node whose store has the bundle ignores it; any other one takes it in. */
  function Taken(l: u64, net: Net, p: Parcel): seq<Station>
    requires p.from < |net.stations| && p.to < |net.stations|
  {
    var s := net.stations[p.to];
    if s.stored then net.stations
    else net.stations[p.to := Station(s.eid, true, Some(Notified(l, Some(p.copies), Some(net.stations[p.from].eid))))]
  }

  function Move(l: u64, net: Net, step: Step): Net
    requires Can(net, step)
  {
    match step
    case Originate(n) =>
      Net(true, net.stations[n := Station(net.stations[n].eid, true, Some(Notified(l, None, None)))], net.flight)
    case Forward(n, peers) =>
      var s := net.stations[n];
      var i := FirstNew(s.meta.value.sent, Eids(net, peers));
      var (m, chosen) := Sprayed(s.meta.value, Eids(net, peers));
      Net(net.created, net.stations[n := s.(meta := Some(m))],
          net.flight + if chosen.Some? then [Parcel(n, peers[i], chosen.value.1)] else [])
    case Arrive(i) => Net(net.created, Taken(l, net, net.flight[i]), Drop(net.flight, i))
    case Fail(i) => Net(net.created, Reported(net, net.flight[i]), Drop(net.flight, i))
    case FailAfterDelivery(i) => Net(net.created, Reported(net, net.flight[i]), net.flight)
    case Expire(n) => net.(stations := net.stations[n := net.stations[n].(stored := false)])
    case Collect(n) => net.(stations := net.stations[n := net.stations[n].(meta := None)])
  }

  function Run(l: u64, net: Net, steps: seq<Step>): Result<Net> {
    if steps == [] then Ok(net)
    else
      match Run(l, net, steps[..|steps| - 1])
      case Err => Err
      case Ok(m) => if Can(m, steps[|steps| - 1]) then Ok(Move(l, m, steps[|steps| - 1])) else Err
  }

  predicate Fresh(net: Net) {
    !net.created && net.flight == []
    && forall n :: 0 <= n < |net.stations| ==> !net.stations[n].stored && net.stations[n].meta.None?
  }

  /* ---- tokens ---- */

  function Tokens(s: Station): nat { if s.meta.Some? then s.meta.value.remainingCopies else 0 }

  function Held(stations: seq<Station>): nat {
    if stations == [] then 0 else Held(stations[..|stations| - 1]) + Tokens(stations[|stations| - 1])
  }

  function Travelling(flight: seq<Parcel>): nat {
    if flight == [] then 0 else Travelling(flight[..|flight| - 1]) + flight[|flight| - 1].copies
  }

  function Total(net: Net): nat { Held(net.stations) + Travelling(net.flight) }

  function Holders(stations: seq<Station>): nat {
    if stations == [] then 0
    else Holders(stations[..|stations| - 1]) + if stations[|stations| - 1].meta.Some? then 1 else 0
  }

  lemma {:induction false} HeldUpdate(stations: seq<Station>, n: nat, s: Station)
    requires n < |stations|
    ensures Held(stations[n := s]) + Tokens(stations[n]) == Held(stations) + Tokens(s)
  {
    hide Tokens;
    var k := |stations| - 1;
    if n < k {
      HeldUpdate(stations[..k], n, s);
      assert stations[n := s][..k] == stations[..k][n := s];
    } else {
      assert stations[n := s][..k] == stations[..k];
    }
  }

  lemma {:induction false} TravellingDrop(flight: seq<Parcel>, i: nat)
    requires i < |flight|
    ensures Travelling(flight) == Travelling(Drop(flight, i)) + flight[i].copies
  {
    var k := |flight| - 1;
    if i < k {
      TravellingDrop(flight[..k], i);
      assert Drop(flight, i)[..k - 1] == Drop(flight[..k], i);
    } else {
      assert Drop(flight, i) == flight[..k];
    }
  }

  lemma TravellingMore(flight: seq<Parcel>, p: Parcel)
    ensures Travelling(flight + [p]) == Travelling(flight) + p.copies
  {
    assert (flight + [p])[..|flight|] == flight;
  }

  /** Every holder keeps at least one copy and every parcel carries one. */
  predicate AtLeastOne(net: Net) {
    && (forall n :: 0 <= n < |net.stations| && net.stations[n].meta.Some? ==>
          net.stations[n].meta.value.remainingCopies >= 1)
    && forall i :: 0 <= i < |net.flight| ==> net.flight[i].copies >= 1
  }

  predicate Inv(l: u64, net: Net) {
    && WellAddressed(net) && AtLeastOne(net)
    && Total(net) <= l && (!net.created ==> Total(net) == 0)
  }

  lemma ForwardKeeps(l: u64, net: Net, n: nat, peers: seq<nat>)
    requires Can(net, Forward(n, peers)) && AtLeastOne(net)
    ensures WellAddressed(Move(l, net, Forward(n, peers))) && AtLeastOne(Move(l, net, Forward(n, peers)))
    ensures Total(Move(l, net, Forward(n, peers))) == Total(net)
  {
    hide Held, Travelling;
    var s := net.stations[n];
    var (m, chosen) := Sprayed(s.meta.value, Eids(net, peers));
    HeldUpdate(net.stations, n, s.(meta := Some(m)));
    if chosen.Some? {
      var i := FirstNew(s.meta.value.sent, Eids(net, peers));
      TravellingMore(net.flight, Parcel(n, peers[i], chosen.value.1));
    } else {
      assert net.flight + [] == net.flight;
    }
  }

  /** A node with two copies or more and a new peer keeps the larger half and sends that peer the
      smaller; with one copy, or no new peer, it sends nothing. */
  lemma ForwardHalves(l: u64, net: Net, n: nat, peers: seq<nat>)
    requires Can(net, Forward(n, peers))
    ensures var before, after := net.stations[n].meta.value, Move(l, net, Forward(n, peers));
      && |after.stations| == |net.stations| && after.stations[n].meta.Some?
      && if before.remainingCopies >= 2
            && exists i :: 0 <= i < |peers| && net.stations[peers[i]].eid !in before.sent
         then
           && |after.flight| == |net.flight| + 1 && after.flight[..|net.flight|] == net.flight
           && var p := after.flight[|net.flight|];
           && p.from == n && p.to in peers && p.copies == before.remainingCopies / 2
           && net.stations[p.to].eid !in before.sent
           && after.stations[n].meta.value.remainingCopies == before.remainingCopies - p.copies
           && after.stations[n].meta.value.sent == before.sent + [net.stations[p.to].eid]
         else after.flight == net.flight && after.stations[n].meta.value == before
  {
    assert forall i :: 0 <= i < |peers| ==> Eids(net, peers)[i] == net.stations[peers[i]].eid;
    assert net.flight + [] == net.flight;
  }

  /** What a step may do to the number of copies. */
  lemma ArriveKeeps(l: u64, net: Net, i: nat)
    requires Can(net, Arrive(i)) && AtLeastOne(net)
    ensures WellAddressed(Move(l, net, Arrive(i))) && AtLeastOne(Move(l, net, Arrive(i)))
    ensures Total(Move(l, net, Arrive(i)))
         == Total(net) - if net.stations[net.flight[i].to].stored then net.flight[i].copies
                         else Tokens(net.stations[net.flight[i].to])
  {
    hide Held, Travelling;
    var p := net.flight[i];
    TravellingDrop(net.flight, i);
    HeldUpdate(net.stations, p.to, Taken(l, net, p)[p.to]);
    assert net.stations[p.to].stored ==> net.stations[p.to := net.stations[p.to]] == net.stations;
  }

  lemma ReportKeeps(net: Net, p: Parcel)
    requires p.from < |net.stations| && p.to < |net.stations| && AtLeastOne(net)
    ensures |Reported(net, p)| == |net.stations| && Held(Reported(net, p)) == Held(net.stations)
    ensures AtLeastOne(net.(stations := Reported(net, p)))
  {
    hide Held;
    HeldUpdate(net.stations, p.from, Reported(net, p)[p.from]);
    assert net.stations[p.from := net.stations[p.from]] == net.stations;
  }

  lemma FailKeeps(l: u64, net: Net, i: nat)
    requires Can(net, Fail(i)) && AtLeastOne(net)
    ensures WellAddressed(Move(l, net, Fail(i))) && AtLeastOne(Move(l, net, Fail(i)))
    ensures Total(Move(l, net, Fail(i))) == Total(net) - net.flight[i].copies
  {
    hide Held, Travelling, Reported;
    TravellingDrop(net.flight, i);
    ReportKeeps(net, net.flight[i]);
  }

  lemma StationKeeps(net: Net, n: nat, s: Station)
    requires n < |net.stations| && AtLeastOne(net) && (s.meta.None? || s.meta == net.stations[n].meta)
    ensures AtLeastOne(net.(stations := net.stations[n := s]))
    ensures Held(net.stations[n := s]) == Held(net.stations) - (Tokens(net.stations[n]) - Tokens(s))
  {
    hide Held;
    HeldUpdate(net.stations, n, s);
  }

  lemma OriginateKeeps(l: u64, net: Net, n: nat)
    requires l >= 1 && Inv(l, net) && Can(net, Originate(n))
    ensures Inv(l, Move(l, net, Originate(n))) && Total(Move(l, net, Originate(n))) == l
  {
    hide Held, Travelling;
    HeldUpdate(net.stations, n, Move(l, net, Originate(n)).stations[n]);
    HeldAtLeast(net.stations, n);
  }

  lemma {:induction false} HeldAtLeast(stations: seq<Station>, n: nat)
    requires n < |stations|
    ensures Held(stations) >= Tokens(stations[n])
  {
    hide Tokens;
    if n < |stations| - 1 {
      HeldAtLeast(stations[..|stations| - 1], n);
    }
  }

  lemma StepKeeps(l: u64, net: Net, step: Step)
    requires l >= 1 && Inv(l, net) && Can(net, step)
    ensures Inv(l, Move(l, net, step))
  {
    hide Held, Travelling, Tokens, AtLeastOne;
    match step
    case Originate(n) => OriginateKeeps(l, net, n);
    case Forward(n, peers) => ForwardKeeps(l, net, n, peers);
    case Arrive(i) => ArriveKeeps(l, net, i);
    case Fail(i) => FailKeeps(l, net, i);
    case FailAfterDelivery(i) => ReportKeeps(net, net.flight[i]);
    case Expire(n) =>
      StationKeeps(net, n, net.stations[n].(stored := false));
      TokensFromMeta(net.stations[n], net.stations[n].(stored := false));
    case Collect(n) =>
      StationKeeps(net, n, net.stations[n].(meta := None));
      HeldAtLeast(net.stations, n);
      TokensFromMeta(net.stations[n], net.stations[n].(meta := None));
  }

  lemma TokensFromMeta(s: Station, t: Station)
    ensures s.meta == t.meta ==> Tokens(s) == Tokens(t)
    ensures t.meta.None? ==> Tokens(t) == 0
  {
  }

  lemma {:induction false} NothingHeld(stations: seq<Station>)
    requires forall n :: 0 <= n < |stations| ==> stations[n].meta.None?
    ensures Held(stations) == 0
  {
    if stations != [] {
      NothingHeld(stations[..|stations| - 1]);
    }
  }

  /** Copies are never created: in every state of every run, with failures, duplicates, expiry and
      garbage collection, what nodes hold and what travels is at most the multiplicity. */
  lemma {:induction false} CopiesBounded(l: u64, net: Net, steps: seq<Step>)
    requires l >= 1 && Fresh(net) && Run(l, net, steps).Ok?
    ensures Inv(l, Run(l, net, steps).value)
  {
    if steps == [] {
      NothingHeld(net.stations);
    } else {
      hide Inv, Can, Move;
      CopiesBounded(l, net, steps[..|steps| - 1]);
      StepKeeps(l, Run(l, net, steps[..|steps| - 1]).value, steps[|steps| - 1]);
    }
  }

  /** A step without a failure, a duplicate or garbage collection. */
  predicate Lossless(net: Net, step: Step) {
    match step
    case Arrive(i) => i < |net.flight| && net.flight[i].to < |net.stations|
                      && !net.stations[net.flight[i].to].stored && net.stations[net.flight[i].to].meta.None?
    case Fail(_) => false
    case Collect(_) => false
    case _ => true
  }

  /** Every step of the run is lossless where it is taken. */
  predicate LosslessRun(l: u64, net: Net, steps: seq<Step>) {
    steps == [] ||
    (LosslessRun(l, net, steps[..|steps| - 1])
     && match Run(l, net, steps[..|steps| - 1])
        case Ok(m) => Lossless(m, steps[|steps| - 1])
        case Err => false)
  }

  lemma LosslessStep(l: u64, net: Net, step: Step)
    requires l >= 1 && Inv(l, net) && Can(net, step) && Lossless(net, step)
    ensures Total(Move(l, net, step)) == if step.Originate? then l else Total(net)
    ensures Move(l, net, step).created == (net.created || step.Originate?)
  {
    hide Held, Travelling, AtLeastOne;
    match step
    case Originate(n) => OriginateKeeps(l, net, n);
    case Forward(n, peers) => ForwardKeeps(l, net, n, peers);
    case Arrive(i) => ArriveKeeps(l, net, i);
    case FailAfterDelivery(i) => ReportKeeps(net, net.flight[i]);
    case Expire(n) => StationKeeps(net, n, net.stations[n].(stored := false));
  }

  /** And without losses none disappears: the copies are exactly the multiplicity. */
  lemma {:induction false} CopiesConserved(l: u64, net: Net, steps: seq<Step>)
    requires l >= 1 && Fresh(net) && Run(l, net, steps).Ok? && LosslessRun(l, net, steps)
    ensures Run(l, net, steps).value.created ==> Total(Run(l, net, steps).value) == l
  {
    if steps == [] {
    } else {
      hide Inv, Can, Move, Total, Lossless, Fresh;
      var front := steps[..|steps| - 1];
      CopiesConserved(l, net, front);
      CopiesBounded(l, net, front);
      LosslessStep(l, Run(l, net, front).value, steps[|steps| - 1]);
    }
  }

  lemma {:induction false} HoldersHold(stations: seq<Station>)
    requires forall n :: 0 <= n < |stations| && stations[n].meta.Some? ==> stations[n].meta.value.remainingCopies >= 1
    ensures Holders(stations) <= Held(stations)
  {
    if stations != [] {
      HoldersHold(stations[..|stations| - 1]);
    }
  }

  /** At most as many nodes as the multiplicity hold the bundle at any time. */
  lemma FewHolders(l: u64, net: Net, steps: seq<Step>)
    requires l >= 1 && Fresh(net) && Run(l, net, steps).Ok?
    ensures Holders(Run(l, net, steps).value.stations) + |Run(l, net, steps).value.flight| <= l
  {
    hide Run, Holders, Held, Travelling;
    CopiesBounded(l, net, steps);
    HoldersHold(Run(l, net, steps).value.stations);
    ParcelsCarry(Run(l, net, steps).value.flight);
  }

  lemma {:induction false} ParcelsCarry(flight: seq<Parcel>)
    requires forall i :: 0 <= i < |flight| ==> flight[i].copies >= 1
    ensures |flight| <= Travelling(flight)
  {
    if flight != [] {
      ParcelsCarry(flight[..|flight| - 1]);
    }
  }
}
