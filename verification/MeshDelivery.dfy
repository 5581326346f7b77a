/** DATA frames over whole runs: end-to-end integrity, and what the packet-id cache guarantees. */
module MeshDelivery {
  import opened Basics
  import opened Bytes
  import opened MeshFrame
  import opened MeshNode
  import opened MeshNetwork

  // ========================================================= integrity

  /** The DATA message m is what `_build_data_payload` makes of the send r, up to its TTL. */
  predicate Carries(z: Zlib, r: Sent, m: Message)
    requires m.Data?
  {
    && m.origin == r.origin && m.seqno == r.seqno
    && m.flags == PackFlags(z, r.payload)
    && m.body == DataBody(z, r.dest, r.seqno, r.payload)
  }

  ghost predicate Backed(z: Zlib, sends: set<Sent>, m: Message) {
    m.Data? ==> exists r :: r in sends && Carries(z, r, m)
  }

  ghost predicate DataInv(w: World, net: Net) {
    forall f | f in net.medium :: Backed(w.zlib, net.sends, ParseFrame(f))
  }

  /** The payload comes back out of the body it was packed into, whatever the compressor did. */
  lemma UnpackInvertsPack(z: Zlib, dest: NodeId, seqno: u32, payload: Bytes)
    requires Lossless(z)
    ensures var body := DataBody(z, dest, seqno, payload);
            && Unpack(z, PackFlags(z, payload), body) == Some(payload)
            && body[0..8] == dest && FromU32(body[8..12]) == seqno
  {
    var body := DataBody(z, dest, seqno, payload);
    U32RoundTrip(seqno);
    assert body[0..8] == dest && body[8..12] == U32(seqno) && body[12..] == Pack(z, payload);
  }

  lemma DeliveryIsBacked(w: World, net: Net, e: Event, d: Delivery)
    requires Lossless(w.zlib) && Enabled(w, net, e) && DataInv(w, net)
    requires EffectOf(w, net, e).delivered == Some(d)
    ensures d.dest == e.node && Sent(d.origin, d.dest, d.seqno, d.payload) in net.sends
  {
    var m := ParseFrame(e.frame);
    assert Backed(w.zlib, net.sends, m);
    var r :| r in net.sends && Carries(w.zlib, r, m);
    UnpackInvertsPack(w.zlib, r.dest, r.seqno, r.payload);
  }

  lemma BackedMonotone(z: Zlib, sends: set<Sent>, more: set<Sent>, m: Message)
    requires sends <= more && Backed(z, sends, m)
    ensures Backed(z, more, m)
  {
  }

  lemma DataInvStep(w: World, net: Net, e: Event)
    requires Enabled(w, net, e) && DataInv(w, net)
    ensures DataInv(w, Step(w, net, e))
  {
    var net' := Step(w, net, e);
    var r := EffectOf(w, net, e);
    forall f | f in net'.medium ensures Backed(w.zlib, net'.sends, ParseFrame(f)) {
      if f in net.medium {
        BackedMonotone(w.zlib, net.sends, net'.sends, ParseFrame(f));
      } else {
        SentIsBacked(w, net, e);
      }
    }
  }

  lemma ForwardedBacked(z: Zlib, sends: set<Sent>, m: Message, ttl: byte)
    requires m.Data? && Backed(z, sends, m)
    ensures Backed(z, sends, Data(m.origin, m.seqno, ttl, m.flags, m.body))
  {
    var r :| r in sends && Carries(z, r, m);
    assert Carries(z, r, Data(m.origin, m.seqno, ttl, m.flags, m.body));
  }

  lemma ForwardIsBacked(w: World, net: Net, e: Event)
    requires Enabled(w, net, e) && DataInv(w, net) && e.Receive? && EffectOf(w, net, e).sent.Some?
    ensures Backed(w.zlib, net.sends, ParseFrame(EffectOf(w, net, e).sent.value))
  {
    var m := ParseFrame(e.frame);
    if m.Ogm? {
      OgmFrameRoundTrip(m.ttl - 1, m.origin, m.seqno, e.node, m.linkMetric);
    } else {
      DataFrameRoundTrip(m.flags, m.ttl - 1, m.origin, m.seqno, m.body);
      ForwardedBacked(w.zlib, net.sends, m, m.ttl - 1);
    }
  }

  lemma OriginalIsBacked(w: World, net: Net, e: Event)
    requires Enabled(w, net, e) && e.SendData?
    ensures Backed(w.zlib, Step(w, net, e).sends, ParseFrame(EffectOf(w, net, e).sent.value))
  {
    var s := NextSeqno(net.nodes[e.node].seqno);
    var body, flags := DataBody(w.zlib, e.dest, s, e.payload), PackFlags(w.zlib, e.payload);
    DataFrameRoundTrip(flags, w.cfg[e.node].ogmTtl, e.node, s, body);
    assert Carries(w.zlib, Sent(e.node, e.dest, s, e.payload), Data(e.node, s, w.cfg[e.node].ogmTtl, flags, body));
  }

  lemma SentIsBacked(w: World, net: Net, e: Event)
    requires Enabled(w, net, e) && DataInv(w, net) && EffectOf(w, net, e).sent.Some?
    ensures Backed(w.zlib, Step(w, net, e).sends, ParseFrame(EffectOf(w, net, e).sent.value))
  {
    if e.Receive? {
      ForwardIsBacked(w, net, e);
    } else if e.SendData? {
      OriginalIsBacked(w, net, e);
    } else if e.SendOgm? {
      OgmFrameRoundTrip(w.cfg[e.node].ogmTtl, e.node, NextSeqno(net.nodes[e.node].seqno), e.node, 255);
    }
  }

  lemma {:induction false} DataInvReachable(w: World, states: seq<Net>, events: seq<Event>, k: nat)
    requires IsRun(w, states, events) && k < |states|
    ensures DataInv(w, states[k])
  {
    if k > 0 {
      DataInvReachable(w, states, events, k - 1);
      assert StepAt(w, states, events, k - 1);
      DataInvStep(w, states[k - 1], events[k - 1]);
    }
  }

  /** Event j of the run is the call `send_application_data(dest, payload)` at r.origin that got r.seqno. */
  predicate SentAt(states: seq<Net>, events: seq<Event>, j: nat, r: Sent)
    requires j < |events| < |states|
  {
    && events[j] == SendData(r.origin, r.dest, r.payload)
    && r.origin in states[j + 1].nodes && states[j + 1].nodes[r.origin].seqno == r.seqno
  }

  lemma {:induction false} SendsAreEvents(w: World, states: seq<Net>, events: seq<Event>, k: nat, r: Sent)
    requires IsRun(w, states, events) && k < |states| && r in states[k].sends
    ensures exists j: nat :: j < k && SentAt(states, events, j, r)
  {
    assert k > 0;
    assert StepAt(w, states, events, k - 1);
    if r in states[k - 1].sends {
      SendsAreEvents(w, states, events, k - 1, r);
    } else {
      assert SentAt(states, events, k - 1, r);
    }
  }

  /** End-to-end integrity. Whatever the medium drops, repeats or reorders, and however many hops, cache
      expiries, restarts or counter wraps the run contains: when the application callback runs at step i,
      the node is the addressee and some earlier event is the origin's send of that very payload,
      under that very sequence number. */
  lemma EndToEndIntegrity(w: World, states: seq<Net>, events: seq<Event>, i: nat, d: Delivery)
    requires IsRun(w, states, events) && Lossless(w.zlib) && i < |events|
    requires StepAt(w, states, events, i) && EffectOf(w, states[i], events[i]).delivered == Some(d)
    ensures d.dest == events[i].node
    ensures exists j: nat :: j < i && SentAt(states, events, j, Sent(d.origin, d.dest, d.seqno, d.payload))
  {
    DataInvReachable(w, states, events, i);
    DeliveryIsBacked(w, states[i], events[i], d);
    SendsAreEvents(w, states, events, i, Sent(d.origin, d.dest, d.seqno, d.payload));
  }

  // ===================================================== at most once

  function KeyOf(m: Message): (k: PacketKey)
    requires m.Data?
  {
    PacketKey(m.origin, m.seqno)
  }

  /** The receipt passes the packet-id check with this key, so the node goes on to act on the frame. */
  predicate Accepts(net: Net, e: Event, key: PacketKey) {
    && e.Receive? && e.node in net.nodes
    && var m := ParseFrame(e.frame);
       m.Data? && KeyOf(m) == key && key !in net.nodes[e.node].dataSeen
  }

  predicate TransmitsData(w: World, net: Net, e: Event, key: PacketKey)
    requires Enabled(w, net, e)
  {
    var sent := EffectOf(w, net, e).sent;
    sent.Some? && var m := ParseFrame(sent.value); m.Data? && KeyOf(m) == key
  }

  predicate DeliversData(w: World, net: Net, e: Event, key: PacketKey)
    requires Enabled(w, net, e)
  {
    EffectOf(w, net, e).delivered.Some? && e.Receive? && var m := ParseFrame(e.frame); m.Data? && KeyOf(m) == key
  }

  lemma ActingMeansAccepting(w: World, net: Net, e: Event, key: PacketKey)
    requires Enabled(w, net, e)
    ensures TransmitsData(w, net, e, key) ==>
              Accepts(net, e, key)
              || (e.SendData? && e.node == key.origin && NextSeqno(net.nodes[e.node].seqno) == key.seqno)
    ensures DeliversData(w, net, e, key) ==> Accepts(net, e, key)
  {
    if TransmitsData(w, net, e, key) {
      var n := e.node;
      match e
      case Receive(_, frame, _) =>
        var m := ParseFrame(frame);
        if m.Ogm? {
          OgmFrameRoundTrip(m.ttl - 1, m.origin, m.seqno, n, m.linkMetric);
        } else {
          DataFrameRoundTrip(m.flags, m.ttl - 1, m.origin, m.seqno, m.body);
        }
      case SendData(_, dest, payload) =>
        var s := NextSeqno(net.nodes[n].seqno);
        DataFrameRoundTrip(PackFlags(w.zlib, payload), w.cfg[n].ogmTtl, n, s, DataBody(w.zlib, dest, s, payload));
      case SendOgm(_) =>
        OgmFrameRoundTrip(w.cfg[n].ogmTtl, n, NextSeqno(net.nodes[n].seqno), n, 255);
    }
  }

  predicate Timed(e: Event) { e.Receive? || e.Cleanup? }

  /** Node n's own clock never goes back. Different nodes' clocks are unrelated. */
  ghost predicate ClockMonotone(events: seq<Event>, n: NodeId) {
    forall a, b | 0 <= a < b < |events| && events[a].node == n && events[b].node == n
                  && Timed(events[a]) && Timed(events[b]) :: events[a].now <= events[b].now
  }

  predicate NoRestart(events: seq<Event>, n: NodeId) {
    forall a | 0 <= a < |events| :: events[a] != Restart(n)
  }

  /** Some cleanup at n strictly between i and k found the acceptance of step i expired. */
  predicate ExpiredBetween(w: World, events: seq<Event>, n: NodeId, i: nat, k: nat)
    requires i < k <= |events| && n in w.cfg && Timed(events[i])
  {
    exists c | i < c < k :: events[c].Cleanup? && events[c].node == n
                            && events[c].now - events[i].now > w.cfg[n].dataSeenExpiry
  }

  /** A cached key stays, stamped no earlier than t, unless a cleanup finds it expired since t. */
  lemma CacheStep(w: World, net: Net, e: Event, n: NodeId, key: PacketKey, t: real)
    requires Enabled(w, net, e) && e != Restart(n) && n in net.nodes
    requires key in net.nodes[n].dataSeen && net.nodes[n].dataSeen[key] >= t
    ensures (key in Step(w, net, e).nodes[n].dataSeen && Step(w, net, e).nodes[n].dataSeen[key] >= t)
            || (e.Cleanup? && e.node == n && e.now - t > w.cfg[n].dataSeenExpiry)
  {
  }

  lemma {:induction false} CacheRemembers(w: World, states: seq<Net>, events: seq<Event>, n: NodeId, key: PacketKey,
                                          i: nat, k: nat)
    requires IsRun(w, states, events) && i < k < |states| && n in w.cfg
    requires ClockMonotone(events, n) && NoRestart(events, n)
    requires events[i].node == n && Accepts(states[i], events[i], key)
    ensures || ExpiredBetween(w, events, n, i, k)
            || (n in states[k].nodes && key in states[k].nodes[n].dataSeen
                && states[k].nodes[n].dataSeen[key] >= events[i].now)
    decreases k
  {
    assert StepAt(w, states, events, k - 1);
    if k > i + 1 {
      CacheRemembers(w, states, events, n, key, i, k - 1);
      if !ExpiredBetween(w, events, n, i, k - 1) {
        CacheStep(w, states[k - 1], events[k - 1], n, key, events[i].now);
      }
    }
  }

  /** With cleanup running and a monotone clock, two acceptances of one key at one node
      are more than `data_seen_expiry_seconds` apart. */
  lemma AcceptancesAreApart(w: World, states: seq<Net>, events: seq<Event>, n: NodeId, key: PacketKey, i: nat, j: nat)
    requires IsRun(w, states, events) && i < j < |events| && n in w.cfg
    requires ClockMonotone(events, n) && NoRestart(events, n)
    requires events[i].node == n && Accepts(states[i], events[i], key)
    requires events[j].node == n && Accepts(states[j], events[j], key)
    ensures events[j].now - events[i].now > w.cfg[n].dataSeenExpiry
  {
    CacheRemembers(w, states, events, n, key, i, j);
  }

  /** The event does not make its node forget the key. */
  predicate KeepsKey(w: World, net: Net, e: Event, key: PacketKey)
    requires Enabled(w, net, e)
  {
    key in net.nodes[e.node].dataSeen ==> key in EffectOf(w, net, e).state.dataSeen
  }

  ghost predicate KeepsKeyAt(w: World, states: seq<Net>, events: seq<Event>, key: PacketKey, i: nat)
    requires i < |events| < |states|
  {
    Enabled(w, states[i], events[i]) && KeepsKey(w, states[i], events[i], key)
  }

  ghost predicate RunKeepsKey(w: World, states: seq<Net>, events: seq<Event>, key: PacketKey) {
    && |events| < |states|
    && forall i | 0 <= i < |events| :: KeepsKeyAt(w, states, events, key, i)
  }

  lemma SeenStep(w: World, net: Net, e: Event, n: NodeId, key: PacketKey)
    requires Enabled(w, net, e) && KeepsKey(w, net, e, key) && n in net.nodes
    requires key in net.nodes[n].dataSeen || (e.node == n && Accepts(net, e, key))
    ensures key in Step(w, net, e).nodes[n].dataSeen
  {
  }

  lemma {:induction false} SeenForever(w: World, states: seq<Net>, events: seq<Event>, n: NodeId, key: PacketKey,
                                       i: nat, k: nat)
    requires IsRun(w, states, events) && RunKeepsKey(w, states, events, key) && i < k < |states|
    requires events[i].node == n && Accepts(states[i], events[i], key)
    ensures n in states[k].nodes && key in states[k].nodes[n].dataSeen
    decreases k
  {
    if k > i + 1 {
      SeenForever(w, states, events, n, key, i, k - 1);
    }
    assert StepAt(w, states, events, k - 1) && KeepsKeyAt(w, states, events, key, k - 1);
    SeenStep(w, states[k - 1], events[k - 1], n, key);
  }

  lemma AcceptedOnce(w: World, states: seq<Net>, events: seq<Event>, key: PacketKey, i: nat, j: nat)
    requires IsRun(w, states, events) && RunKeepsKey(w, states, events, key) && i < j < |events|
    requires events[i].node == events[j].node && Accepts(states[i], events[i], key)
    ensures !Accepts(states[j], events[j], key)
  {
    SeenForever(w, states, events, events[i].node, key, i, j);
  }

  /** No send of node o moves its counter past the last 32-bit value. */
  predicate NoWrap(states: seq<Net>, events: seq<Event>, o: NodeId) {
    |events| < |states| &&
    forall i | 0 <= i < |events| && (events[i].SendData? || events[i].SendOgm?) && events[i].node == o ::
      o in states[i].nodes && states[i].nodes[o].seqno + 1 < U32_LIMIT
  }

  lemma {:induction false} RunNodes(w: World, states: seq<Net>, events: seq<Event>, k: nat)
    requires IsRun(w, states, events) && k < |states|
    ensures states[k].nodes.Keys == w.cfg.Keys
  {
    if k > 0 {
      assert StepAt(w, states, events, k - 1);
    }
  }

  lemma SeqnoStep(w: World, net: Net, e: Event, o: NodeId)
    requires Enabled(w, net, e) && o in net.nodes && e != Restart(o)
    requires (e.SendData? || e.SendOgm?) && e.node == o ==> net.nodes[o].seqno + 1 < U32_LIMIT
    ensures net.nodes[o].seqno <= Step(w, net, e).nodes[o].seqno
  {
  }

  lemma {:induction false} SeqnoGrows(w: World, states: seq<Net>, events: seq<Event>, o: NodeId, i: nat, k: nat)
    requires IsRun(w, states, events) && NoWrap(states, events, o) && NoRestart(events, o)
    requires i <= k < |states| && o in w.cfg
    ensures o in states[i].nodes && o in states[k].nodes && states[i].nodes[o].seqno <= states[k].nodes[o].seqno
    decreases k
  {
    RunNodes(w, states, events, k);
    if i < k {
      SeqnoGrows(w, states, events, o, i, k - 1);
      assert StepAt(w, states, events, k - 1);
      SeqnoStep(w, states[k - 1], events[k - 1], o);
    }
  }

  function TransmissionsOf(w: World, states: seq<Net>, events: seq<Event>, key: PacketKey): (t: set<int>)
    requires |events| < |states|
  {
    set i | 0 <= i < |events| && Enabled(w, states[i], events[i]) && TransmitsData(w, states[i], events[i], key)
  }

  predicate ForwardAt(states: seq<Net>, events: seq<Event>, key: PacketKey, i: int)
    requires |events| < |states|
  {
    0 <= i < |events| && Accepts(states[i], events[i], key)
  }

  lemma ForwardsFit(w: World, states: seq<Net>, events: seq<Event>, key: PacketKey, forwards: set<int>)
    requires IsRun(w, states, events) && RunKeepsKey(w, states, events, key)
    requires forall i | i in forwards :: ForwardAt(states, events, key, i)
    ensures |forwards| <= |w.cfg|
  {
    assert forall i | i in forwards :: ForwardAt(states, events, key, i);
    forall i, j | i in forwards && j in forwards && i != j ensures events[i].node != events[j].node {
      if events[i].node == events[j].node {
        AcceptedOnce(w, states, events, key, if i < j then i else j, if i < j then j else i);
      }
    }
    forall i | i in forwards ensures events[i].node in w.cfg.Keys {
      assert StepAt(w, states, events, i);
    }
    InjectionFits(forwards, i requires 0 <= i < |events| => events[i].node, w.cfg.Keys);
  }

  /** Event i is a send of node key.origin that is given the sequence number of the key. */
  predicate OriginalAt(states: seq<Net>, events: seq<Event>, key: PacketKey, i: int)
    requires |events| < |states|
  {
    && 0 <= i < |events| && events[i].SendData? && events[i].node == key.origin && key.origin in states[i].nodes
    && NextSeqno(states[i].nodes[key.origin].seqno) == key.seqno
  }

  lemma OneSendPerKey(w: World, states: seq<Net>, events: seq<Event>, key: PacketKey, i: int, j: int)
    requires IsRun(w, states, events) && NoWrap(states, events, key.origin) && NoRestart(events, key.origin)
    requires key.origin in w.cfg && i < j && OriginalAt(states, events, key, i)
    ensures !OriginalAt(states, events, key, j)
  {
    if OriginalAt(states, events, key, j) {
      assert StepAt(w, states, events, i);
      SeqnoGrows(w, states, events, key.origin, i + 1, j);
    }
  }

  lemma AtMostOneOriginal(w: World, states: seq<Net>, events: seq<Event>, key: PacketKey, originals: set<int>)
    requires IsRun(w, states, events) && NoWrap(states, events, key.origin) && NoRestart(events, key.origin)
    requires key.origin in w.cfg && forall i | i in originals :: OriginalAt(states, events, key, i)
    ensures |originals| <= 1
  {
    if |originals| > 1 {
      var i := Pick(originals);
      assert |originals - {i}| == |originals| - 1;
      var j := Pick(originals - {i});
      OneSendPerKey(w, states, events, key, if i < j then i else j, if i < j then j else i);
    }
  }

  lemma TransmissionKind(w: World, states: seq<Net>, events: seq<Event>, key: PacketKey, i: int)
    requires |events| < |states| && i in TransmissionsOf(w, states, events, key)
    ensures ForwardAt(states, events, key, i) || OriginalAt(states, events, key, i)
  {
    ActingMeansAccepting(w, states[i], events[i], key);
  }

  lemma SplitBound(w: World, states: seq<Net>, events: seq<Event>, key: PacketKey, all: set<int>)
    requires IsRun(w, states, events) && RunKeepsKey(w, states, events, key)
    requires key.origin in w.cfg && NoWrap(states, events, key.origin) && NoRestart(events, key.origin)
    requires forall i | i in all :: ForwardAt(states, events, key, i) || OriginalAt(states, events, key, i)
    ensures |all| <= |w.cfg| + 1
  {
    var forwards := set i | i in all && ForwardAt(states, events, key, i);
    ForwardsFit(w, states, events, key, forwards);
    AtMostOneOriginal(w, states, events, key, all - forwards);
    PartSizes(all, forwards);
  }

  lemma PartSizes(all: set<int>, part: set<int>)
    requires part <= all
    ensures |all| == |part| + |all - part|
  {
    assert all == part + (all - part);
  }

  /** At-most-once forwarding. While no node forgets the key and its origin neither restarts nor wraps its
      counter, the whole network transmits the packet at most once per node plus the original transmission. */
  lemma AtMostOncePerNode(w: World, states: seq<Net>, events: seq<Event>, key: PacketKey)
    requires IsRun(w, states, events) && RunKeepsKey(w, states, events, key)
    requires key.origin in w.cfg && NoWrap(states, events, key.origin) && NoRestart(events, key.origin)
    ensures |TransmissionsOf(w, states, events, key)| <= |w.cfg| + 1
  {
    var all := TransmissionsOf(w, states, events, key);
    forall i | i in all ensures ForwardAt(states, events, key, i) || OriginalAt(states, events, key, i) {
      TransmissionKind(w, states, events, key, i);
    }
    SplitBound(w, states, events, key, all);
  }

  /** While no node forgets the key, a node forwards or delivers the packet in at most one event. */
  lemma ActsOnce(w: World, states: seq<Net>, events: seq<Event>, key: PacketKey, i: nat, j: nat)
    requires IsRun(w, states, events) && RunKeepsKey(w, states, events, key)
    requires i < j < |events| && events[i].node == events[j].node && events[i].Receive? && events[j].Receive?
    requires StepAt(w, states, events, i) && StepAt(w, states, events, j)
    requires TransmitsData(w, states[i], events[i], key) || DeliversData(w, states[i], events[i], key)
    ensures !TransmitsData(w, states[j], events[j], key) && !DeliversData(w, states[j], events[j], key)
  {
    ActingMeansAccepting(w, states[i], events[i], key);
    ActingMeansAccepting(w, states[j], events[j], key);
    AcceptedOnce(w, states, events, key, i, j);
  }
}
