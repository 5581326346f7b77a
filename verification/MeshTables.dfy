/** What a node's tables remember. Over any run, with expiries, restarts and counter wraps, every route, neighbour
    and cached packet id is exactly what one earlier receipt wrote, and a cleanup forgets it exactly when more than
    its expiry has passed since that receipt. */
module MeshTables {
  import opened MeshFrame
  import opened MeshNode
  import opened MeshNetwork
  import opened MeshDelivery

  /** Event e is the receipt of an OGM at node i. */
  predicate HearsOgm(e: Event, i: NodeId) {
    e.Receive? && e.node == i && ParseFrame(e.frame).Ogm?
  }

  /** The event makes node i forget an entry written at time `since`. */
  predicate Forgets(e: Event, i: NodeId, since: real, expiry: real) {
    e == Restart(i) || (e.Cleanup? && e.node == i && e.now - since > expiry)
  }

  // ------------------------------------------------------------- routes

  /** Event e announces o to node i with a number newer than i's entry, or i has none. */
  predicate Newer(net: Net, e: Event, i: NodeId, o: NodeId) {
    && HearsOgm(e, i) && ParseFrame(e.frame).origin == o
    && (HasRoute(net, i, o) ==> ParseFrame(e.frame).seqno > Entry(net, i, o).lastSeqno)
  }

  /** The entry an announcement received at `now` leaves behind. */
  function Announced(m: Message, now: real): OriginatorEntry
    requires m.Ogm?
  {
    OriginatorEntry(m.prevHop, m.seqno, m.linkMetric, now)
  }

  /** Everything any event does to the route of node i for o. */
  lemma RouteStep(w: World, net: Net, e: Event, i: NodeId, o: NodeId)
    requires Enabled(w, net, e) && i in net.nodes
    ensures var net' := Step(w, net, e);
            if Newer(net, e, i, o)
            then HasRoute(net', i, o) && Entry(net', i, o) == Announced(ParseFrame(e.frame), e.now)
            else && (HasRoute(net', i, o) <==>
                       HasRoute(net, i, o) && !Forgets(e, i, Entry(net, i, o).lastSeen, w.cfg[i].routeExpiry))
                 && (HasRoute(net', i, o) ==> Entry(net', i, o) == Entry(net, i, o))
  {
  }

  /** Event j is the newer announcement that wrote the entry node i has for o in state k. No later announcement
      before state k was newer. */
  ghost predicate RouteWrittenAt(states: seq<Net>, events: seq<Event>, k: nat, i: NodeId, o: NodeId, j: nat)
    requires |states| == |events| + 1 && k < |states| && HasRoute(states[k], i, o)
  {
    && j < k && Newer(states[j], events[j], i, o)
    && Entry(states[k], i, o) == Announced(ParseFrame(events[j].frame), events[j].now)
    && forall x | j < x < k && HearsOgm(events[x], i) && ParseFrame(events[x].frame).origin == o ::
         ParseFrame(events[x].frame).seqno <= ParseFrame(events[j].frame).seqno
  }

  /** Where a route comes from. In every state of every run, the entry a node has for an origin is the one written by
      the announcement that gave it its number: hop, number, metric and time are that receipt's. */
  lemma {:induction false} RouteIsLastNewer(w: World, states: seq<Net>, events: seq<Event>, k: nat, i: NodeId,
                                            o: NodeId) returns (j: nat)
    requires IsRun(w, states, events) && k < |states| && HasRoute(states[k], i, o)
    ensures RouteWrittenAt(states, events, k, i, o, j)
    decreases k
  {
    assert k > 0;
    var before, e := states[k - 1], events[k - 1];
    assert StepAt(w, states, events, k - 1);
    assert i in before.nodes;
    RouteStep(w, before, e, i, o);
    if Newer(before, e, i, o) {
      j := k - 1;
    } else {
      j := RouteIsLastNewer(w, states, events, k - 1, i, o);
    }
  }

  /** A route outlives a cleanup iff no more than the expiry has passed since that receipt. */
  lemma RouteExpiresExactlyWhen(w: World, states: seq<Net>, events: seq<Event>, k: nat, i: NodeId, o: NodeId, now: real)
    returns (j: nat)
    requires IsRun(w, states, events) && k < |events| && events[k] == Cleanup(i, now) && HasRoute(states[k], i, o)
    requires i in w.cfg
    ensures RouteWrittenAt(states, events, k, i, o, j)
    ensures HasRoute(states[k + 1], i, o) <==> now - events[j].now <= w.cfg[i].routeExpiry
  {
    j := RouteIsLastNewer(w, states, events, k, i, o);
    assert StepAt(w, states, events, k);
    RouteStep(w, states[k], events[k], i, o);
  }

  // --------------------------------------------------------- neighbours

  /** Event e is an OGM at node i that names h as its transmitter. */
  predicate HeardFrom(e: Event, i: NodeId, h: NodeId) {
    HearsOgm(e, i) && ParseFrame(e.frame).prevHop == h
  }

  predicate HasNeighbor(net: Net, i: NodeId, h: NodeId) {
    i in net.nodes && h in net.nodes[i].neighbors
  }

  /** Everything any event does to the entry of node i for neighbour h. */
  lemma NeighborStep(w: World, net: Net, e: Event, i: NodeId, h: NodeId)
    requires Enabled(w, net, e) && i in net.nodes
    ensures var net' := Step(w, net, e);
            if HeardFrom(e, i, h)
            then HasNeighbor(net', i, h)
                 && net'.nodes[i].neighbors[h] == NeighborEntry(e.now, ParseFrame(e.frame).linkMetric)
            else && (HasNeighbor(net', i, h) <==>
                       (&& HasNeighbor(net, i, h)
                        && !Forgets(e, i, net.nodes[i].neighbors[h].lastSeen, w.cfg[i].neighborExpiry)))
                 && (HasNeighbor(net', i, h) ==> net'.nodes[i].neighbors[h] == net.nodes[i].neighbors[h])
  {
  }

  /** Event j is the latest OGM naming h that node i received before state k, and wrote its entry. */
  ghost predicate NeighborWrittenAt(states: seq<Net>, events: seq<Event>, k: nat, i: NodeId, h: NodeId, j: nat)
    requires |states| == |events| + 1 && k < |states| && HasNeighbor(states[k], i, h)
  {
    && j < k && HeardFrom(events[j], i, h)
    && states[k].nodes[i].neighbors[h] == NeighborEntry(events[j].now, ParseFrame(events[j].frame).linkMetric)
    && forall x | j < x < k :: !HeardFrom(events[x], i, h)
  }

  /** A neighbour's time and metric are those of the latest OGM naming it as transmitter. */
  lemma {:induction false} NeighborIsLatest(w: World, states: seq<Net>, events: seq<Event>, k: nat, i: NodeId,
                                            h: NodeId)
    returns (j: nat)
    requires IsRun(w, states, events) && k < |states| && HasNeighbor(states[k], i, h)
    ensures NeighborWrittenAt(states, events, k, i, h, j)
    decreases k
  {
    assert k > 0;
    var before, e := states[k - 1], events[k - 1];
    assert StepAt(w, states, events, k - 1);
    assert i in before.nodes;
    NeighborStep(w, before, e, i, h);
    if HeardFrom(e, i, h) {
      j := k - 1;
    } else {
      j := NeighborIsLatest(w, states, events, k - 1, i, h);
    }
  }

  /** A neighbour outlives a cleanup iff no more than the expiry has passed since that OGM. */
  lemma NeighborExpiresExactlyWhen(w: World, states: seq<Net>, events: seq<Event>, k: nat, i: NodeId, h: NodeId,
                                   now: real) returns (j: nat)
    requires IsRun(w, states, events) && k < |events| && events[k] == Cleanup(i, now) && HasNeighbor(states[k], i, h)
    requires i in w.cfg
    ensures NeighborWrittenAt(states, events, k, i, h, j)
    ensures HasNeighbor(states[k + 1], i, h) <==> now - events[j].now <= w.cfg[i].neighborExpiry
  {
    j := NeighborIsLatest(w, states, events, k, i, h);
    assert StepAt(w, states, events, k);
    NeighborStep(w, states[k], events[k], i, h);
  }

  // ------------------------------------------------------- packet cache

  predicate HasKey(net: Net, i: NodeId, key: PacketKey) {
    i in net.nodes && key in net.nodes[i].dataSeen
  }

  /** Everything any event does to a key in the cache of node i. */
  lemma KeyStep(w: World, net: Net, e: Event, i: NodeId, key: PacketKey)
    requires Enabled(w, net, e) && i in net.nodes
    ensures var net' := Step(w, net, e);
            if e.node == i && Accepts(net, e, key)
            then HasKey(net', i, key) && net'.nodes[i].dataSeen[key] == e.now
            else && (HasKey(net', i, key) <==>
                       HasKey(net, i, key) && !Forgets(e, i, net.nodes[i].dataSeen[key], w.cfg[i].dataSeenExpiry))
                 && (HasKey(net', i, key) ==> net'.nodes[i].dataSeen[key] == net.nodes[i].dataSeen[key])
  {
  }

  /** Event j accepted the packet at node i, which has remembered it, with the time of event j, up to state k. */
  ghost predicate KeyWrittenAt(states: seq<Net>, events: seq<Event>, k: nat, i: NodeId, key: PacketKey, j: nat)
    requires |states| == |events| + 1 && k < |states| && HasKey(states[k], i, key)
  {
    && j < k && events[j].node == i && Accepts(states[j], events[j], key)
    && forall x | j < x <= k :: HasKey(states[x], i, key) && states[x].nodes[i].dataSeen[key] == events[j].now
  }

  /** A cached packet id carries the time of the receipt that accepted the packet, and has been there since. */
  lemma {:induction false} KeyIsAcceptance(w: World, states: seq<Net>, events: seq<Event>, k: nat, i: NodeId,
                                           key: PacketKey)
    returns (j: nat)
    requires IsRun(w, states, events) && k < |states| && HasKey(states[k], i, key)
    ensures KeyWrittenAt(states, events, k, i, key, j)
    decreases k
  {
    assert k > 0;
    var before, e := states[k - 1], events[k - 1];
    assert StepAt(w, states, events, k - 1);
    assert i in before.nodes;
    KeyStep(w, before, e, i, key);
    if e.node == i && Accepts(before, e, key) {
      j := k - 1;
    } else {
      j := KeyIsAcceptance(w, states, events, k - 1, i, key);
    }
  }

  /** A cached packet id outlives a cleanup iff no more than the expiry has passed since its acceptance. */
  lemma KeyExpiresExactlyWhen(w: World, states: seq<Net>, events: seq<Event>, k: nat, i: NodeId, key: PacketKey,
                              now: real) returns (j: nat)
    requires IsRun(w, states, events) && k < |events| && events[k] == Cleanup(i, now) && HasKey(states[k], i, key)
    requires i in w.cfg
    ensures KeyWrittenAt(states, events, k, i, key, j)
    ensures HasKey(states[k + 1], i, key) <==> now - events[j].now <= w.cfg[i].dataSeenExpiry
  {
    j := KeyIsAcceptance(w, states, events, k, i, key);
    assert StepAt(w, states, events, k);
    KeyStep(w, states[k], events[k], i, key);
  }
}
