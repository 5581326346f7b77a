/** Any number of mesh nodes over a lossy, duplicating and reordering broadcast medium.
    The medium is the set of all frames ever transmitted: a node may receive any of them, its own
    included, at any later step, any number of times or never. */
module MeshNetwork {
  import opened Basics
  import opened Bytes
  import opened MeshFrame
  import opened MeshNode

  /** The fixed part of a network: the configuration of each node, and zlib. */
  datatype World = World(cfg: map<NodeId, NodeConfig>, zlib: Zlib)

  /** One call of `send_application_data`, as the caller made it. */
  datatype Sent = Sent(origin: NodeId, dest: NodeId, seqno: u32, payload: Bytes)

  /** `sends`, `deliveries`, `steps` and `adopted` only record history; no handler reads them.
      `adopted[(i, o)]` is the step at which node i last took a new route entry for origin o. */
  datatype Net = Net(
    nodes: map<NodeId, NodeState>,
    medium: set<Bytes>,
    sends: set<Sent>,
    deliveries: set<(NodeId, Delivery)>,
    steps: nat,
    adopted: map<(NodeId, NodeId), nat>)

  /** `Restart` is a process restart: every in-memory table and the sequence counter are lost. */
  datatype Event =
    | Receive(node: NodeId, frame: Bytes, now: real)
    | SendData(node: NodeId, dest: NodeId, payload: Bytes)
    | SendOgm(node: NodeId)
    | Cleanup(node: NodeId, now: real)
    | Restart(node: NodeId)

  function Init(w: World): (net: Net) {
    Net(map n | n in w.cfg :: FRESH_NODE, {}, {}, {}, 0, map[])
  }

  predicate Enabled(w: World, net: Net, e: Event) {
    && net.nodes.Keys == w.cfg.Keys
    && e.node in net.nodes
    && (e.Receive? ==> e.frame in net.medium)
  }

  function EffectOf(w: World, net: Net, e: Event): (r: Effect)
    requires Enabled(w, net, e)
  {
    var st, cfg := net.nodes[e.node], w.cfg[e.node];
    match e
    case Receive(n, frame, now) => OnLinkFrame(w.zlib, n, st, frame, now)
    case SendData(n, dest, payload) => SendPacket(cfg, w.zlib, n, st, dest, payload).value
    case SendOgm(n) => BuildOgm(cfg, n, st)
    case Cleanup(n, now) => Effect(Expire(cfg, st, now), None, None)
    case Restart(n) => Effect(FRESH_NODE, None, None)
  }

  /** The receipt makes the node replace (or create) its route entry for the frame's origin. */
  predicate Adopts(net: Net, e: Event) {
    && e.Receive? && e.node in net.nodes
    && var m := ParseFrame(e.frame);
       && m.Ogm?
       && var table := net.nodes[e.node].originators;
          m.origin !in table || m.seqno > table[m.origin].lastSeqno
  }

  function Step(w: World, net: Net, e: Event): (net': Net)
    requires Enabled(w, net, e)
  {
    var r := EffectOf(w, net, e);
    Net(net.nodes[e.node := r.state],
        if r.sent.Some? then net.medium + {r.sent.value} else net.medium,
        if e.SendData? then net.sends + {Sent(e.node, e.dest, r.state.seqno, e.payload)} else net.sends,
        if r.delivered.Some? then net.deliveries + {(e.node, r.delivered.value)} else net.deliveries,
        net.steps + 1,
        if Adopts(net, e) then net.adopted[(e.node, ParseFrame(e.frame).origin) := net.steps] else net.adopted)
  }

  ghost predicate StepAt(w: World, states: seq<Net>, events: seq<Event>, i: nat)
    requires i < |events| < |states|
  {
    Enabled(w, states[i], events[i]) && states[i + 1] == Step(w, states[i], events[i])
  }

  ghost predicate IsRun(w: World, states: seq<Net>, events: seq<Event>) {
    && |states| == |events| + 1
    && states[0] == Init(w)
    && forall i | 0 <= i < |events| :: StepAt(w, states, events, i)
  }

  // ====================================================== routing loops

  /** A node that does not lose route entries in this event: nothing expires and nobody restarts. */
  predicate KeepsRoutes(w: World, net: Net, e: Event)
    requires Enabled(w, net, e)
  {
    && !e.Restart?
    && (e.Cleanup? ==> EffectOf(w, net, e).state.originators == net.nodes[e.node].originators)
  }

  predicate HasRoute(net: Net, i: NodeId, o: NodeId) {
    i in net.nodes && o in net.nodes[i].originators
  }

  function Entry(net: Net, i: NodeId, o: NodeId): OriginatorEntry
    requires HasRoute(net, i, o)
  {
    net.nodes[i].originators[o]
  }

  /** Node p is strictly closer to the source of origin o's announcements than node i:
      it has a newer sequence number, or took the same one at an earlier step. */
  predicate Closer(net: Net, p: NodeId, i: NodeId, o: NodeId)
    requires HasRoute(net, p, o) && HasRoute(net, i, o)
  {
    || Entry(net, p, o).lastSeqno > Entry(net, i, o).lastSeqno
    || (&& Entry(net, p, o).lastSeqno == Entry(net, i, o).lastSeqno
        && (p, o) in net.adopted && (i, o) in net.adopted
        && net.adopted[(p, o)] < net.adopted[(i, o)])
  }

  /** The transmitter named in an OGM is its origin, or already knows that announcement or a newer one. */
  predicate HopKnows(net: Net, m: Message) {
    m.Ogm? ==>
      && m.origin in net.nodes && m.prevHop in net.nodes
      && (m.prevHop != m.origin ==>
            HasRoute(net, m.prevHop, m.origin) && Entry(net, m.prevHop, m.origin).lastSeqno >= m.seqno)
  }

  predicate RouteImproves(net: Net, i: NodeId, o: NodeId)
    requires HasRoute(net, i, o)
  {
    var p := Entry(net, i, o).bestNextHop;
    && o in net.nodes && p in net.nodes
    && (i, o) in net.adopted && net.adopted[(i, o)] < net.steps
    && (i != o && p != o ==> HasRoute(net, p, o) && Closer(net, p, i, o))
  }

  ghost predicate RouteInv(net: Net) {
    && (forall f | f in net.medium :: HopKnows(net, ParseFrame(f)))
    && (forall i, o | HasRoute(net, i, o) :: RouteImproves(net, i, o))
  }

  /** What a step that keeps routes does to the route entry of a node for an origin. */
  lemma EntryAfter(w: World, net: Net, e: Event, i: NodeId, o: NodeId)
    requires Enabled(w, net, e) && KeepsRoutes(w, net, e)
    ensures var net' := Step(w, net, e);
            if Adopts(net, e) && i == e.node && o == ParseFrame(e.frame).origin
            then HasRoute(net', i, o) && var m := ParseFrame(e.frame);
                 && Entry(net', i, o).bestNextHop == m.prevHop
                 && Entry(net', i, o).lastSeqno == m.seqno
                 && (HasRoute(net, i, o) ==> m.seqno > Entry(net, i, o).lastSeqno)
                 && (i, o) in net'.adopted && net'.adopted[(i, o)] == net.steps
            else && (HasRoute(net', i, o) <==> HasRoute(net, i, o))
                 && (HasRoute(net, i, o) ==> Entry(net', i, o) == Entry(net, i, o))
                 && ((i, o) in net'.adopted <==> (i, o) in net.adopted)
                 && ((i, o) in net.adopted ==> net'.adopted[(i, o)] == net.adopted[(i, o)])
  {
  }

  lemma HopKnowsKept(w: World, net: Net, e: Event, m: Message)
    requires Enabled(w, net, e) && KeepsRoutes(w, net, e) && HopKnows(net, m)
    ensures HopKnows(Step(w, net, e), m)
  {
    if m.Ogm? {
      EntryAfter(w, net, e, m.prevHop, m.origin);
    }
  }

  /** A frame a node transmits in a step satisfies the medium's invariant after the step. */
  lemma SentHopKnows(w: World, net: Net, e: Event)
    requires Enabled(w, net, e) && KeepsRoutes(w, net, e) && RouteInv(net)
    requires EffectOf(w, net, e).sent.Some?
    ensures HopKnows(Step(w, net, e), ParseFrame(EffectOf(w, net, e).sent.value))
  {
    var n := e.node;
    match e
    case Receive(_, frame, now) =>
      var m := ParseFrame(frame);
      if m.Ogm? {
        OgmFrameRoundTrip(m.ttl - 1, m.origin, m.seqno, n, m.linkMetric);
        assert HopKnows(net, m);
        EntryAfter(w, net, e, n, m.origin);
      } else {
        DataFrameRoundTrip(m.flags, m.ttl - 1, m.origin, m.seqno, m.body);
      }
    case SendData(_, dest, payload) =>
      var s := NextSeqno(net.nodes[n].seqno);
      DataFrameRoundTrip(PackFlags(w.zlib, payload), w.cfg[n].ogmTtl, n, s, DataBody(w.zlib, dest, s, payload));
    case SendOgm(_) =>
      OgmFrameRoundTrip(w.cfg[n].ogmTtl, n, NextSeqno(net.nodes[n].seqno), n, 255);
    case Cleanup(_, _) =>
  }

  lemma RouteImprovesKept(w: World, net: Net, e: Event, i: NodeId, o: NodeId)
    requires Enabled(w, net, e) && KeepsRoutes(w, net, e) && RouteInv(net)
    requires HasRoute(Step(w, net, e), i, o)
    ensures RouteImproves(Step(w, net, e), i, o)
  {
    var net' := Step(w, net, e);
    EntryAfter(w, net, e, i, o);
    if Adopts(net, e) && i == e.node && o == ParseFrame(e.frame).origin {
      var m := ParseFrame(e.frame);
      assert HopKnows(net, m);
      var p := m.prevHop;
      if i != o && p != o {
        assert p != i;
        EntryAfter(w, net, e, p, o);
        assert RouteImproves(net, p, o);
      }
    } else {
      assert RouteImproves(net, i, o);
      EntryAfter(w, net, e, Entry(net, i, o).bestNextHop, o);
    }
  }

  lemma RouteInvStep(w: World, net: Net, e: Event)
    requires Enabled(w, net, e) && KeepsRoutes(w, net, e) && RouteInv(net)
    ensures RouteInv(Step(w, net, e))
  {
    var net' := Step(w, net, e);
    forall f | f in net'.medium ensures HopKnows(net', ParseFrame(f)) {
      if f in net.medium {
        HopKnowsKept(w, net, e, ParseFrame(f));
      } else {
        SentHopKnows(w, net, e);
      }
    }
    forall i, o | HasRoute(net', i, o) ensures RouteImproves(net', i, o) {
      RouteImprovesKept(w, net, e, i, o);
    }
  }

  ghost predicate KeepsRoutesAt(w: World, states: seq<Net>, events: seq<Event>, i: nat)
    requires i < |events| < |states|
  {
    Enabled(w, states[i], events[i]) && KeepsRoutes(w, states[i], events[i])
  }

  ghost predicate RunKeepsRoutes(w: World, states: seq<Net>, events: seq<Event>) {
    && |events| < |states|
    && forall i | 0 <= i < |events| :: KeepsRoutesAt(w, states, events, i)
  }

  lemma {:induction false} RouteInvReachable(w: World, states: seq<Net>, events: seq<Event>, k: nat)
    requires IsRun(w, states, events) && RunKeepsRoutes(w, states, events) && k < |states|
    ensures RouteInv(states[k]) && states[k].nodes.Keys == w.cfg.Keys
  {
    if k > 0 {
      RouteInvReachable(w, states, events, k - 1);
      assert StepAt(w, states, events, k - 1) && KeepsRoutesAt(w, states, events, k - 1);
      RouteInvStep(w, states[k - 1], events[k - 1]);
    }
  }

  /** `path` follows `best_next_hop` toward origin o, and only its last node may be o. */
  predicate IsRoute(net: Net, o: NodeId, path: seq<NodeId>) {
    && |path| > 0
    && forall k | 0 <= k < |path| - 1 ::
         path[k] != o && HasRoute(net, path[k], o) && path[k + 1] == Entry(net, path[k], o).bestNextHop
  }

  /** Every node on a route, from the second on, is o or strictly closer than each earlier one. */
  lemma {:induction false} RouteDescends(net: Net, o: NodeId, path: seq<NodeId>, a: nat, b: nat)
    requires RouteInv(net) && IsRoute(net, o, path) && a < b < |path|
    ensures path[a] != o && HasRoute(net, path[a], o)
    ensures path[b] == o || (HasRoute(net, path[b], o) && Closer(net, path[b], path[a], o))
    decreases b
  {
    assert RouteImproves(net, path[b - 1], o);
    if a < b - 1 {
      RouteDescends(net, o, path, a, b - 1);
    }
  }

  lemma RouteNoRepeats(net: Net, o: NodeId, path: seq<NodeId>)
    requires RouteInv(net) && IsRoute(net, o, path)
    ensures NoRepeats(path)
  {
    forall a, b | 0 <= a < b < |path| ensures path[a] != path[b] {
      RouteDescends(net, o, path, a, b);
    }
  }

  lemma RouteLength(net: Net, o: NodeId, path: seq<NodeId>)
    requires RouteInv(net) && IsRoute(net, o, path) && path[0] in net.nodes
    ensures |path| <= |net.nodes|
  {
    RouteNoRepeats(net, o, path);
    forall k | 0 <= k < |path| ensures path[k] in net.nodes.Keys {
      if k > 0 {
        assert RouteImproves(net, path[k - 1], o);
      }
    }
    DistinctFits(path, net.nodes.Keys);
  }

  /** Following next hops from a partial route reaches the origin. */
  lemma RouteExtends(net: Net, o: NodeId, path: seq<NodeId>) returns (full: seq<NodeId>)
    requires RouteInv(net) && IsRoute(net, o, path) && path[0] in net.nodes
    requires path[|path| - 1] == o || HasRoute(net, path[|path| - 1], o)
    ensures IsRoute(net, o, full) && full[0] == path[0] && full[|full| - 1] == o
    decreases |net.nodes| - |path|
  {
    var last := path[|path| - 1];
    if last == o {
      full := path;
    } else {
      assert RouteImproves(net, last, o);
      var longer := path + [Entry(net, last, o).bestNextHop];
      RouteLength(net, o, longer);
      full := RouteExtends(net, o, longer);
    }
  }

  /** Routing loop freedom. In every state of every run in which no route entry expires and no node
      restarts, following `best_next_hop` toward an origin never visits a node twice, always takes fewer
      hops than there are nodes, and from every node with an entry arrives at the origin. */
  lemma LoopFreedom(w: World, states: seq<Net>, events: seq<Event>, k: nat, i: NodeId, o: NodeId)
    requires IsRun(w, states, events) && RunKeepsRoutes(w, states, events) && k < |states|
    requires HasRoute(states[k], i, o)
    ensures forall path | IsRoute(states[k], o, path) && path[0] == i ::
              NoRepeats(path) && |path| - 1 < |w.cfg|
    ensures exists path :: IsRoute(states[k], o, path) && path[0] == i && path[|path| - 1] == o
  {
    var net := states[k];
    RouteInvReachable(w, states, events, k);
    assert |net.nodes.Keys| == |w.cfg.Keys|;
    forall path | IsRoute(net, o, path) && path[0] == i
      ensures NoRepeats(path) && |path| - 1 < |w.cfg|
    {
      RouteNoRepeats(net, o, path);
      RouteLength(net, o, path);
    }
    var full := RouteExtends(net, o, [i]);
  }
}
