/** Forwarding over several hops: what a node transmits in answer to each frame, and that announcements and packets
    really travel along any chain of nodes the TTLs allow. */
module MeshRelay {
  import opened Basics
  import opened Bytes
  import opened MeshFrame
  import opened MeshNode
  import opened MeshNetwork
  import opened MeshDelivery

  // ------------------------------------------------------------ one hop

  /** What `send_application_data` puts on the air: the next number, the configured TTL, and the compressed payload
      exactly where that is shorter. */
  lemma DataIsSent(w: World, net: Net, e: Event)
    requires Enabled(w, net, e) && e.SendData?
    ensures var n, r, c := e.node, EffectOf(w, net, e), w.zlib.compress(e.payload);
            var s := if net.nodes[n].seqno == 0xFFFF_FFFF then 0 else net.nodes[n].seqno + 1;
            && r.delivered == None && r.state == net.nodes[n].(seqno := s) && r.sent.Some?
            && ParseFrame(r.sent.value)
            == Data(n, s, w.cfg[n].ogmTtl, if |c| < |e.payload| then 1 else 0,
                    e.dest + U32(s) + (if |c| < |e.payload| then c else e.payload))
  {
    var s := NextSeqno(net.nodes[e.node].seqno);
    DataFrameRoundTrip(PackFlags(w.zlib, e.payload), w.cfg[e.node].ogmTtl, e.node, s,
                       DataBody(w.zlib, e.dest, s, e.payload));
  }

  /** What the OGM loop puts on the air. */
  lemma OgmIsSent(w: World, net: Net, e: Event)
    requires Enabled(w, net, e) && e.SendOgm?
    ensures var n, r := e.node, EffectOf(w, net, e);
            var s := if net.nodes[n].seqno == 0xFFFF_FFFF then 0 else net.nodes[n].seqno + 1;
            && r.delivered == None && r.state == net.nodes[n].(seqno := s) && r.sent.Some?
            && ParseFrame(r.sent.value) == Ogm(n, s, w.cfg[n].ogmTtl, n, 255)
  {
    OgmFrameRoundTrip(w.cfg[e.node].ogmTtl, e.node, NextSeqno(net.nodes[e.node].seqno), e.node, 255);
  }

  /** An OGM is forwarded iff its TTL exceeds 1, with only the TTL and the hop changed. */
  lemma OgmIsForwarded(w: World, net: Net, e: Event)
    requires Enabled(w, net, e) && e.Receive? && ParseFrame(e.frame).Ogm?
    ensures var m, r := ParseFrame(e.frame), EffectOf(w, net, e);
            && r.delivered == None && (r.sent.Some? <==> m.ttl > 1)
            && (r.sent.Some? ==> ParseFrame(r.sent.value) == m.(ttl := m.ttl - 1, prevHop := e.node))
  {
    var m := ParseFrame(e.frame);
    if m.ttl > 1 {
      OgmFrameRoundTrip(m.ttl - 1, m.origin, m.seqno, e.node, m.linkMetric);
    }
  }

  /** The application bytes in a DATA body, by its flags: bit 0 is compression, bit 1 encryption, under which 12 bytes
      of nonce come first. */
  lemma BodyIsRead(z: Zlib, flags: byte, dest: NodeId, s: u32, nonce: Bytes, x: Bytes)
    requires |nonce| == 12
    ensures flags % 4 == 0 ==> Unpack(z, flags, dest + U32(s) + x) == Some(x)
    ensures flags % 4 == 1 ==> Unpack(z, flags, dest + U32(s) + x) == z.decompress(x)
    ensures flags % 4 == 2 ==> Unpack(z, flags, dest + U32(s) + (nonce + x)) == if x == [] then None else Some(x)
    ensures flags % 4 == 3 ==>
              Unpack(z, flags, dest + U32(s) + (nonce + x)) == if x == [] then None else z.decompress(x)
  {
    assert (dest + U32(s) + x)[12..] == x;
    assert (dest + U32(s) + (nonce + x))[12..] == nonce + x;
    assert (nonce + x)[12..] == x;
  }

  /** Bodies too short for that are not read. */
  lemma ShortBodyIsNotRead(z: Zlib, flags: byte, body: Bytes)
    requires |body| < 12 || (flags % 4 >= 2 && |body| <= 24)
    ensures Unpack(z, flags, body) == None
  {
  }

  /** A DATA frame for node d, whose application bytes can be read. */
  predicate Readable(z: Zlib, m: Message, d: NodeId) {
    m.Data? && |m.body| >= 12 && m.body[..8] == d && Unpack(z, m.flags, m.body).Some?
  }

  /** The whole effect of a DATA frame. A key in the cache stops it. Otherwise the key is cached with the time; a
      readable frame for the node is delivered and not forwarded; one for another node is forwarded iff its TTL
      exceeds 1 and the node has an entry for the destination, and then only the TTL changes. */
  lemma DataIsHandled(w: World, net: Net, e: Event, d: NodeId)
    requires Enabled(w, net, e) && e.Receive? && ParseFrame(e.frame).Data?
    requires |ParseFrame(e.frame).body| >= 12 ==> ParseFrame(e.frame).body[..8] == d
    ensures var m, st, r := ParseFrame(e.frame), net.nodes[e.node], EffectOf(w, net, e);
            var key := PacketKey(m.origin, m.seqno);
            if key in st.dataSeen then r.state == st && r.sent == None && r.delivered == None
            else
              && r.state == st.(dataSeen := st.dataSeen[key := e.now])
              && (r.delivered.Some? <==> Readable(w.zlib, m, d) && d == e.node)
              && (r.delivered.Some? ==>
                    r.delivered.value == Delivery(m.origin, d, FromU32(m.body[8..12]),
                                                  Unpack(w.zlib, m.flags, m.body).value))
              && (r.sent.Some? <==> Readable(w.zlib, m, d) && d != e.node && m.ttl > 1 && d in st.originators)
              && (r.sent.Some? ==> ParseFrame(r.sent.value) == Data(m.origin, m.seqno, m.ttl - 1, m.flags, m.body))
  {
    var m := ParseFrame(e.frame);
    if m.ttl > 1 {
      DataFrameRoundTrip(m.flags, m.ttl - 1, m.origin, m.seqno, m.body);
    }
  }

  /** A frame that is neither is ignored: too short, of another version, of another type, or an OGM without a metric. */
  lemma OthersAreIgnored(w: World, net: Net, e: Event)
    requires Enabled(w, net, e) && e.Receive?
    ensures ParseFrame(e.frame).Ignored? <==>
              || |e.frame| <= 16 || e.frame[0] != 1 || e.frame[1] > 1
              || (e.frame[1] == 1 && |e.frame| < 25)
    ensures ParseFrame(e.frame).Ignored? ==> EffectOf(w, net, e) == Effect(net.nodes[e.node], None, None)
  {
  }

  // --------------------------------------------------------- many hops

  /** The events can happen one after the other, from `net` to `net'`. */
  ghost predicate Plays(w: World, net: Net, events: seq<Event>, net': Net)
    decreases |events|
  {
    if events == [] then net' == net
    else Enabled(w, net, events[0]) && Plays(w, Step(w, net, events[0]), events[1..], net')
  }

  /** Events that can happen continue a run. */
  lemma {:induction false} PlayContinuesRun(w: World, states: seq<Net>, events: seq<Event>, more: seq<Event>, net': Net)
    returns (states': seq<Net>)
    requires IsRun(w, states, events) && Plays(w, states[|events|], more, net')
    ensures IsRun(w, states', events + more) && states <= states' && states'[|events + more|] == net'
    decreases |more|
  {
    if more == [] {
      states' := states;
      assert events + more == events;
    } else {
      var e := more[0];
      var next := states + [Step(w, states[|events|], e)];
      forall i | 0 <= i < |events + [e]| ensures StepAt(w, next, events + [e], i) {
        if i < |events| {
          assert StepAt(w, states, events, i);
        }
      }
      states' := PlayContinuesRun(w, next, events + [e], more[1..], net');
      assert events + [e] + more[1..] == events + more;
    }
  }

  /** The events are receipts along the path: the first node hears `frame`, each next one exactly what the node before
      it transmitted in answer. */
  ghost predicate PassesOn(w: World, net: Net, frame: Bytes, path: seq<NodeId>, events: seq<Event>)
    decreases |path|
  {
    && |events| == |path|
    && (path != [] ==>
          && events[0].Receive? && events[0].node == path[0] && events[0].frame == frame && Enabled(w, net, events[0])
          && (|path| > 1 ==>
                var sent := EffectOf(w, net, events[0]).sent;
                sent.Some? && PassesOn(w, Step(w, net, events[0]), sent.value, path[1..], events[1..])))
  }

  // ------------------------------------------------------ announcements

  /** Nodes may have gained routes; counters and packet caches are as before, and frames stay in the air. */
  ghost predicate LearnsOnly(net: Net, net': Net) {
    && net.nodes.Keys == net'.nodes.Keys && net.medium <= net'.medium
    && (forall n | n in net.nodes ::
          net'.nodes[n].dataSeen == net.nodes[n].dataSeen && net'.nodes[n].seqno == net.nodes[n].seqno)
    && forall n, o | HasRoute(net, n, o) :: HasRoute(net', n, o)
  }

  lemma LearnsOnlyTwice(a: Net, b: Net, c: Net)
    requires LearnsOnly(a, b) && LearnsOnly(b, c)
    ensures LearnsOnly(a, c)
  {
  }

  /** A node that hears an OGM learns a route, and passes it on while the TTL allows. */
  lemma OgmHop(w: World, net: Net, e: Event)
    requires Enabled(w, net, e) && e.Receive? && ParseFrame(e.frame).Ogm?
    ensures var m, net' := ParseFrame(e.frame), Step(w, net, e);
            && LearnsOnly(net, net') && HasRoute(net', e.node, m.origin)
            && (m.ttl > 1 ==>
                  && EffectOf(w, net, e).sent.Some? && EffectOf(w, net, e).sent.value in net'.medium
                  && ParseFrame(EffectOf(w, net, e).sent.value)
                  == Ogm(m.origin, m.seqno, m.ttl - 1, e.node, m.linkMetric))
  {
    OgmIsForwarded(w, net, e);
  }

  /** An OGM with enough TTL travels along any chain of nodes, each of which then has a route to its origin. */
  lemma {:induction false} OgmTravels(w: World, net: Net, frame: Bytes, path: seq<NodeId>, now: real)
    returns (events: seq<Event>, net': Net)
    requires net.nodes.Keys == w.cfg.Keys && frame in net.medium
    requires ParseFrame(frame).Ogm? && ParseFrame(frame).ttl >= |path|
    requires forall x | 0 <= x < |path| :: path[x] in w.cfg
    ensures PassesOn(w, net, frame, path, events) && Plays(w, net, events, net')
    ensures LearnsOnly(net, net')
    ensures forall x | 0 <= x < |path| :: HasRoute(net', path[x], ParseFrame(frame).origin)
    decreases |path|
  {
    events, net' := [], net;
    if path != [] {
      var e := Receive(path[0], frame, now);
      OgmHop(w, net, e);
      events, net' := [e], Step(w, net, e);
      if |path| > 1 {
        var rest, after := OgmTravels(w, net', EffectOf(w, net, e).sent.value, path[1..], now);
        LearnsOnlyTwice(net, net', after);
        forall x | 0 <= x < |path| ensures HasRoute(after, path[x], ParseFrame(frame).origin) {
          assert x > 0 ==> path[x] == path[1..][x - 1];
        }
        events, net' := [e] + rest, after;
        assert events[1..] == rest;
      }
    }
  }

  // ------------------------------------------------------------ packets

  /** A packet with this key and TTL can go along the path to d: no node is on it twice or has the packet in its cache,
      every node but the last has a route to d, and the TTL covers the hops. */
  ghost predicate CanTravel(net: Net, key: PacketKey, ttl: int, path: seq<NodeId>, d: NodeId) {
    && path != [] && path[|path| - 1] == d && NoRepeats(path)
    && (|path| > 1 ==> ttl >= |path|)
    && (forall x | 0 <= x < |path| :: path[x] in net.nodes && key !in net.nodes[path[x]].dataSeen)
    && forall x | 0 <= x < |path| - 1 :: HasRoute(net, path[x], d)
  }

  /** What the last of the events delivers. */
  ghost function LastDelivery(w: World, net: Net, events: seq<Event>): (d: Option<Delivery>)
    decreases |events|
  {
    if events == [] || !Enabled(w, net, events[0]) then None
    else if |events| == 1 then EffectOf(w, net, events[0]).delivered
    else LastDelivery(w, Step(w, net, events[0]), events[1..])
  }

  /** One node on the way to d. */
  lemma DataHop(w: World, net: Net, e: Event, path: seq<NodeId>, d: NodeId)
    requires Enabled(w, net, e) && e.Receive? && |path| > 1 && e.node == path[0]
    requires Readable(w.zlib, ParseFrame(e.frame), d)
    requires CanTravel(net, KeyOf(ParseFrame(e.frame)), ParseFrame(e.frame).ttl, path, d)
    ensures var m, net', sent := ParseFrame(e.frame), Step(w, net, e), EffectOf(w, net, e).sent;
            && sent.Some? && sent.value in net'.medium
            && ParseFrame(sent.value) == Data(m.origin, m.seqno, m.ttl - 1, m.flags, m.body)
            && CanTravel(net', KeyOf(m), m.ttl - 1, path[1..], d)
  {
    var net' := Step(w, net, e);
    assert path[0] != path[|path| - 1];
    DataIsHandled(w, net, e, d);
    forall x | 0 <= x < |path[1..]|
      ensures path[1..][x] in net'.nodes && net'.nodes[path[1..][x]] == net.nodes[path[1..][x]]
    {
      assert path[1..][x] == path[x + 1] != path[0];
    }
  }

  /** A packet travels along any path it can, and is delivered at the end. */
  lemma {:induction false} DataTravels(w: World, net: Net, frame: Bytes, path: seq<NodeId>, d: NodeId, now: real)
    returns (events: seq<Event>, net': Net)
    requires net.nodes.Keys == w.cfg.Keys && frame in net.medium && Readable(w.zlib, ParseFrame(frame), d)
    requires CanTravel(net, KeyOf(ParseFrame(frame)), ParseFrame(frame).ttl, path, d)
    ensures PassesOn(w, net, frame, path, events) && Plays(w, net, events, net')
    ensures LastDelivery(w, net, events) == Some(PayloadOf(w.zlib, ParseFrame(frame), d))
    decreases |path|
  {
    var e := Receive(path[0], frame, now);
    events, net' := [e], Step(w, net, e);
    if |path| == 1 {
      DataIsHandled(w, net, e, d);
    } else {
      DataHop(w, net, e, path, d);
      var rest;
      rest, net' := DataTravels(w, net', EffectOf(w, net, e).sent.value, path[1..], d, now);
      events := [e] + rest;
      assert events[1..] == rest;
    }
  }

  /** The delivery a readable frame leads to. */
  ghost function PayloadOf(z: Zlib, m: Message, d: NodeId): (r: Delivery)
    requires Readable(z, m, d)
  {
    Delivery(m.origin, d, FromU32(m.body[8..12]), Unpack(z, m.flags, m.body).value)
  }

  /** What it takes for a node to pass the packet on. */
  lemma PassingNeeds(w: World, net: Net, e: Event, path: seq<NodeId>, d: NodeId)
    requires Enabled(w, net, e) && e.Receive? && |path| > 1 && e.node == path[0]
    requires Readable(w.zlib, ParseFrame(e.frame), d) && EffectOf(w, net, e).sent.Some?
    ensures var m := ParseFrame(e.frame);
            && ParseFrame(EffectOf(w, net, e).sent.value) == Data(m.origin, m.seqno, m.ttl - 1, m.flags, m.body)
            && (CanTravel(Step(w, net, e), KeyOf(m), m.ttl - 1, path[1..], d) ==>
                  CanTravel(net, KeyOf(m), m.ttl, path, d))
  {
    var m, net' := ParseFrame(e.frame), Step(w, net, e);
    DataIsHandled(w, net, e, d);
    if CanTravel(net', KeyOf(m), m.ttl - 1, path[1..], d) {
      forall x | 1 <= x < |path|
        ensures path[x] in net.nodes && path[x] != path[0] && net'.nodes[path[x]] == net.nodes[path[x]]
        ensures KeyOf(m) !in net.nodes[path[x]].dataSeen
      {
        assert path[x] == path[1..][x - 1];
      }
      forall x | 1 <= x < |path| - 1 ensures HasRoute(net, path[x], d) {
        assert path[x] == path[1..][x - 1] && HasRoute(net', path[1..][x - 1], d);
      }
      forall x, y | 0 <= x < y < |path| ensures path[x] != path[y] {
        assert x > 0 ==> path[x] == path[1..][x - 1] && path[y] == path[1..][y - 1];
      }
    }
  }

  /** And only then. */
  lemma {:induction false} DataNeedsThePath(w: World, net: Net, frame: Bytes, path: seq<NodeId>, d: NodeId,
                                            events: seq<Event>)
    requires Readable(w.zlib, ParseFrame(frame), d)
    requires PassesOn(w, net, frame, path, events) && LastDelivery(w, net, events).Some?
    ensures CanTravel(net, KeyOf(ParseFrame(frame)), ParseFrame(frame).ttl, path, d)
    decreases |path|
  {
    var e := events[0];
    if |path| == 1 {
      DataIsHandled(w, net, e, d);
    } else {
      PassingNeeds(w, net, e, path, d);
      DataNeedsThePath(w, Step(w, net, e), EffectOf(w, net, e).sent.value, path[1..], d, events[1..]);
    }
  }

  /** Exactly when a packet travels. Receipts along the path, each of what the node before transmitted, can end in its
      delivery iff no node is on the path twice or has the packet in its cache, every node but the last has a route to
      the destination, the last is the destination, and the TTL covers the hops. A single hop needs no TTL. */
  lemma TravelsExactlyWhen(w: World, net: Net, frame: Bytes, path: seq<NodeId>, d: NodeId)
    requires net.nodes.Keys == w.cfg.Keys && frame in net.medium && Readable(w.zlib, ParseFrame(frame), d)
    requires path != []
    ensures (exists events :: PassesOn(w, net, frame, path, events)
                              && LastDelivery(w, net, events) == Some(PayloadOf(w.zlib, ParseFrame(frame), d)))
       <==> CanTravel(net, KeyOf(ParseFrame(frame)), ParseFrame(frame).ttl, path, d)
  {
    if CanTravel(net, KeyOf(ParseFrame(frame)), ParseFrame(frame).ttl, path, d) {
      var events, net' := DataTravels(w, net, frame, path, d, 0.0);
    }
    if events :| PassesOn(w, net, frame, path, events)
                 && LastDelivery(w, net, events) == Some(PayloadOf(w.zlib, ParseFrame(frame), d)) {
      DataNeedsThePath(w, net, frame, path, d, events);
    }
  }

  // ------------------------------------------ discovery and delivery

  function Reversed(path: seq<NodeId>): (r: seq<NodeId>)
    ensures |r| == |path| && forall x | 0 <= x < |path| :: r[x] == path[|path| - 1 - x]
  {
    if path == [] then [] else Reversed(path[1..]) + [path[0]]
  }

  lemma {:induction false} DeliveryIsRecorded(w: World, net: Net, events: seq<Event>, net': Net)
    requires Plays(w, net, events, net') && LastDelivery(w, net, events).Some?
    ensures (events[|events| - 1].node, LastDelivery(w, net, events).value) in net'.deliveries
    decreases |events|
  {
    if |events| > 1 {
      DeliveryIsRecorded(w, Step(w, net, events[0]), events[1..], net');
    }
  }

  /** Event e happens, and what it transmits is handed along the path, each node hearing only the one before it. */
  ghost predicate SetsOff(w: World, net: Net, e: Event, path: seq<NodeId>, hops: seq<Event>, net': Net) {
    && Enabled(w, net, e) && EffectOf(w, net, e).sent.Some?
    && PassesOn(w, Step(w, net, e), EffectOf(w, net, e).sent.value, path, hops)
    && Plays(w, Step(w, net, e), hops, net')
  }

  /** The node d announces itself, and the announcement goes along `back`. */
  lemma Discovers(w: World, net: Net, d: NodeId, back: seq<NodeId>, now: real) returns (found: seq<Event>, mid: Net)
    requires net.nodes.Keys == w.cfg.Keys && d in w.cfg && w.cfg[d].ogmTtl >= |back|
    requires forall x | 0 <= x < |back| :: back[x] in w.cfg
    ensures SetsOff(w, net, SendOgm(d), back, found, mid) && mid.nodes.Keys == w.cfg.Keys
    ensures forall x | 0 <= x < |back| :: HasRoute(mid, back[x], d)
    ensures forall n | n in net.nodes :: mid.nodes[n].dataSeen == net.nodes[n].dataSeen
    ensures forall n | n in net.nodes && n != d :: mid.nodes[n].seqno == net.nodes[n].seqno
  {
    OgmIsSent(w, net, SendOgm(d));
    found, mid := OgmTravels(w, Step(w, net, SendOgm(d)), EffectOf(w, net, SendOgm(d)).sent.value, back, now);
  }

  /** The packet that o sends for d goes along the path. */
  lemma Delivers(w: World, net: Net, o: NodeId, path: seq<NodeId>, d: NodeId, payload: Bytes, now: real)
    returns (hops: seq<Event>, after: Net)
    requires net.nodes.Keys == w.cfg.Keys && o in w.cfg && Lossless(w.zlib)
    requires CanTravel(net, PacketKey(o, NextSeqno(net.nodes[o].seqno)), w.cfg[o].ogmTtl, path, d)
    ensures SetsOff(w, net, SendData(o, d, payload), path, hops, after)
    ensures (d, Delivery(o, d, NextSeqno(net.nodes[o].seqno), payload)) in after.deliveries
  {
    var e, s := SendData(o, d, payload), NextSeqno(net.nodes[o].seqno);
    SentPacket(w, net, e);
    var net1, frame := Step(w, net, e), EffectOf(w, net, e).sent.value;
    SendingKeepsPaths(w, net, e, PacketKey(o, s), w.cfg[o].ogmTtl, path, d);
    hops, after := DataTravels(w, net1, frame, path, d, now);
    DeliveryIsRecorded(w, net1, hops, after);
    LastNode(w, net1, frame, path, hops);
  }

  /** What is sent can be read, and reads as what was handed in. */
  lemma SentPacket(w: World, net: Net, e: Event)
    requires Enabled(w, net, e) && e.SendData? && Lossless(w.zlib)
    ensures var sent, s := EffectOf(w, net, e).sent, NextSeqno(net.nodes[e.node].seqno);
            && sent.Some? && sent.value in Step(w, net, e).medium
            && var m := ParseFrame(sent.value);
               && Readable(w.zlib, m, e.dest) && KeyOf(m) == PacketKey(e.node, s) && m.ttl == w.cfg[e.node].ogmTtl
               && PayloadOf(w.zlib, m, e.dest) == Delivery(e.node, e.dest, s, e.payload)
  {
    var s := NextSeqno(net.nodes[e.node].seqno);
    DataFrameRoundTrip(PackFlags(w.zlib, e.payload), w.cfg[e.node].ogmTtl, e.node, s,
                       DataBody(w.zlib, e.dest, s, e.payload));
    UnpackInvertsPack(w.zlib, e.dest, s, e.payload);
  }

  lemma SendingKeepsPaths(w: World, net: Net, e: Event, key: PacketKey, ttl: int, path: seq<NodeId>, d: NodeId)
    requires Enabled(w, net, e) && e.SendData? && CanTravel(net, key, ttl, path, d)
    ensures CanTravel(Step(w, net, e), key, ttl, path, d)
  {
  }

  lemma {:induction false} LastNode(w: World, net: Net, frame: Bytes, path: seq<NodeId>, events: seq<Event>)
    requires path != [] && PassesOn(w, net, frame, path, events)
    ensures events[|events| - 1].node == path[|path| - 1]
    decreases |path|
  {
    if |path| > 1 {
      LastNode(w, Step(w, net, events[0]), EffectOf(w, net, events[0]).sent.value, path[1..], events[1..]);
    }
  }

  lemma RouteBack(net: Net, mid: Net, key: PacketKey, ttl: int, path: seq<NodeId>, d: NodeId, back: seq<NodeId>)
    requires path != [] && path[|path| - 1] == d && NoRepeats(path) && (|path| > 1 ==> ttl >= |path|)
    requires net.nodes.Keys == mid.nodes.Keys
    requires forall n | n in net.nodes :: mid.nodes[n].dataSeen == net.nodes[n].dataSeen
    requires forall x | 0 <= x < |path| :: path[x] in net.nodes && key !in net.nodes[path[x]].dataSeen
    requires back == Reversed(path[..|path| - 1]) && forall x | 0 <= x < |back| :: HasRoute(mid, back[x], d)
    ensures CanTravel(mid, key, ttl, path, d)
  {
    forall x | 0 <= x < |path| - 1 ensures HasRoute(mid, path[x], d) {
      assert HasRoute(mid, back[|back| - 1 - x], d);
    }
  }

  /** Any chain of nodes works as a route. After any run, let d announce itself and the announcement be handed along the
      path backwards, then let o send to d and the packet be handed along the path. If the two TTLs cover the hops and
      no node on the path has the packet's key in its cache, d delivers the payload. */
  lemma DiscoverAndDeliver(w: World, states: seq<Net>, events: seq<Event>, o: NodeId, path: seq<NodeId>, d: NodeId,
                           payload: Bytes, now: real)
    returns (found: seq<Event>, mid: Net, hops: seq<Event>, after: Net)
    requires IsRun(w, states, events) && Lossless(w.zlib) && o in w.cfg && o != d && o in states[|events|].nodes
    requires path != [] && path[|path| - 1] == d && NoRepeats(path) && forall x | 0 <= x < |path| :: path[x] in w.cfg
    requires w.cfg[d].ogmTtl >= |path| - 1 && (|path| > 1 ==> w.cfg[o].ogmTtl >= |path|)
    requires forall x | 0 <= x < |path| && path[x] in states[|events|].nodes ::
               PacketKey(o, NextSeqno(states[|events|].nodes[o].seqno)) !in states[|events|].nodes[path[x]].dataSeen
    ensures SetsOff(w, states[|events|], SendOgm(d), Reversed(path[..|path| - 1]), found, mid)
    ensures SetsOff(w, mid, SendData(o, d, payload), path, hops, after)
    ensures (d, Delivery(o, d, NextSeqno(states[|events|].nodes[o].seqno), payload)) in after.deliveries
    ensures exists states' :: IsRun(w, states', events + ([SendOgm(d)] + found) + ([SendData(o, d, payload)] + hops))
                              && states <= states' && states'[|states'| - 1] == after
  {
    var net, back := states[|events|], Reversed(path[..|path| - 1]);
    RunNodes(w, states, events, |events|);
    found, mid := Discovers(w, net, d, back, now);
    RouteBack(net, mid, PacketKey(o, NextSeqno(net.nodes[o].seqno)), w.cfg[o].ogmTtl, path, d, back);
    hops, after := Delivers(w, mid, o, path, d, payload, now);
    var s1 := SetsOffInRun(w, states, events, SendOgm(d), back, found, mid);
    var s2 := SetsOffInRun(w, s1, events + ([SendOgm(d)] + found), SendData(o, d, payload), path, hops, after);
    PrefixOfPrefix(states, s1, s2);
  }

  lemma SetsOffInRun(w: World, states: seq<Net>, events: seq<Event>, e: Event, path: seq<NodeId>, hops: seq<Event>,
                     net': Net)
    returns (states': seq<Net>)
    requires IsRun(w, states, events) && SetsOff(w, states[|events|], e, path, hops, net')
    ensures IsRun(w, states', events + ([e] + hops)) && states <= states'
    ensures states'[|states'| - 1] == net' && states'[|events + ([e] + hops)|] == net'
  {
    assert ([e] + hops)[1..] == hops;
    states' := PlayContinuesRun(w, states, events, [e] + hops, net');
  }
}
