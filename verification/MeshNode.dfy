/** One mesh node (mesh_node.py): OGM and DATA handling, sequence numbers, the packet-id cache and cleanup.
    The pure functions give every handler's effect on a `NodeState` value; class `MeshNode` updates its
    fields in place and is proved to have exactly that effect. */
module MeshNode {
  import opened Basics
  import opened Bytes
  import opened MeshFrame

  datatype OriginatorEntry = OriginatorEntry(bestNextHop: NodeId, lastSeqno: u32, metric: byte, lastSeen: real)
  datatype NeighborEntry = NeighborEntry(lastSeen: real, linkMetric: byte)
  datatype PacketKey = PacketKey(origin: NodeId, seqno: u32)
  datatype Delivery = Delivery(origin: NodeId, dest: NodeId, seqno: u32, payload: Bytes)

  /** `ogmTtl` is also the TTL of DATA frames (mesh_node.py:348). */
  datatype NodeConfig = NodeConfig(ogmTtl: byte, routeExpiry: real, neighborExpiry: real, dataSeenExpiry: real)

  datatype NodeState = NodeState(
    seqno: u32,
    originators: map<NodeId, OriginatorEntry>,
    neighbors: map<NodeId, NeighborEntry>,
    dataSeen: map<PacketKey, real>)

  const FRESH_NODE := NodeState(0, map[], map[], map[])

  /** What one handler call does: the new state, and the frame and delivery it produces, if any. */
  datatype Effect = Effect(state: NodeState, sent: Option<Bytes>, delivered: Option<Delivery>)

  /** zlib as a pair of functions; `decompress` is None where the library raises zlib.error. */
  datatype Zlib = Zlib(compress: Bytes -> Bytes, decompress: Bytes -> Option<Bytes>)

  ghost predicate Lossless(z: Zlib) {
    forall x :: z.decompress(z.compress(x)) == Some(x)
  }

  function NextSeqno(s: u32): (r: u32) {
    (s + 1) % U32_LIMIT
  }

  // ---------------------------------------------------------------- OGM

  function BuildOgm(cfg: NodeConfig, self: NodeId, st: NodeState): (e: Effect) {
    var s := NextSeqno(st.seqno);
    Effect(st.(seqno := s), Some(OgmFrame(cfg.ogmTtl, self, s, self, 255)), None)
  }

  function HandleOgm(self: NodeId, st: NodeState, m: Message, now: real): (e: Effect)
    requires m.Ogm?
  {
    var adopt := m.origin !in st.originators || m.seqno > st.originators[m.origin].lastSeqno;
    var entry := OriginatorEntry(m.prevHop, m.seqno, m.linkMetric, now);
    var st' := st.(
      neighbors := st.neighbors[m.prevHop := NeighborEntry(now, m.linkMetric)],
      originators := if adopt then st.originators[m.origin := entry] else st.originators);
    Effect(st', if m.ttl > 1 then Some(OgmFrame(m.ttl - 1, m.origin, m.seqno, self, m.linkMetric)) else None, None)
  }

  // --------------------------------------------------------------- DATA

  predicate Compressed(flags: byte) { flags % 2 == 1 }
  predicate Encrypted(flags: byte) { flags / 2 % 2 == 1 }

  /** The bytes that travel for an application payload: compressed only when that is shorter. */
  function Pack(z: Zlib, payload: Bytes): (r: Bytes) {
    if |z.compress(payload)| < |payload| then z.compress(payload) else payload
  }

  function PackFlags(z: Zlib, payload: Bytes): (f: byte) {
    if |z.compress(payload)| < |payload| then FLAG_COMPRESSED else 0
  }

  function DataBody(z: Zlib, dest: NodeId, seqno: u32, payload: Bytes): (b: Bytes)
    ensures |b| >= 12
  {
    dest + U32(seqno) + Pack(z, payload)
  }

  /** `send_application_data` with encryption off; the ValueError for a bad destination length is None. */
  function SendPacket(cfg: NodeConfig, z: Zlib, self: NodeId, st: NodeState, dest: Bytes,
                      payload: Bytes): (r: Option<Effect>)
    ensures r.Some? <==> |dest| == 8
  {
    if |dest| != 8 then None else
    var s := NextSeqno(st.seqno);
    Some(Effect(st.(seqno := s),
                Some(DataFrame(PackFlags(z, payload), cfg.ogmTtl, self, s, DataBody(z, dest, s, payload))),
                None))
  }

  /** The application bytes of a DATA body, or None where the handler drops the frame. */
  function Unpack(z: Zlib, flags: byte, body: Bytes): (r: Option<Bytes>) {
    if |body| < 12 then None else
    var remainder := body[12..];
    if Encrypted(flags) && |remainder| < 13 then None else
    // A disabled encryptor passes the ciphertext through (crypto_layer.py:75-77).
    var app := if Encrypted(flags) then remainder[12..] else remainder;
    if Compressed(flags) then z.decompress(app) else Some(app)
  }

  function HandleData(z: Zlib, self: NodeId, st: NodeState, m: Message, now: real): (e: Effect)
    requires m.Data?
  {
    var key := PacketKey(m.origin, m.seqno);
    if key in st.dataSeen then Effect(st, None, None) else
    var st' := st.(dataSeen := st.dataSeen[key := now]);
    var app := Unpack(z, m.flags, m.body);
    if app.None? then Effect(st', None, None) else
    var dest := m.body[0..8];
    if dest == self then
      Effect(st', None, Some(Delivery(m.origin, dest, FromU32(m.body[8..12]), app.value)))
    else if m.ttl <= 1 || LookupNextHop(st, dest).None? then Effect(st', None, None)
    else Effect(st', Some(DataFrame(m.flags, m.ttl - 1, m.origin, m.seqno, m.body)), None)
  }

  function LookupNextHop(st: NodeState, dest: NodeId): (r: Option<NodeId>)
    ensures r.Some? <==> dest in st.originators
  {
    if dest in st.originators then Some(st.originators[dest].bestNextHop) else None
  }

  function OnLinkFrame(z: Zlib, self: NodeId, st: NodeState, frame: Bytes, now: real): (e: Effect) {
    var m := ParseFrame(frame);
    match m
    case Ogm(_, _, _, _, _) => HandleOgm(self, st, m, now)
    case Data(_, _, _, _, _) => HandleData(z, self, st, m, now)
    case Ignored => Effect(st, None, None)
  }

  // ------------------------------------------------------------ Cleanup

  function Expire(cfg: NodeConfig, st: NodeState, now: real): (st': NodeState) {
    st.(originators := map k | k in st.originators && now - st.originators[k].lastSeen <= cfg.routeExpiry ::
                         st.originators[k],
        neighbors := map k | k in st.neighbors && now - st.neighbors[k].lastSeen <= cfg.neighborExpiry ::
                       st.neighbors[k],
        dataSeen := map k | k in st.dataSeen && now - st.dataSeen[k] <= cfg.dataSeenExpiry :: st.dataSeen[k])
  }

  // ------------------------------------------------- the mutable object

  class MeshNode {
    const cfg: NodeConfig
    const zlib: Zlib
    const self: NodeId
    var seqno: u32
    var originators: map<NodeId, OriginatorEntry>
    var neighbors: map<NodeId, NeighborEntry>
    var dataSeen: map<PacketKey, real>
    /** Frames passed to the link client and calls of the application callback, oldest first. */
    var linkSent: seq<Bytes>
    var appCalls: seq<Delivery>

    function State(): (st: NodeState)
      reads this
    {
      NodeState(seqno, originators, neighbors, dataSeen)
    }

    /** The object moved from `before` by exactly the effect `e`. */
    twostate predicate Did(e: Effect)
      reads this
    {
      && State() == e.state
      && linkSent == old(linkSent) + (if e.sent.Some? then [e.sent.value] else [])
      && appCalls == old(appCalls) + (if e.delivered.Some? then [e.delivered.value] else [])
    }

    constructor (cfg: NodeConfig, zlib: Zlib, self: NodeId)
      ensures State() == FRESH_NODE && linkSent == [] && appCalls == []
      ensures this.cfg == cfg && this.zlib == zlib && this.self == self
    {
      this.cfg, this.zlib, this.self := cfg, zlib, self;
      seqno, originators, neighbors, dataSeen := 0, map[], map[], map[];
      linkSent, appCalls := [], [];
    }

    method TakeSeqno() returns (s: u32)
      modifies this`seqno
      ensures s == seqno == NextSeqno(old(seqno))
    {
      seqno := (seqno + 1) % U32_LIMIT;
      s := seqno;
    }

    method BroadcastOgm()
      modifies this
      ensures Did(BuildOgm(cfg, self, old(State())))
    {
      var s := TakeSeqno();
      linkSent := linkSent + [OgmFrame(cfg.ogmTtl, self, s, self, 255)];
    }

    method SendApplicationData(dest: Bytes, payload: Bytes) returns (r: Option<u32>)
      modifies this
      ensures var e := SendPacket(cfg, zlib, self, old(State()), dest, payload);
              if e.None? then r == None && Did(Effect(old(State()), None, None))
              else Did(e.value) && r == Some(seqno)
    {
      if |dest| != 8 {
        return None;
      }
      var s := TakeSeqno();
      var flags: byte := 0;
      var compressed := zlib.compress(payload);
      var toSend := payload;
      if |compressed| < |payload| {
        toSend := compressed;
        flags := FLAG_COMPRESSED;
      }
      var body := dest + U32(s) + toSend;
      linkSent := linkSent + [DataFrame(flags, cfg.ogmTtl, self, s, body)];
      r := Some(s);
    }

    method ReceiveOgm(m: Message, now: real)
      requires m.Ogm?
      modifies this
      ensures Did(HandleOgm(self, old(State()), m, now))
    {
      neighbors := neighbors[m.prevHop := NeighborEntry(now, m.linkMetric)];
      if m.origin !in originators {
        originators := originators[m.origin := OriginatorEntry(m.prevHop, m.seqno, m.linkMetric, now)];
      } else if m.seqno > originators[m.origin].lastSeqno {
        originators := originators[m.origin := OriginatorEntry(m.prevHop, m.seqno, m.linkMetric, now)];
      }
      if m.ttl > 1 {
        linkSent := linkSent + [OgmFrame(m.ttl - 1, m.origin, m.seqno, self, m.linkMetric)];
      }
    }

    method ReceiveData(m: Message, now: real)
      requires m.Data?
      modifies this
      ensures Did(HandleData(zlib, self, old(State()), m, now))
    {
      var key := PacketKey(m.origin, m.seqno);
      if key in dataSeen {
        return;
      }
      dataSeen := dataSeen[key := now];
      if |m.body| < 12 {
        return;
      }
      var dest, dataSeq, app := m.body[0..8], FromU32(m.body[8..12]), m.body[12..];
      if Encrypted(m.flags) {
        if |app| < 13 {
          return;
        }
        app := app[12..];
      }
      if Compressed(m.flags) {
        var d := zlib.decompress(app);
        if d.None? {
          return;
        }
        app := d.value;
      }
      if dest == self {
        appCalls := appCalls + [Delivery(m.origin, dest, dataSeq, app)];
        return;
      }
      if m.ttl <= 1 {
        return;
      }
      if dest !in originators {
        return;
      }
      linkSent := linkSent + [DataFrame(m.flags, m.ttl - 1, m.origin, m.seqno, m.body)];
    }

    method Receive(frame: Bytes, now: real)
      modifies this
      ensures Did(OnLinkFrame(zlib, self, old(State()), frame, now))
    {
      var m := ParseFrame(frame);
      match m
      case Ogm(_, _, _, _, _) => ReceiveOgm(m, now);
      case Data(_, _, _, _, _) => ReceiveData(m, now);
      case Ignored =>
    }

    method RunCleanup(now: real)
      modifies this
      ensures Did(Effect(Expire(cfg, old(State()), now), None, None))
    {
      var deadOrig := set k | k in originators && now - originators[k].lastSeen > cfg.routeExpiry;
      originators := originators - deadOrig;
      var deadNei := set k | k in neighbors && now - neighbors[k].lastSeen > cfg.neighborExpiry;
      neighbors := neighbors - deadNei;
      var deadData := set k | k in dataSeen && now - dataSeen[k] > cfg.dataSeenExpiry;
      dataSeen := dataSeen - deadData;
      assert State() == Expire(cfg, old(State()), now);
    }
  }
}
