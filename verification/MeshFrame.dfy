/** Mesh frames on the wire: a 16-byte header followed by an OGM or DATA body (mesh_node.py). */
module MeshFrame {
  import opened Basics
  import opened Bytes

  type NodeId = id: Bytes | |id| == 8 witness [0, 0, 0, 0, 0, 0, 0, 0]

  const MESH_VERSION: byte := 1
  const MSG_DATA: byte := 0
  const MSG_OGM: byte := 1
  const FLAG_COMPRESSED: byte := 1

  datatype Header = Header(version: byte, msgType: byte, flags: byte, ttl: byte, origin: NodeId, seqno: u32)

  function BuildHeader(msgType: byte, flags: byte, ttl: byte, origin: NodeId, seqno: u32): (h: Bytes)
    ensures |h| == 16
  {
    [MESH_VERSION, msgType, flags, ttl] + origin + U32(seqno)
  }

  /** None is the ValueError raised for an input shorter than a header. */
  function ParseHeader(info: Bytes): (r: Option<Header>)
    ensures r.Some? <==> |info| >= 16
  {
    if |info| < 16 then None
    else Some(Header(info[0], info[1], info[2], info[3], info[4..12], FromU32(info[12..16])))
  }

  lemma HeaderRoundTrip(msgType: byte, flags: byte, ttl: byte, origin: NodeId, seqno: u32, body: Bytes)
    ensures ParseHeader(BuildHeader(msgType, flags, ttl, origin, seqno) + body)
         == Some(Header(MESH_VERSION, msgType, flags, ttl, origin, seqno))
    ensures (BuildHeader(msgType, flags, ttl, origin, seqno) + body)[16..] == body
  {
    var info := BuildHeader(msgType, flags, ttl, origin, seqno) + body;
    assert info[4..12] == origin;
    assert info[12..16] == U32(seqno);
    U32RoundTrip(seqno);
  }

  /** Every byte string whose version is the current one is the rendering of its own parse. */
  lemma HeaderRebuild(info: Bytes)
    requires |info| >= 16 && info[0] == MESH_VERSION
    ensures var h := ParseHeader(info).value;
            BuildHeader(h.msgType, h.flags, h.ttl, h.origin, h.seqno) + info[16..] == info
  {
    FromU32RoundTrip(info[12..16]);
    assert info == info[..4] + info[4..12] + info[12..16] + info[16..];
  }

  /** What `_on_link_frame` hands to a handler; Ignored covers every early return before one. */
  datatype Message =
    | Ogm(origin: NodeId, seqno: u32, ttl: byte, prevHop: NodeId, linkMetric: byte)
    | Data(origin: NodeId, seqno: u32, ttl: byte, flags: byte, body: Bytes)
    | Ignored

  function ParseFrame(frame: Bytes): (m: Message)
    ensures m.Ogm? || m.Data? ==> |frame| > 16 && m.ttl == frame[3]
  {
    if |frame| <= 16 then Ignored else
    var h := ParseHeader(frame).value;
    var body := frame[16..];
    if h.version != MESH_VERSION then Ignored
    else if h.msgType == MSG_OGM then
      if |body| < 9 then Ignored
      else Ogm(h.origin, h.seqno, h.ttl, body[0..8], body[8])
    else if h.msgType == MSG_DATA then Data(h.origin, h.seqno, h.ttl, h.flags, body)
    else Ignored
  }

  /** Byte by byte, when a received frame is this DATA message. */
  lemma DataLayout(frame: Bytes, origin: NodeId, seqno: u32, ttl: byte, flags: byte, body: Bytes)
    ensures ParseFrame(frame) == Data(origin, seqno, ttl, flags, body) <==>
              && |frame| > 16 && frame[0] == 1 && frame[1] == 0 && frame[2] == flags && frame[3] == ttl
              && frame[4..12] == origin && frame[16..] == body
              && seqno == frame[12] as int * 16777216 + frame[13] as int * 65536 + frame[14] as int * 256 + frame[15]
  {
    assert |frame| > 16 ==> frame[12..16] == [frame[12], frame[13], frame[14], frame[15]];
  }

  /** Byte by byte, when it is this OGM; the flags byte and anything after the metric are not looked at. */
  lemma OgmLayout(frame: Bytes, origin: NodeId, seqno: u32, ttl: byte, prevHop: NodeId, linkMetric: byte)
    ensures ParseFrame(frame) == Ogm(origin, seqno, ttl, prevHop, linkMetric) <==>
              && |frame| >= 25 && frame[0] == 1 && frame[1] == 1 && frame[3] == ttl
              && frame[4..12] == origin && frame[16..24] == prevHop && frame[24] == linkMetric
              && seqno == frame[12] as int * 16777216 + frame[13] as int * 65536 + frame[14] as int * 256 + frame[15]
  {
    assert |frame| > 16 ==> frame[12..16] == [frame[12], frame[13], frame[14], frame[15]];
    assert |frame| >= 25 ==> frame[16..][0..8] == frame[16..24];
  }

  function OgmFrame(ttl: byte, origin: NodeId, seqno: u32, prevHop: NodeId, linkMetric: byte): (f: Bytes)
  {
    BuildHeader(MSG_OGM, 0, ttl, origin, seqno) + (prevHop + [linkMetric])
  }

  function DataFrame(flags: byte, ttl: byte, origin: NodeId, seqno: u32, body: Bytes): (f: Bytes)
  {
    BuildHeader(MSG_DATA, flags, ttl, origin, seqno) + body
  }

  lemma OgmFrameRoundTrip(ttl: byte, origin: NodeId, seqno: u32, prevHop: NodeId, linkMetric: byte)
    ensures ParseFrame(OgmFrame(ttl, origin, seqno, prevHop, linkMetric))
         == Ogm(origin, seqno, ttl, prevHop, linkMetric)
    ensures var f := OgmFrame(ttl, origin, seqno, prevHop, linkMetric); |f| == 25 && f[2] == 0
  {
    var body := prevHop + [linkMetric];
    HeaderRoundTrip(MSG_OGM, 0, ttl, origin, seqno, body);
    assert body[0..8] == prevHop;
  }

  lemma DataFrameRoundTrip(flags: byte, ttl: byte, origin: NodeId, seqno: u32, body: Bytes)
    requires body != []
    ensures ParseFrame(DataFrame(flags, ttl, origin, seqno, body)) == Data(origin, seqno, ttl, flags, body)
  {
    HeaderRoundTrip(MSG_DATA, flags, ttl, origin, seqno, body);
  }
}
