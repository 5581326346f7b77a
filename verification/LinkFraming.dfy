/** Length-prefixed framing over a byte stream, and the TCP link's handshake (ardop_link.py, tcp_link.py). */
module LinkFraming {
  import opened Basics
  import opened Bytes

  // ---------------------------------------------------------- the stream

  function FrameLen(b: Bytes): (n: int)
    requires |b| >= 2
  {
    FromU16(b[0], b[1])
  }

  /** The buffer starts with a whole frame. */
  predicate Whole(b: Bytes) { |b| >= 2 && |b| >= 2 + FrameLen(b) }

  /** The complete frames at the front of a stream, and the bytes after them (ARDOP link). */
  function Frames(b: Bytes): (r: (seq<Bytes>, Bytes))
    decreases |b|
  {
    if !Whole(b) then ([], b) else
    var (more, rest) := Frames(b[2 + FrameLen(b)..]);
    ([b[2..2 + FrameLen(b)]] + more, rest)
  }

  /** The same for the TCP link, which skips zero-length frames. */
  function TcpFrames(b: Bytes): (r: (seq<Bytes>, Bytes))
    decreases |b|
  {
    if |b| < 2 then ([], b)
    else if FrameLen(b) <= 0 then TcpFrames(b[2..])
    else if |b| < 2 + FrameLen(b) then ([], b)
    else
      var (more, rest) := TcpFrames(b[2 + FrameLen(b)..]);
      ([b[2..2 + FrameLen(b)]] + more, rest)
  }

  function NonEmpty(fs: seq<Bytes>): (r: seq<Bytes>) {
    if fs == [] then [] else (if fs[0] == [] then [] else [fs[0]]) + NonEmpty(fs[1..])
  }

  lemma {:induction false} NonEmptyIsAll(fs: seq<Bytes>)
    ensures |NonEmpty(fs)| <= |fs|
    ensures NonEmpty(fs) == fs <==> forall f | f in fs :: f != []
  {
    if fs != [] {
      NonEmptyIsAll(fs[1..]);
      assert fs == [fs[0]] + fs[1..];
      if fs[0] == [] {
        assert |NonEmpty(fs)| < |fs| && fs[0] in fs;
      } else {
        assert NonEmpty(fs) == [fs[0]] + NonEmpty(fs[1..]);
        assert NonEmpty(fs)[1..] == NonEmpty(fs[1..]);
        forall f ensures f in fs <==> f == fs[0] || f in fs[1..] {
        }
      }
    }
  }

  function Flatten(chunks: seq<Bytes>): (b: Bytes) {
    if chunks == [] then [] else chunks[0] + Flatten(chunks[1..])
  }

  /** More bytes only add frames: what a prefix yields stays, and decoding resumes from its rest. */
  lemma {:induction false} FramesResume(a: Bytes, b: Bytes)
    ensures Frames(a + b) == (Frames(a).0 + Frames(Frames(a).1 + b).0, Frames(Frames(a).1 + b).1)
    decreases |a|
  {
    if Whole(a) {
      var cut := 2 + FrameLen(a);
      FramesResume(a[cut..], b);
      assert (a + b)[cut..] == a[cut..] + b && (a + b)[2..cut] == a[2..cut];
      Assoc([a[2..cut]], Frames(a[cut..]).0, Frames(Frames(a[cut..]).1 + b).0);
    } else {
      assert [] + Frames(a + b).0 == Frames(a + b).0;
    }
  }

  /** The TCP decoder delivers what the ARDOP decoder does without its empty frames, and leaves the same rest. */
  lemma {:induction false} TcpSkipsEmpty(b: Bytes)
    ensures TcpFrames(b) == (NonEmpty(Frames(b).0), Frames(b).1)
    decreases |b|
  {
    if Whole(b) {
      var cut := 2 + FrameLen(b);
      TcpSkipsEmpty(b[cut..]);
      var (more, rest) := Frames(b[cut..]);
      assert ([b[2..cut]] + more)[1..] == more;
      assert [] + NonEmpty(more) == NonEmpty(more);
    }
  }

  /** The two decoders agree on every stream up to zero-length frames, which only the ARDOP link delivers;
      so they agree exactly when the stream has none. */
  lemma DecodersAgree(b: Bytes)
    ensures TcpFrames(b) == (NonEmpty(Frames(b).0), Frames(b).1)
    ensures TcpFrames(b) == Frames(b) <==> forall f | f in Frames(b).0 :: f != []
  {
    TcpSkipsEmpty(b);
    NonEmptyIsAll(Frames(b).0);
  }

  lemma {:induction false} NonEmptyConcat(a: seq<Bytes>, b: seq<Bytes>)
    ensures NonEmpty(a + b) == NonEmpty(a) + NonEmpty(b)
  {
    if a == [] {
      assert a + b == b;
    } else {
      NonEmptyConcat(a[1..], b);
      assert (a + b)[0] == a[0] && (a + b)[1..] == a[1..] + b;
      Assoc(if a[0] == [] then [] else [a[0]], NonEmpty(a[1..]), NonEmpty(b));
    }
  }

  lemma TcpFramesResume(a: Bytes, b: Bytes)
    ensures TcpFrames(a + b) == (TcpFrames(a).0 + TcpFrames(TcpFrames(a).1 + b).0, TcpFrames(TcpFrames(a).1 + b).1)
  {
    FramesResume(a, b);
    TcpSkipsEmpty(a);
    TcpSkipsEmpty(a + b);
    TcpSkipsEmpty(Frames(a).1 + b);
    NonEmptyConcat(Frames(a).0, Frames(Frames(a).1 + b).0);
  }

  // -------------------------------------------------- chunks, connections

  /** What the receive loop delivers when the bytes arrive in these chunks, starting from a buffer. */
  function Receive(buffer: Bytes, chunks: seq<Bytes>): (r: (seq<Bytes>, Bytes))
    decreases |chunks|
  {
    if chunks == [] then Frames(buffer) else
    var (now, rest) := Frames(buffer + chunks[0]);
    var (later, end) := Receive(rest, chunks[1..]);
    (now + later, end)
  }

  lemma {:induction false} ReceiveFrom(buffer: Bytes, chunks: seq<Bytes>)
    ensures Receive(buffer, chunks) == Frames(buffer + Flatten(chunks))
    decreases |chunks|
  {
    if chunks == [] {
      assert buffer + [] == buffer;
    } else {
      var (now, rest) := Frames(buffer + chunks[0]);
      ReceiveFrom(rest, chunks[1..]);
      FramesResume(buffer + chunks[0], Flatten(chunks[1..]));
      Assoc(buffer, chunks[0], Flatten(chunks[1..]));
    }
  }

  /** Connections one after the other; connecting clears the buffer (ardop_link.py:253, tcp_link.py:312, 378). */
  function ReceiveAll(connections: seq<seq<Bytes>>): (frames: seq<Bytes>) {
    if connections == [] then [] else Receive([], connections[0]).0 + ReceiveAll(connections[1..])
  }

  /** The complete frames of each connection's byte stream, in order. */
  function FramesOfEach(streams: seq<Bytes>): (frames: seq<Bytes>) {
    if streams == [] then [] else Frames(streams[0]).0 + FramesOfEach(streams[1..])
  }

  function FlattenEach(connections: seq<seq<Bytes>>): (streams: seq<Bytes>) {
    if connections == [] then [] else [Flatten(connections[0])] + FlattenEach(connections[1..])
  }

  /** Chunk invariance across reconnects. However each connection's bytes are split into chunks, the frames
      delivered are exactly the complete frames of each connection in turn: no chunk boundary matters, and no
      frame is made of bytes of two connections. */
  lemma {:induction false} ChunkInvariance(connections: seq<seq<Bytes>>)
    ensures ReceiveAll(connections) == FramesOfEach(FlattenEach(connections))
  {
    if connections != [] {
      ReceiveFrom([], connections[0]);
      assert [] + Flatten(connections[0]) == Flatten(connections[0]);
      ChunkInvariance(connections[1..]);
      var streams := FlattenEach(connections);
      assert streams[0] == Flatten(connections[0]) && streams[1..] == FlattenEach(connections[1..]);
    }
  }

  // ------------------------------------------------------------ transmit

  /** The payloads the transmit loop puts on the wire: empty and oversized ones are dropped. */
  predicate Sendable(p: Bytes) { p != [] && |p| <= 0xFFFF }

  function Sent(payloads: seq<Bytes>): (r: seq<Bytes>) {
    if payloads == [] then [] else (if Sendable(payloads[0]) then [payloads[0]] else []) + Sent(payloads[1..])
  }

  function TxStream(payloads: seq<Bytes>): (b: Bytes) {
    if payloads == [] then []
    else (if Sendable(payloads[0]) then U16(|payloads[0]|) + payloads[0] else []) + TxStream(payloads[1..])
  }

  lemma OneFrame(p: Bytes, tail: Bytes)
    requires Sendable(p)
    ensures Frames(U16(|p|) + p + tail) == ([p] + Frames(tail).0, Frames(tail).1)
  {
    var b := U16(|p|) + p + tail;
    assert FrameLen(b) == |p|;
    assert b[2..2 + |p|] == p && b[2 + |p|..] == tail;
  }

  /** Round trip: a receiver of everything transmitted gets exactly the sendable payloads, in order. */
  lemma {:induction false} TransmitRoundTrip(payloads: seq<Bytes>)
    ensures Frames(TxStream(payloads)) == (Sent(payloads), [])
    ensures TcpFrames(TxStream(payloads)) == (Sent(payloads), [])
  {
    if payloads != [] {
      TransmitRoundTrip(payloads[1..]);
      if Sendable(payloads[0]) {
        OneFrame(payloads[0], TxStream(payloads[1..]));
      } else {
        assert [] + TxStream(payloads[1..]) == TxStream(payloads[1..]);
        assert [] + Sent(payloads[1..]) == Sent(payloads[1..]);
      }
    }
    SentNonEmpty(payloads);
    DecodersAgree(TxStream(payloads));
  }

  /** The stream is the payloads one after the other, each behind its length in two bytes, high byte first; an empty or
      oversized one is left out of it. */
  lemma {:induction false} StreamLayout(payloads: seq<Bytes>, p: Bytes)
    ensures TxStream(payloads + [p]) == TxStream(payloads)
              + (if 0 < |p| <= 65535 then [|p| / 256, |p| % 256] + p else [])
    ensures Sent(payloads + [p]) == Sent(payloads) + (if 0 < |p| <= 65535 then [p] else [])
  {
    var all := payloads + [p];
    if payloads != [] {
      StreamLayout(payloads[1..], p);
      assert all[0] == payloads[0] && all[1..] == payloads[1..] + [p];
      Assoc(if Sendable(payloads[0]) then U16(|payloads[0]|) + payloads[0] else [], TxStream(payloads[1..]),
            if Sendable(p) then U16(|p|) + p else []);
      Assoc(if Sendable(payloads[0]) then [payloads[0]] else [], Sent(payloads[1..]), if Sendable(p) then [p] else []);
    }
  }

  lemma {:induction false} SentNonEmpty(payloads: seq<Bytes>)
    ensures forall f | f in Sent(payloads) :: f != []
  {
    if payloads != [] {
      SentNonEmpty(payloads[1..]);
    }
  }

  /** A connection that breaks after any number of bytes has delivered a prefix of what was sent. */
  lemma BrokenConnectionDeliversPrefix(payloads: seq<Bytes>, n: nat)
    requires n <= |TxStream(payloads)|
    ensures Frames(TxStream(payloads)[..n]).0 <= Sent(payloads)
  {
    var all := TxStream(payloads);
    TransmitRoundTrip(payloads);
    FramesResume(all[..n], all[n..]);
    assert all == all[..n] + all[n..];
  }

  // ------------------------------------------------- the mutable objects

  /** Receive side of the ARDOP link. `stream` and `earlier` are history: the bytes of the current connection,
      and the frames delivered on previous ones. */
  class ArdopReceiver {
    var rxBuffer: Bytes
    var delivered: seq<Bytes>
    var rxBytes: nat
    ghost var stream: Bytes
    ghost var earlier: seq<Bytes>

    ghost predicate Valid()
      reads this
    {
      delivered == earlier + Frames(stream).0 && rxBuffer == Frames(stream).1
    }

    constructor ()
      ensures Valid() && stream == [] && delivered == []
    {
      rxBuffer, delivered, rxBytes, stream, earlier := [], [], 0, [], [];
    }

    /** A new connection (`_connect_with_backoff`). */
    method Connect()
      requires Valid()
      modifies this
      ensures Valid() && stream == [] && delivered == old(delivered) == earlier && rxBuffer == []
    {
      rxBuffer := [];
      stream, earlier := [], delivered;
    }

    method ProcessRxBytes(data: Bytes)
      requires Valid()
      modifies this
      ensures Valid() && stream == old(stream) + data && earlier == old(earlier)
      ensures delivered == earlier + Frames(stream).0
    {
      FramesResume(stream, data);
      rxBuffer := rxBuffer + data;
      ghost var start, goal := delivered, Frames(rxBuffer);
      stream := stream + data;
      while |rxBuffer| >= 2 && |rxBuffer| >= 2 + FrameLen(rxBuffer)
        invariant delivered + Frames(rxBuffer).0 == start + goal.0 && Frames(rxBuffer).1 == goal.1
        invariant stream == old(stream) + data && earlier == old(earlier)
        decreases |rxBuffer|
      {
        var end := 2 + FrameLen(rxBuffer);
        var frame := rxBuffer[2..end];
        rxBytes := rxBytes + |frame|;
        Assoc(delivered, [frame], Frames(rxBuffer[end..]).0);
        rxBuffer := rxBuffer[end..];
        delivered := delivered + [frame];
      }
      Assoc(earlier, Frames(old(stream)).0, goal.0);
    }
  }

  /** Receive side of the TCP link, with the same history. */
  class TcpReceiver {
    var rxBuffer: Bytes
    var delivered: seq<Bytes>
    var rxFrames: nat
    ghost var stream: Bytes
    ghost var earlier: seq<Bytes>

    ghost predicate Valid()
      reads this
    {
      delivered == earlier + TcpFrames(stream).0 && rxBuffer == TcpFrames(stream).1
    }

    constructor ()
      ensures Valid() && stream == [] && delivered == []
    {
      rxBuffer, delivered, rxFrames, stream, earlier := [], [], 0, [], [];
    }

    /** A new connection, after its handshake. */
    method Connect()
      requires Valid()
      modifies this
      ensures Valid() && stream == [] && delivered == old(delivered) == earlier && rxBuffer == []
    {
      rxBuffer := [];
      stream, earlier := [], delivered;
    }

    /** The body of `_rx_loop` for one chunk. */
    method OnChunk(chunk: Bytes)
      requires Valid()
      modifies this
      ensures Valid() && stream == old(stream) + chunk && earlier == old(earlier)
      ensures delivered == earlier + TcpFrames(stream).0
    {
      TcpFramesResume(stream, chunk);
      Assoc(earlier, TcpFrames(stream).0, TcpFrames(rxBuffer + chunk).0);
      rxBuffer := rxBuffer + chunk;
      stream := stream + chunk;
      DrainRxBuffer();
    }

    method DrainRxBuffer()
      modifies this`rxBuffer, this`delivered, this`rxFrames
      ensures delivered == old(delivered) + TcpFrames(old(rxBuffer)).0 && rxBuffer == TcpFrames(old(rxBuffer)).1
      ensures rxFrames == old(rxFrames) + |TcpFrames(old(rxBuffer)).0|
    {
      ghost var goal := TcpFrames(rxBuffer);
      while |rxBuffer| >= 2
        invariant delivered + TcpFrames(rxBuffer).0 == old(delivered) + goal.0 && TcpFrames(rxBuffer).1 == goal.1
        invariant rxFrames + |TcpFrames(rxBuffer).0| == old(rxFrames) + |goal.0|
        decreases |rxBuffer|
      {
        var frameLen := FrameLen(rxBuffer);
        if frameLen <= 0 {
          rxBuffer := rxBuffer[2..];
          continue;
        }
        if |rxBuffer| < 2 + frameLen {
          return;
        }
        var frame := rxBuffer[2..2 + frameLen];
        Assoc(delivered, [frame], TcpFrames(rxBuffer[2 + frameLen..]).0);
        rxBuffer := rxBuffer[2 + frameLen..];
        rxFrames := rxFrames + 1;
        delivered := delivered + [frame];
      }
    }
  }

  /** The framing of both transmit loops: the bytes written for one queued payload. */
  method FramePayload(payload: Bytes) returns (wire: Bytes)
    ensures wire == TxStream([payload])
  {
    wire := [];
    if payload == [] {
      return;
    }
    if |payload| > 0xFFFF {
      return;
    }
    var n := |payload|;
    var header := [n / 0x100 % 0x100, n % 0x100];
    wire := header + payload;
    assert wire + [] == wire;
  }

  // ----------------------------------------------------------- handshake

  const MAGIC: Bytes := [0x51, 0x4D, 0x45, 0x53, 0x48, 0x31]
  const HS_OK: byte := 0
  const HS_BAD_PW: byte := 1
  const HS_BAD_HANDSHAKE: byte := 2

  /** What a client writes first; None is TcpLinkError for a password over 65535 bytes. */
  function Hello(password: Bytes): (r: Option<Bytes>)
    ensures r.Some? <==> |password| <= 65535
  {
    if |password| > 65535 then None else Some(MAGIC + U16(|password|) + password)
  }

  /** Outcome of `_server_handshake`: the peer hung up, was refused with a reply, or was accepted with `rest`
      still unread on the connection. */
  datatype Greeting = HungUp | Refused(reply: byte) | Accepted(rest: Bytes)

  function Greet(stream: Bytes, expected: Bytes): (g: Greeting) {
    if |stream| < 8 then HungUp
    else if stream[..6] != MAGIC then Refused(HS_BAD_HANDSHAKE)
    else
      var n := FromU16(stream[6], stream[7]);
      if |stream| < 8 + n then HungUp
      else if stream[8..8 + n] != expected then Refused(HS_BAD_PW)
      else Accepted(stream[8 + n..])
  }

  /** The handshake leaves the stream frame-aligned: a client with the right password is accepted and the server
      then decodes exactly the client's payloads; with a wrong one it is refused with the password reply. */
  lemma HandshakeAligned(password: Bytes, expected: Bytes, payloads: seq<Bytes>)
    requires Hello(password).Some?
    ensures var g := Greet(Hello(password).value + TxStream(payloads), expected);
            if password == expected then g.Accepted? && TcpFrames(g.rest) == (Sent(payloads), [])
            else g == Refused(HS_BAD_PW)
  {
    var stream := Hello(password).value + TxStream(payloads);
    var n := |password|;
    assert stream[..6] == MAGIC;
    assert FromU16(stream[6], stream[7]) == n;
    assert stream[8..8 + n] == password && stream[8 + n..] == TxStream(payloads);
    TransmitRoundTrip(payloads);
  }

  /** Only streams that start with the greeting for the expected password are ever accepted. */
  lemma AcceptedMeansGreeted(stream: Bytes, expected: Bytes)
    requires Greet(stream, expected).Accepted?
    ensures |expected| <= 65535 && stream == Hello(expected).value + Greet(stream, expected).rest
  {
  }

  /** The outcome of every greeting: the client hung up before the whole greeting arrived, is refused with reply 2 for
      other first bytes than QMESH1 and with reply 1 for another password, and is accepted otherwise. */
  lemma GreetingOutcomes(stream: Bytes, expected: Bytes)
    ensures var magic := [81, 77, 69, 83, 72, 49];
            var g, n := Greet(stream, expected), if |stream| < 8 then 0 else stream[6] as int * 256 + stream[7];
            && (g == HungUp <==> |stream| < 8 || (stream[..6] == magic && |stream| < 8 + n))
            && (g == Refused(2) <==> |stream| >= 8 && stream[..6] != magic)
            && (g == Refused(1) <==> |stream| >= 8 + n && |stream| >= 8 && stream[..6] == magic
                                     && stream[8..8 + n] != expected)
            && (g.Accepted? <==> |stream| >= 8 + n && |stream| >= 8 && stream[..6] == magic
                                 && stream[8..8 + n] == expected)
            && (g.Accepted? ==> g.rest == stream[8 + n..])
  {
  }

  /** A connected socket: `incoming` holds the segments still to arrive, then the peer closes. */
  class Socket {
    var incoming: seq<Bytes>
    var written: Bytes

    constructor (incoming: seq<Bytes>)
      ensures this.incoming == incoming && written == []
    {
      this.incoming, written := incoming, [];
    }

    /** At most n bytes, fewer when fewer have arrived; empty means the peer has closed. */
    method Recv(n: nat) returns (chunk: Bytes)
      requires n > 0
      modifies this`incoming
      ensures |chunk| <= n && chunk + Flatten(incoming) == Flatten(old(incoming))
      ensures chunk == [] <==> Flatten(old(incoming)) == []
    {
      while incoming != [] && incoming[0] == []
        invariant Flatten(incoming) == Flatten(old(incoming))
        decreases |incoming|
      {
        assert [] + Flatten(incoming[1..]) == Flatten(incoming[1..]);
        incoming := incoming[1..];
      }
      if incoming == [] {
        return [];
      }
      var first, rest := incoming[0], incoming[1..];
      if |first| <= n {
        chunk := first;
        incoming := rest;
      } else {
        chunk := first[..n];
        Assoc(chunk, first[n..], Flatten(rest));
        assert first == chunk + first[n..];
        incoming := [first[n..]] + rest;
        assert incoming[1..] == rest;
      }
    }

    /** `_recv_exact`; None is OSError("socket closed"). */
    method RecvExact(n: nat) returns (buf: Option<Bytes>)
      modifies this`incoming
      ensures if |Flatten(old(incoming))| < n then buf == None
              else buf == Some(Flatten(old(incoming))[..n]) && Flatten(incoming) == Flatten(old(incoming))[n..]
    {
      var got: Bytes := [];
      while |got| < n
        invariant |got| <= n && got + Flatten(incoming) == Flatten(old(incoming))
        decreases n - |got|
      {
        var chunk := Recv(n - |got|);
        if chunk == [] {
          assert got + [] == got;
          return None;
        }
        Assoc(got, chunk, Flatten(incoming));
        got := got + chunk;
      }
      buf := Some(got);
    }

    /** `_server_handshake`, over any arrival pattern of the client's bytes. */
    method ServerHandshake(expected: Bytes) returns (ok: bool)
      modifies this
      ensures var g := Greet(Flatten(old(incoming)), expected);
              && (ok <==> g.Accepted?)
              && (g.Accepted? ==> Flatten(incoming) == g.rest)
              && written == old(written)
                          + (match g case HungUp => [] case Refused(reply) => [reply] case Accepted(_) => [HS_OK])
    {
      ghost var stream := Flatten(incoming);
      var header := RecvExact(8);
      if header.None? {
        return false;
      }
      if header.value[..6] != MAGIC {
        written := written + [HS_BAD_HANDSHAKE];
        return false;
      }
      var n := FromU16(header.value[6], header.value[7]);
      assert Flatten(incoming) == stream[8..] && |stream[8..]| == |stream| - 8;
      var pw := RecvExact(n);
      if pw.None? {
        return false;
      }
      assert stream[8..][..n] == stream[8..8 + n] && stream[8..][n..] == stream[8 + n..];
      if pw.value != expected {
        written := written + [HS_BAD_PW];
        return false;
      }
      written := written + [HS_OK];
      ok := true;
    }
  }
}
