/** Chat messages inside DATA payloads (chat_protocol.py). Channel, nick and text are their UTF-8 bytes. */
module ChatProtocol {
  import opened Basics
  import opened Bytes

  const CHAT_VERSION: byte := 2
  const TYPE_MESSAGE: byte := 1
  const TYPE_SYNC_REQUEST: byte := 5
  const TYPE_SYNC_RESPONSE: byte := 6

  datatype ChatMessage = ChatMessage(msgType: byte, channel: Bytes, nick: Bytes, text: Bytes, createdTs: int)

  predicate Encodable(m: ChatMessage) {
    |m.channel| <= 255 && |m.nick| <= 255 && 0 <= m.createdTs < U32_LIMIT
  }

  /** None is ValueError. */
  function Encode(m: ChatMessage): (r: Option<Bytes>)
    ensures r.Some? <==> Encodable(m)
  {
    if !Encodable(m) then None else
    Some([CHAT_VERSION, m.msgType, |m.channel|, |m.nick|] + U32(m.createdTs) + m.channel + m.nick + m.text)
  }

  /** The three text fields of a message whose fixed part is `head` bytes long. */
  function Fields(data: Bytes, head: nat, createdTs: int): (r: Option<ChatMessage>)
    requires |data| >= 4
  {
    var nickAt := head + data[2];
    var textAt := nickAt + data[3];
    if |data| < textAt then None else
    Some(ChatMessage(data[1], data[head..nickAt], data[nickAt..textAt], data[textAt..], createdTs))
  }

  /** `now` is the local clock, which stands in for the timestamp version 1 does not carry. */
  function Decode(data: Bytes, now: int): (r: Option<ChatMessage>) {
    if |data| < 4 then None
    else if data[0] == 1 then Fields(data, 4, now)
    else if data[0] != CHAT_VERSION || |data| < 8 then None
    else Fields(data, 8, FromU32(data[4..8]))
  }

  /** Decoding inverts encoding, for every message that can be encoded and whatever the receiver's clock. */
  lemma DecodeEncode(m: ChatMessage, now: int)
    requires Encodable(m)
    ensures Decode(Encode(m).value, now) == Some(m)
  {
    var data := Encode(m).value;
    var c, n := |m.channel|, |m.nick|;
    assert data[4..8] == U32(m.createdTs);
    U32RoundTrip(m.createdTs);
    assert data[8..8 + c] == m.channel;
    assert data[8 + c..8 + c + n] == m.nick;
    assert data[8 + c + n..] == m.text;
  }

  /** Every accepted version-2 byte string is the encoding of what it decodes to, byte for byte. */
  lemma EncodeDecode(data: Bytes, now: int)
    requires |data| > 0 && data[0] == CHAT_VERSION && Decode(data, now).Some?
    ensures Encode(Decode(data, now).value) == Some(data)
  {
    FromU32RoundTrip(data[4..8]);
    var nickAt: int := 8 + data[2] as int;
    var textAt := nickAt + data[3];
    assert data == data[..4] + data[4..8] + data[8..nickAt] + data[nickAt..textAt] + data[textAt..];
    assert data[..4] == [data[0], data[1], data[2], data[3]];
  }

  /** Exactly which messages are encoded, and the encoding byte by byte. */
  lemma EncodingLayout(m: ChatMessage)
    ensures Encode(m).Some? <==> |m.channel| <= 255 && |m.nick| <= 255 && 0 <= m.createdTs <= 4294967295
    ensures Encode(m).Some? ==>
              var data, c, n := Encode(m).value, |m.channel|, |m.nick|;
              && |data| == 8 + c + n + |m.text|
              && data[0] == 2 && data[1] == m.msgType && data[2] == c && data[3] == n
              && data[4] as int * 16777216 + data[5] as int * 65536 + data[6] as int * 256 + data[7] == m.createdTs
              && data[8..8 + c] == m.channel && data[8 + c..8 + c + n] == m.nick && data[8 + c + n..] == m.text
  {
    if Encodable(m) {
      U32RoundTrip(m.createdTs);
      assert Encode(m).value[4..8] == U32(m.createdTs);
    }
  }

  /** The older format has no timestamp: the receiver's clock stands in for it. */
  lemma VersionOne(m: ChatMessage, now: int)
    requires |m.channel| <= 255 && |m.nick| <= 255
    ensures Decode([1, m.msgType, |m.channel|, |m.nick|] + m.channel + m.nick + m.text, now)
         == Some(m.(createdTs := now))
  {
    var data := [1, m.msgType, |m.channel|, |m.nick|] + m.channel + m.nick + m.text;
    var c, n := |m.channel|, |m.nick|;
    assert data[4..4 + c] == m.channel && data[4 + c..4 + c + n] == m.nick && data[4 + c + n..] == m.text;
  }

  /** Exactly which byte strings are read: those of a known version that hold all the lengths they announce. */
  lemma DecodesExactlyWhen(data: Bytes, now: int)
    ensures Decode(data, now).Some? <==>
              && |data| >= 4
              && (|| (data[0] == 1 && |data| >= 4 + data[2] as int + data[3] as int)
                  || (data[0] == 2 && |data| >= 8 + data[2] as int + data[3] as int))
  {
  }

  /** `encode_chat_message`, which fills a four-byte header in place. */
  method EncodeMessage(m: ChatMessage) returns (r: Option<Bytes>)
    ensures r == Encode(m)
  {
    var chanLen, nickLen := |m.channel|, |m.nick|;
    if chanLen > 255 {
      return None;
    }
    if nickLen > 255 {
      return None;
    }
    var header := new byte[4];
    header[0] := CHAT_VERSION;
    header[1] := m.msgType;
    header[2] := chanLen;
    header[3] := nickLen;
    if m.createdTs < 0 || m.createdTs > 0xFFFF_FFFF {
      return None;
    }
    assert header[..] == [CHAT_VERSION, m.msgType, chanLen, nickLen];
    r := Some(header[..] + U32(m.createdTs) + m.channel + m.nick + m.text);
  }

  // ------------------------------------------------------ sync payloads

  /** Timestamps of messages are whole seconds, so only the floor of a requested `since_ts` matters. */
  datatype SyncRequest =
    | Since(ts: int)
    | Inventory(lastN: int, inv: map<Bytes, int>)
    | SeqRange(origin: Bytes, start: int, end: int)

  datatype Record = Record(origin: Bytes, seqno: int, nick: Bytes, text: Bytes, ts: int)

  /** One element of a response: a record, an object with a field of the wrong type, or an element that makes the
      handler raise: one that is not an object, an origin that is not hexadecimal, a timestamp that is not finite. */
  datatype Item = Good(record: Record) | Malformed | Unconvertible

  /** The JSON text of sync messages, as functions. A reader returns None for text it rejects, and
      for a response one item per list element. */
  datatype Json = Json(
    showRequest: SyncRequest -> Bytes, readRequest: Bytes -> Option<SyncRequest>,
    showRecords: seq<Record> -> Bytes, readRecords: Bytes -> Option<seq<Item>>)

  function AllGood(rs: seq<Record>): (r: seq<Item>)
    ensures |r| == |rs| && forall i | 0 <= i < |rs| :: r[i] == Good(rs[i])
  {
    seq(|rs|, i requires 0 <= i < |rs| => Good(rs[i]))
  }

  ghost predicate Faithful(j: Json) {
    && (forall q :: j.readRequest(j.showRequest(q)) == Some(q))
    && (forall rs :: j.readRecords(j.showRecords(rs)) == Some(AllGood(rs)))
  }
}
