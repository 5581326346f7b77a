/** Sync over the mesh: a round of `ChatSync` is three events of the network (chat_client.py:703-767, 932-1114). */
module ChatRound {
  import opened Basics
  import opened Bytes
  import opened MeshFrame
  import opened MeshNode
  import opened MeshNetwork
  import opened ChatProtocol
  import opened ChatStore
  import opened ChatSync
  import opened ChatNetwork
  import opened ChatConflict

  /** The next packet of `from` is new to `to`. */
  ghost predicate Fresh(cn: ChatNet, from: NodeId, to: NodeId)
    requires from in cn.net.nodes && to in cn.net.nodes
  {
    PacketKey(from, NextSeqno(Counter(cn.net, from))) !in cn.net.nodes[to].dataSeen
  }

  function RequestMessage(cw: ChatWorld, c: Bytes, q: SyncRequest): (m: ChatMessage) {
    ChatMessage(TYPE_SYNC_REQUEST, c, [], cw.json.showRequest(q), 0)
  }

  function ResponseMessage(cw: ChatWorld, c: Bytes, sent: seq<Row>): (m: ChatMessage) {
    ChatMessage(TYPE_SYNC_RESPONSE, c, [], cw.json.showRecords(Records(sent)), 0)
  }

  lemma AsksOnAir(cw: ChatWorld, h: History, a: NodeId, b: NodeId, c: Bytes, q: SyncRequest) returns (h': History)
    requires IsHistory(cw, h) && Sound(cw, Last(h)) && a in cw.w.cfg && b in cw.w.cfg && a != b && a in cw.full
    requires |c| <= 255
    ensures Continues(cw, h, h') && Sound(cw, Last(h')) && h'.events == h.events + [Ask(a, b, c, [], q, 0)]
    ensures Last(h').stores == Last(h).stores && Last(h').net.nodes[b] == Last(h).net.nodes[b]
    ensures Last(h').net.nodes[a].dataSeen == Last(h).net.nodes[a].dataSeen
    ensures ChatFrame(cw, a, b, NextSeqno(Counter(Last(h).net, a)), RequestMessage(cw, c, q)) in Last(h').net.medium
  {
    TransmitsFrame(cw, Last(h).net, a, b, RequestMessage(cw, c, q));
    h' := OneMore(cw, h, Ask(a, b, c, [], q, 0));
  }

  /** What b, asked, does to the network. */
  lemma Responds(cw: ChatWorld, cn: ChatNet, a: NodeId, b: NodeId, s: u32, c: Bytes, q: SyncRequest)
    requires Sound(cw, cn) && a in cw.w.cfg && b in cw.w.cfg && b in cw.full && Faithful(cw.json) && |c| <= 255
    requires Answer(cn.stores[b].rows, cw.sync[b], c, q).Some?
    ensures OnAppData(cw, cn, b, Delivery(a, b, s, Encode(RequestMessage(cw, c, q)).value), 0.0, 0, [])
         == cn.(net := Transmit(cw, cn.net, b, a,
                                ResponseMessage(cw, c, Answer(cn.stores[b].rows, cw.sync[b], c, q).value)))
  {
    DecodeEncode(RequestMessage(cw, c, q), 0);
  }

  lemma ResponseReads(cw: ChatWorld, c: Bytes, sent: seq<Row>)
    requires Faithful(cw.json) && |c| <= 255
    ensures var m := ResponseMessage(cw, c, sent);
            && Encodable(m) && Decode(Encode(m).value, 0) == Some(m)
            && cw.json.readRecords(m.text) == Some(AllGood(Records(sent)))
  {
    DecodeEncode(ResponseMessage(cw, c, sent), 0);
  }

  /** What a, answered, does to its store. */
  lemma StoresResponse(cw: ChatWorld, cn: ChatNet, a: NodeId, b: NodeId, s: u32, c: Bytes, sent: seq<Row>)
    requires Sound(cw, cn) && a in cw.w.cfg && a in cw.full && Faithful(cw.json) && |c| <= 255
    ensures OnAppData(cw, cn, a, Delivery(b, a, s, Encode(ResponseMessage(cw, c, sent)).value), 0.0, 0, [])
         == StoreSet(cn, a, ApplyRows(cn.stores[a], c, sent, 0.0))
  {
    ResponseReads(cw, c, sent);
  }

  lemma AnswersOnAir(cw: ChatWorld, h: History, a: NodeId, b: NodeId, s: u32, c: Bytes, q: SyncRequest)
    returns (h': History)
    requires IsHistory(cw, h) && Sound(cw, Last(h)) && a in cw.w.cfg && b in cw.w.cfg && a != b && b in cw.full
    requires Lossless(cw.w.zlib) && Faithful(cw.json) && |c| <= 255
    requires ChatFrame(cw, a, b, s, RequestMessage(cw, c, q)) in Last(h).net.medium
    requires PacketKey(a, s) !in Last(h).net.nodes[b].dataSeen
    requires Answer(Last(h).stores[b].rows, cw.sync[b], c, q).Some?
    ensures Continues(cw, h, h') && Sound(cw, Last(h'))
    ensures h'.events == h.events + [Hear(b, ChatFrame(cw, a, b, s, RequestMessage(cw, c, q)), 0.0, 0, [])]
    ensures Last(h').stores == Last(h).stores && Last(h').net.nodes[a] == Last(h).net.nodes[a]
    ensures ChatFrame(cw, b, a, NextSeqno(Counter(Last(h).net, b)),
                      ResponseMessage(cw, c, Answer(Last(h).stores[b].rows, cw.sync[b], c, q).value))
            in Last(h').net.medium
  {
    var m := RequestMessage(cw, c, q);
    h' := HearsFrame(cw, h, a, b, s, m);
    var heard := Heard(cw, Last(h), b, ChatFrame(cw, a, b, s, m));
    Responds(cw, heard, a, b, s, c, q);
    CounterKept(cw, Last(h), b, ChatFrame(cw, a, b, s, m));
    TransmitsFrame(cw, heard.net, b, a,
                   ResponseMessage(cw, c, Answer(heard.stores[b].rows, cw.sync[b], c, q).value));
  }

  lemma CounterKept(cw: ChatWorld, cn: ChatNet, d: NodeId, frame: Bytes)
    requires Sound(cw, cn) && d in cw.w.cfg && frame in cn.net.medium
    ensures Counter(Heard(cw, cn, d, frame).net, d) == Counter(cn.net, d)
  {
  }

  lemma LearnsAll(cw: ChatWorld, h: History, a: NodeId, b: NodeId, s: u32, c: Bytes, sent: seq<Row>)
    returns (h': History)
    requires IsHistory(cw, h) && Sound(cw, Last(h)) && a in cw.w.cfg && b in cw.w.cfg && a in cw.full
    requires Lossless(cw.w.zlib) && Faithful(cw.json) && |c| <= 255
    requires ChatFrame(cw, b, a, s, ResponseMessage(cw, c, sent)) in Last(h).net.medium
    requires PacketKey(b, s) !in Last(h).net.nodes[a].dataSeen
    ensures Continues(cw, h, h') && Sound(cw, Last(h'))
    ensures h'.events == h.events + [Hear(a, ChatFrame(cw, b, a, s, ResponseMessage(cw, c, sent)), 0.0, 0, [])]
    ensures Last(h').stores == Last(h).stores[a := ApplyRows(Last(h).stores[a], c, sent, 0.0)]
  {
    var m := ResponseMessage(cw, c, sent);
    h' := HearsFrame(cw, h, b, a, s, m);
    StoresResponse(cw, Heard(cw, Last(h), a, ChatFrame(cw, b, a, s, m)), a, b, s, c, sent);
  }

  /** Any sync request, over the air: a asks, b hears it, a hears the answer. Then a has stored exactly what b's rows
      answer to the request, and no other store has changed. */
  lemma RequestOverMesh(cw: ChatWorld, h: History, a: NodeId, b: NodeId, c: Bytes, q: SyncRequest)
    returns (h': History, asked: Bytes, answered: Bytes)
    requires IsHistory(cw, h) && Sound(cw, Last(h)) && a in cw.w.cfg && b in cw.w.cfg && a != b && {a, b} <= cw.full
    requires Lossless(cw.w.zlib) && Faithful(cw.json) && |c| <= 255
    requires Fresh(Last(h), a, b) && Fresh(Last(h), b, a)
    requires Answer(Last(h).stores[b].rows, cw.sync[b], c, q).Some?
    ensures Continues(cw, h, h') && Sound(cw, Last(h'))
    ensures h'.events == h.events + [Ask(a, b, c, [], q, 0)] + [Hear(b, asked, 0.0, 0, [])]
                         + [Hear(a, answered, 0.0, 0, [])]
    ensures var sent := Answer(Last(h).stores[b].rows, cw.sync[b], c, q).value;
            Last(h').stores == Last(h).stores[a := ApplyRows(Last(h).stores[a], c, sent, 0.0)]
  {
    var s, s' := NextSeqno(Counter(Last(h).net, a)), NextSeqno(Counter(Last(h).net, b));
    var sent := Answer(Last(h).stores[b].rows, cw.sync[b], c, q).value;
    asked := ChatFrame(cw, a, b, s, RequestMessage(cw, c, q));
    answered := ChatFrame(cw, b, a, s', ResponseMessage(cw, c, sent));
    var h1 := AsksOnAir(cw, h, a, b, c, q);
    var h2 := AnswersOnAir(cw, h1, a, b, s, c, q);
    ContinuesOn(cw, h, h1, h2);
    h' := LearnsAll(cw, h2, a, b, s', c, sent);
    ContinuesOn(cw, h, h2, h');
  }

  // ------------------------------------------------- whole synchronization

  lemma {:induction false} LatestStamp(keys: set<PacketKey>, stamps: map<PacketKey, real>) returns (t: real)
    requires keys <= stamps.Keys
    ensures forall k | k in keys :: stamps[k] <= t
  {
    t := 0.0;
    if keys != {} {
      var k := Pick(keys);
      t := LatestStamp(keys - {k}, stamps);
      t := if stamps[k] > t then stamps[k] else t;
    }
  }

  lemma LateTidy(cw: ChatWorld, cn: ChatNet, n: NodeId, now: real)
    requires Possible(cw, cn, Tidy(n, now))
    requires forall k | k in cn.net.nodes[n].dataSeen :: now - cn.net.nodes[n].dataSeen[k] > cw.w.cfg[n].dataSeenExpiry
    ensures var after := Next(cw, cn, Tidy(n, now));
            && after.stores == cn.stores && after.net.nodes.Keys == cn.net.nodes.Keys
            && after.net.nodes[n].dataSeen == map[]
            && forall m | m in cn.net.nodes && m != n :: after.net.nodes[m] == cn.net.nodes[m]
  {
    assert Expire(cw.w.cfg[n], cn.net.nodes[n], now).dataSeen == map[];
  }

  /** A late enough cleanup empties a node's packet cache. */
  lemma CacheEmptied(cw: ChatWorld, h: History, n: NodeId) returns (h': History)
    requires IsHistory(cw, h) && Sound(cw, Last(h)) && n in cw.w.cfg
    ensures Continues(cw, h, h') && Sound(cw, Last(h')) && Last(h').stores == Last(h).stores
    ensures Last(h').net.nodes[n].dataSeen == map[]
    ensures forall m | m in cw.w.cfg && m != n :: Last(h').net.nodes[m] == Last(h).net.nodes[m]
  {
    var seen := Last(h).net.nodes[n].dataSeen;
    var t := LatestStamp(seen.Keys, seen);
    var late := t + cw.w.cfg[n].dataSeenExpiry + 1.0;
    LateTidy(cw, Last(h), n, late);
    h' := OneMore(cw, h, Tidy(n, late));
  }

  /** One round of `ChatSync`, over the air. */
  lemma RoundOverMesh(cw: ChatWorld, h: History, a: NodeId, b: NodeId, c: Bytes, lastN: int) returns (h': History)
    requires IsHistory(cw, h) && Sound(cw, Last(h)) && a in cw.w.cfg && b in cw.w.cfg && a != b && {a, b} <= cw.full
    requires Lossless(cw.w.zlib) && Faithful(cw.json) && |c| <= 255 && lastN > 0
    ensures Continues(cw, h, h') && Sound(cw, Last(h'))
    ensures OnlyStore(Last(h).stores, Last(h').stores, a,
                      Round(Last(h).stores[a], Last(h).stores[b], c, lastN, cw.sync[b], 0.0))
  {
    var h1 := CacheEmptied(cw, h, a);
    var h2 := CacheEmptied(cw, h1, b);
    ContinuesOn(cw, h, h1, h2);
    h' := InventoryOverMesh(cw, h2, a, b, c, lastN);
    ContinuesOn(cw, h, h2, h');
  }

  lemma InventoryOverMesh(cw: ChatWorld, h: History, a: NodeId, b: NodeId, c: Bytes, lastN: int) returns (h': History)
    requires IsHistory(cw, h) && Sound(cw, Last(h)) && a in cw.w.cfg && b in cw.w.cfg && a != b && {a, b} <= cw.full
    requires Lossless(cw.w.zlib) && Faithful(cw.json) && |c| <= 255 && lastN > 0
    requires Last(h).net.nodes[a].dataSeen == map[] && Last(h).net.nodes[b].dataSeen == map[]
    ensures Continues(cw, h, h') && Sound(cw, Last(h'))
    ensures OnlyStore(Last(h).stores, Last(h').stores, a,
                      Round(Last(h).stores[a], Last(h).stores[b], c, lastN, cw.sync[b], 0.0))
  {
    var inv := MaxSeqnos(LastN(Last(h).stores[a].rows, c, lastN));
    var asked, answered;
    h', asked, answered := RequestOverMesh(cw, h, a, b, c, Inventory(lastN, inv));
  }

  function Zeros(k: nat): (r: seq<real>)
    ensures |r| == k
  {
    if k == 0 then [] else [0.0] + Zeros(k - 1)
  }

  function ZeroRounds(req: Table, resp: Table, c: Bytes, lastN: int, cfg: SyncConfig, k: nat): (t: Table)
    requires TableOk(req)
    ensures TableOk(t)
  {
    Rounds(req, resp, c, lastN, cfg, Zeros(k))
  }

  lemma RoundsCons(req: Table, resp: Table, c: Bytes, lastN: int, cfg: SyncConfig, k: nat)
    requires TableOk(req) && k > 0
    ensures ZeroRounds(req, resp, c, lastN, cfg, k)
         == ZeroRounds(Round(req, resp, c, lastN, cfg, 0.0), resp, c, lastN, cfg, k - 1)
  {
    assert Zeros(k)[1..] == Zeros(k - 1);
  }

  /** Only the table of a has changed, to t. */
  ghost predicate OnlyStore(before: map<NodeId, Table>, after: map<NodeId, Table>, a: NodeId, t: Table) {
    a in before && after == before[a := t]
  }

  lemma OnlyStoreTwice(s: map<NodeId, Table>, s1: map<NodeId, Table>, s2: map<NodeId, Table>, a: NodeId, t: Table,
                       t': Table)
    requires OnlyStore(s, s1, a, t) && OnlyStore(s1, s2, a, t')
    ensures OnlyStore(s, s2, a, t')
  {
  }

  /** One round over the air, of k still to do. */
  lemma FirstOfRounds(cw: ChatWorld, h: History, a: NodeId, b: NodeId, c: Bytes, lastN: int, k: nat, t: Table)
    returns (h': History, next: Table)
    requires IsHistory(cw, h) && Sound(cw, Last(h)) && a in cw.w.cfg && b in cw.w.cfg && a != b && {a, b} <= cw.full
    requires Lossless(cw.w.zlib) && Faithful(cw.json) && |c| <= 255 && lastN > 0 && k > 0
    requires t == ZeroRounds(Last(h).stores[a], Last(h).stores[b], c, lastN, cw.sync[b], k)
    ensures Continues(cw, h, h') && Sound(cw, Last(h')) && OnlyStore(Last(h).stores, Last(h').stores, a, next)
    ensures t == ZeroRounds(Last(h').stores[a], Last(h').stores[b], c, lastN, cw.sync[b], k - 1)
  {
    RoundsCons(Last(h).stores[a], Last(h).stores[b], c, lastN, cw.sync[b], k);
    next := Round(Last(h).stores[a], Last(h).stores[b], c, lastN, cw.sync[b], 0.0);
    h' := RoundOverMesh(cw, h, a, b, c, lastN);
  }

  /** The requester's table after k rounds is t. */
  lemma {:induction false} RoundsOverMesh(cw: ChatWorld, h: History, a: NodeId, b: NodeId, c: Bytes, lastN: int, k: nat,
                                          t: Table)
    returns (h': History)
    requires IsHistory(cw, h) && Sound(cw, Last(h)) && a in cw.w.cfg && b in cw.w.cfg && a != b && {a, b} <= cw.full
    requires Lossless(cw.w.zlib) && Faithful(cw.json) && |c| <= 255 && lastN > 0
    requires t == ZeroRounds(Last(h).stores[a], Last(h).stores[b], c, lastN, cw.sync[b], k)
    ensures Continues(cw, h, h') && Sound(cw, Last(h')) && OnlyStore(Last(h).stores, Last(h').stores, a, t)
    decreases k
  {
    if k == 0 {
      h' := h;
    } else {
      var h1, next := FirstOfRounds(cw, h, a, b, c, lastN, k, t);
      h' := RoundsOverMesh(cw, h1, a, b, c, lastN, k - 1, t);
      ContinuesOn(cw, h, h1, h');
      OnlyStoreTwice(Last(h).stores, Last(h1).stores, Last(h').stores, a, next, t);
    }
  }

  /** Stores are repaired over the air. From every run that leaves a converging pair of full nodes there is one that
      goes on without any chat send, after which the requester holds every row the responder has in the channel, saying
      the same, has lost none of its own, and no other store has changed. */
  lemma RepairedOverMesh(cw: ChatWorld, h: History, a: NodeId, b: NodeId, c: Bytes, lastN: int) returns (h': History)
    requires IsHistory(cw, h) && Sound(cw, Last(h)) && a in cw.w.cfg && b in cw.w.cfg && a != b && {a, b} <= cw.full
    requires Lossless(cw.w.zlib) && Faithful(cw.json) && |c| <= 255 && lastN > 0
    requires Converging(Last(h).stores[a], Last(h).stores[b], c, lastN, cw.sync[b])
    ensures Continues(cw, h, h') && Sound(cw, Last(h'))
    ensures Last(h').stores == Last(h).stores[a := Last(h').stores[a]]
    ensures Last(h).stores[a].rows <= Last(h').stores[a].rows
    ensures forall r | r in Last(h').stores[b].rows && r.content.channel == c ::
              exists x :: x in Last(h').stores[a].rows && x.key == r.key && x.content == r.content
  {
    var req, resp, cfg := Last(h).stores[a], Last(h).stores[b], cw.sync[b];
    var k := |Lacking(req, resp, c)|;
    EnoughRounds(k, Limit(cfg));
    SyncConverges(req, resp, c, lastN, cfg, Zeros(k));
    h' := RoundsOverMesh(cw, h, a, b, c, lastN, k, ZeroRounds(req, resp, c, lastN, cfg, k));
  }
}
