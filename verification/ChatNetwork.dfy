/** Chat clients on top of the mesh: sends, deliveries, sync requests and responses, and prunes, over the same
    lossy, duplicating medium (chat_client.py:633-681, 854-930, 932-1114). */
module ChatNetwork {
  import opened Basics
  import opened Bytes
  import opened MeshFrame
  import opened MeshNode
  import opened MeshNetwork
  import opened MeshDelivery
  import opened ChatProtocol
  import opened ChatStore
  import opened ChatSync

  /** `full` holds the nodes whose node_mode is "full"; the others neither chat, store nor sync. */
  datatype ChatWorld = ChatWorld(w: World, json: Json, sync: map<NodeId, SyncConfig>, full: set<NodeId>)

  /** `truth` records, per (origin, seqno), what the latest chat send under that key said. No handler reads it. */
  datatype ChatNet = ChatNet(net: Net, stores: map<NodeId, Table>, truth: map<Key, Content>)

  /** `clock` is the sender's or receiver's int(time.time()), `nick` its current nickname. */
  datatype ChatEvent =
    | Hear(node: NodeId, frame: Bytes, now: real, clock: int, nick: Bytes)
    | Say(node: NodeId, dest: NodeId, channel: Bytes, nick: Bytes, text: Bytes, clock: int, now: real)
    | Ask(node: NodeId, dest: NodeId, channel: Bytes, nick: Bytes, request: SyncRequest, clock: int)
    | Announce(node: NodeId)
    | Tidy(node: NodeId, now: real)
    | PruneStore(node: NodeId, listed: seq<Bytes>, keep: int)
    | PruneOld(node: NodeId, cutoff: int)
    | Reboot(node: NodeId)

  function Start(cw: ChatWorld): (cn: ChatNet) {
    ChatNet(Init(cw.w), map n | n in cw.w.cfg :: EMPTY_TABLE, map[])
  }

  /** What describes every reachable state (`SoundStays`). */
  ghost predicate Sound(cw: ChatWorld, cn: ChatNet) {
    && cn.net.nodes.Keys == cw.w.cfg.Keys && cn.stores.Keys == cw.w.cfg.Keys && cw.sync.Keys == cw.w.cfg.Keys
    && (forall n | n in cn.stores :: TableOk(cn.stores[n]))
  }

  /** The event can happen: only hearing has a condition of its own, that the frame was transmitted. */
  ghost predicate Possible(cw: ChatWorld, cn: ChatNet, e: ChatEvent) {
    Sound(cw, cn) && e.node in cw.w.cfg && (e.Hear? ==> e.frame in cn.net.medium)
  }

  /** Encode and send one chat payload; a message that cannot be encoded raises before anything is sent. */
  ghost function Transmit(cw: ChatWorld, net: Net, node: NodeId, dest: NodeId, m: ChatMessage): (net': Net)
    requires net.nodes.Keys == cw.w.cfg.Keys && node in cw.w.cfg
    ensures net'.nodes.Keys == cw.w.cfg.Keys
  {
    if Encodable(m) then Step(cw.w, net, SendData(node, dest, Encode(m).value)) else net
  }

  ghost function Counter(net: Net, node: NodeId): u32
    requires node in net.nodes
  {
    net.nodes[node].seqno
  }

  function ContentOf(m: ChatMessage): Content { Content(m.channel, m.nick, m.text, m.createdTs) }

  /** `_on_mesh_app_data`, on the network as it stands after the frame was handled. */
  ghost function OnAppData(cw: ChatWorld, cn: ChatNet, node: NodeId, d: Delivery, now: real, clock: int,
                           nick: Bytes): (r: ChatNet)
    requires cn.net.nodes.Keys == cw.w.cfg.Keys && cn.stores.Keys == cw.w.cfg.Keys && cw.sync.Keys == cw.w.cfg.Keys
    requires node in cw.w.cfg && TableOk(cn.stores[node])
  {
    var decoded := Decode(d.payload, clock);
    if decoded.None? || node !in cw.full then cn else
    var m, table := decoded.value, cn.stores[node];
    if m.msgType == TYPE_MESSAGE then
      cn.(stores := cn.stores[node := Add(table, Key(d.origin, d.seqno), ContentOf(m), now)])
    else if m.msgType == TYPE_SYNC_REQUEST then
      var q := cw.json.readRequest(m.text);
      if q.None? then cn else
      var sent := Answer(table.rows, cw.sync[node], m.channel, q.value);
      if sent.None? then cn else
      var text := cw.json.showRecords(Records(sent.value));
      cn.(net := Transmit(cw, cn.net, node, d.origin, ChatMessage(TYPE_SYNC_RESPONSE, m.channel, nick, text, clock)))
    else if m.msgType == TYPE_SYNC_RESPONSE then
      var records := cw.json.readRecords(m.text);
      if records.None? then cn
      else cn.(stores := cn.stores[node := Apply(table, m.channel, records.value, now)])
    else cn
  }

  ghost function Next(cw: ChatWorld, cn: ChatNet, e: ChatEvent): (cn': ChatNet)
    requires Possible(cw, cn, e)
  {
    var n := e.node;
    match e
    case Hear(_, frame, now, clock, nick) =>
      var heard := cn.(net := Step(cw.w, cn.net, Receive(n, frame, now)));
      var d := EffectOf(cw.w, cn.net, Receive(n, frame, now)).delivered;
      if d.None? then heard else OnAppData(cw, heard, n, d.value, now, clock, nick)
    case Say(_, dest, channel, nick, text, clock, now) =>
      var m := MessageOf(e);
      if !Says(cw, e) then cn else
      var net' := Transmit(cw, cn.net, n, dest, m);
      var k := Key(n, Counter(net', n));
      ChatNet(net', cn.stores[n := Add(cn.stores[n], k, ContentOf(m), now)], cn.truth[k := ContentOf(m)])
    case Ask(_, dest, channel, nick, request, clock) =>
      if n !in cw.full then cn else
      var m := ChatMessage(TYPE_SYNC_REQUEST, channel, nick, cw.json.showRequest(request), clock);
      cn.(net := Transmit(cw, cn.net, n, dest, m))
    case Announce(_) => cn.(net := Step(cw.w, cn.net, SendOgm(n)))
    case Tidy(_, now) => cn.(net := Step(cw.w, cn.net, Cleanup(n, now)))
    case PruneStore(_, listed, keep) =>
      if keep < 1 then cn else cn.(stores := cn.stores[n := PruneAll(cn.stores[n], listed, keep)])
    case PruneOld(_, cutoff) => cn.(stores := cn.stores[n := DropOlder(cn.stores[n], cutoff)])
    case Reboot(_) => cn.(net := Step(cw.w, cn.net, Restart(n)))
  }

  /** `prune_older_than_seconds`, all channels. */
  function DropOlder(t: Table, cutoff: int): (t': Table) {
    t.(rows := Recent(t.rows, cutoff))
  }

  function Recent(rows: seq<Row>, cutoff: int): (r: seq<Row>)
    ensures forall x :: x in r <==> x in rows && x.content.createdTs >= cutoff
  {
    if rows == [] then [] else
    (if rows[0].content.createdTs < cutoff then [] else [rows[0]]) + Recent(rows[1..], cutoff)
  }

  /** Age pruning deletes exactly the node's rows from before the cutoff. */
  lemma OldRowsGo(cw: ChatWorld, cn: ChatNet, e: ChatEvent)
    requires Possible(cw, cn, e) && e.PruneOld?
    ensures var after := Next(cw, cn, e);
            && after.net == cn.net && after.stores.Keys == cn.stores.Keys
            && (forall n | n in cn.stores && n != e.node :: after.stores[n] == cn.stores[n])
            && forall x :: x in cn.stores[e.node].rows && x !in after.stores[e.node].rows
                           <==> x in cn.stores[e.node].rows && x.content.createdTs < e.cutoff
  {
  }

  /** A node that is not full says and asks nothing, and only its mesh layer hears anything. */
  lemma OthersOnlyRelay(cw: ChatWorld, cn: ChatNet, e: ChatEvent)
    requires Possible(cw, cn, e) && e.node !in cw.full
    ensures e.Say? || e.Ask? ==> Next(cw, cn, e) == cn
    ensures e.Hear? ==> Next(cw, cn, e) == cn.(net := Step(cw.w, cn.net, Receive(e.node, e.frame, e.now)))
  {
  }

  ghost predicate NextAt(cw: ChatWorld, states: seq<ChatNet>, events: seq<ChatEvent>, i: nat)
    requires i < |events| < |states|
  {
    Possible(cw, states[i], events[i]) && states[i + 1] == Next(cw, states[i], events[i])
  }

  ghost predicate IsChatRun(cw: ChatWorld, states: seq<ChatNet>, events: seq<ChatEvent>) {
    && |states| == |events| + 1
    && states[0] == Start(cw)
    && forall i | 0 <= i < |events| :: NextAt(cw, states, events, i)
  }

  /** What a delivered payload does to the stores: at most the receiver's own, and that one stays a keyed table. */
  lemma AppDataStores(cw: ChatWorld, cn: ChatNet, node: NodeId, d: Delivery, now: real, clock: int, nick: Bytes)
    requires cn.net.nodes.Keys == cw.w.cfg.Keys && cn.stores.Keys == cw.w.cfg.Keys && cw.sync.Keys == cw.w.cfg.Keys
    requires node in cw.w.cfg && TableOk(cn.stores[node])
    ensures var after := OnAppData(cw, cn, node, d, now, clock, nick).stores;
            node in after && after == cn.stores[node := after[node]] && TableOk(after[node])
  {
    assert cn.stores[node := cn.stores[node]] == cn.stores;
  }

  /** Every event leaves all stores but its own node's alone, and that one stays a keyed table. */
  lemma OneStoreChanges(cw: ChatWorld, cn: ChatNet, e: ChatEvent)
    requires Possible(cw, cn, e)
    ensures var after := Next(cw, cn, e).stores;
            e.node in after && after == cn.stores[e.node := after[e.node]] && TableOk(after[e.node])
  {
    var n := e.node;
    assert cn.stores[n := cn.stores[n]] == cn.stores;
    if e.Hear? {
      var r := Receive(n, e.frame, e.now);
      var d := EffectOf(cw.w, cn.net, r).delivered;
      if d.Some? {
        AppDataStores(cw, cn.(net := Step(cw.w, cn.net, r)), n, d.value, e.now, e.clock, e.nick);
      }
    } else if e.PruneStore? {
      PruneTransparent(cn.stores[n], e.listed, e.keep, []);
    } else if e.PruneOld? {
      RecentOk(cn.stores[n].rows, e.cutoff);
    }
  }

  lemma SameNodes(cw: ChatWorld, cn: ChatNet, e: ChatEvent)
    requires Possible(cw, cn, e)
    ensures Next(cw, cn, e).net.nodes.Keys == cn.net.nodes.Keys
  {
  }

  lemma SoundStays(cw: ChatWorld, cn: ChatNet, e: ChatEvent)
    requires Possible(cw, cn, e)
    ensures Sound(cw, Next(cw, cn, e))
  {
    SameNodes(cw, cn, e);
    OneStoreChanges(cw, cn, e);
  }

  // ---------------------------------------------------------- invariants

  ghost predicate Told(truth: map<Key, Content>, k: Key, c: Content) {
    k in truth && truth[k] == c
  }

  /** Everything a message of this key and text can make a store say is what was said. */
  ghost predicate MessageTrue(json: Json, truth: map<Key, Content>, m: ChatMessage, k: Key) {
    && (m.msgType == TYPE_MESSAGE ==> Told(truth, k, ContentOf(m)))
    && (m.msgType == TYPE_SYNC_RESPONSE ==>
          exists rs :: m.text == json.showRecords(rs)
                       && forall r | r in rs :: Told(truth, RecordKey(r), RecordContent(r, m.channel)))
  }

  ghost predicate PayloadTrue(json: Json, truth: map<Key, Content>, r: Sent) {
    exists m :: Encodable(m) && Encode(m).value == r.payload && MessageTrue(json, truth, m, Key(r.origin, r.seqno))
  }

  ghost predicate TableTrue(truth: map<Key, Content>, t: Table) {
    TableOk(t) && forall x | x in t.rows :: Told(truth, x.key, x.content)
  }

  /** No chat send has a number its node has not given out yet. */
  ghost predicate NumbersIssued(cn: ChatNet) {
    forall n: NodeId, s | Key(n, s) in cn.truth && n in cn.net.nodes :: s <= Counter(cn.net, n)
  }

  ghost predicate ChatInv(cw: ChatWorld, cn: ChatNet) {
    && cn.net.nodes.Keys == cw.w.cfg.Keys && cn.stores.Keys == cw.w.cfg.Keys
    && DataInv(cw.w, cn.net)
    && (forall r | r in cn.net.sends :: PayloadTrue(cw.json, cn.truth, r))
    && (forall n | n in cn.stores :: TableTrue(cn.truth, cn.stores[n]))
  }

  /** The message of a chat send, and the key it is about to get. */
  function MessageOf(e: ChatEvent): (m: ChatMessage)
    requires e.Say?
  {
    ChatMessage(TYPE_MESSAGE, e.channel, e.nick, e.text, e.clock)
  }

  ghost function NextKey(cn: ChatNet, node: NodeId): (k: Key)
    requires node in cn.net.nodes
  {
    Key(node, NextSeqno(Counter(cn.net, node)))
  }

  /** The event is a chat send that goes through. */
  ghost predicate Says(cw: ChatWorld, e: ChatEvent) {
    e.Say? && e.node in cw.full && Encodable(MessageOf(e))
  }

  /** The caller-side condition: the number this chat send is about to get was not used by an earlier one to say
      something else. */
  ghost predicate Consistent(cw: ChatWorld, cn: ChatNet, e: ChatEvent)
    requires Possible(cw, cn, e)
  {
    Says(cw, e) ==> var k := NextKey(cn, e.node); k in cn.truth ==> cn.truth[k] == ContentOf(MessageOf(e))
  }

  lemma AddTrue(truth: map<Key, Content>, t: Table, k: Key, c: Content, now: real)
    requires TableTrue(truth, t) && Told(truth, k, c)
    ensures TableTrue(truth, Add(t, k, c, now))
  {
  }

  lemma {:induction false} ApplyTrue(truth: map<Key, Content>, t: Table, c: Bytes, items: seq<Item>, now: real)
    requires TableTrue(truth, t)
    requires forall x | x in items && x.Good? :: Told(truth, RecordKey(x.record), RecordContent(x.record, c))
    ensures TableTrue(truth, Apply(t, c, items, now))
    decreases |items|
  {
    if items != [] && !items[0].Unconvertible? {
      var head := items[0];
      assert head in items;
      if head.Good? {
        AddTrue(truth, t, RecordKey(head.record), RecordContent(head.record, c), now);
        ApplyTrue(truth, Add(t, RecordKey(head.record), RecordContent(head.record, c), now), c, items[1..], now);
      } else {
        ApplyTrue(truth, t, c, items[1..], now);
      }
    }
  }

  lemma PrefixIn(rows: seq<Row>, n: int)
    ensures forall x | x in Prefix(rows, n) :: x in rows
  {
  }

  lemma SuffixIn(rows: seq<Row>, n: int)
    ensures forall x | x in Suffix(rows, n) :: x in rows
  {
  }

  lemma SortedPrefixIn(o: Order, rows: seq<Row>, n: int)
    ensures forall x | x in Prefix(SortBy(o, rows), n) :: x in rows
  {
    SameMembers(SortBy(o, rows), rows);
    PrefixIn(SortBy(o, rows), n);
  }

  lemma WindowIn(rows: seq<Row>, c: Bytes, n: int)
    ensures forall x | x in LastN(rows, c, n) :: x in rows && x.content.channel == c
  {
    SameMembers(Timeline(rows, c), InChannel(rows, c));
    SuffixIn(Timeline(rows, c), n);
  }

  /** A responder only ever sends rows of its own table, of the requested channel. */
  lemma AnswerFromTable(rows: seq<Row>, cfg: SyncConfig, c: Bytes, q: SyncRequest)
    ensures var sent := Answer(rows, cfg, c, q);
            sent.Some? ==> forall x | x in sent.value :: x in rows && x.content.channel == c
  {
    match q
    case Since(ts) => SortedPrefixIn(ByTime, NewerThan(rows, c, ts), Limit(cfg));
    case SeqRange(origin, s, e) =>
      SortedPrefixIn(BySeqno, OriginRange(rows, c, origin, MinInt(s, e), MaxInt(s, e)), Limit(cfg));
    case Inventory(lastN, inv) =>
      var n := if lastN > cfg.lastN then cfg.lastN else lastN;
      WindowIn(rows, c, n);
      PrefixIn(Uncovered(LastN(rows, c, n), inv), Limit(cfg));
  }

  /** Adding one send whose payload is true keeps the invariant. */
  lemma TransmitKeeps(cw: ChatWorld, cn: ChatNet, node: NodeId, dest: NodeId, m: ChatMessage)
    requires ChatInv(cw, cn) && node in cw.w.cfg
    requires MessageTrue(cw.json, cn.truth, m, Key(node, NextSeqno(Counter(cn.net, node))))
    ensures ChatInv(cw, cn.(net := Transmit(cw, cn.net, node, dest, m)))
  {
    if Encodable(m) {
      var e := SendData(node, dest, Encode(m).value);
      DataInvStep(cw.w, cn.net, e);
      assert PayloadTrue(cw.json, cn.truth, Sent(node, dest, NextSeqno(Counter(cn.net, node)), Encode(m).value));
    }
  }

  lemma QuietStepKeeps(cw: ChatWorld, cn: ChatNet, e: Event)
    requires ChatInv(cw, cn) && Enabled(cw.w, cn.net, e) && !e.SendData?
    ensures ChatInv(cw, cn.(net := Step(cw.w, cn.net, e)))
  {
    DataInvStep(cw.w, cn.net, e);
  }

  lemma StoreKeeps(cw: ChatWorld, cn: ChatNet, n: NodeId, t: Table)
    requires ChatInv(cw, cn) && n in cn.stores && TableTrue(cn.truth, t)
    ensures ChatInv(cw, cn.(stores := cn.stores[n := t]))
  {
  }

  /** A delivered payload is one that was sent, so whatever the client does with it is true. */
  lemma OnAppDataKeeps(cw: ChatWorld, cn: ChatNet, node: NodeId, d: Delivery, now: real, clock: int, nick: Bytes)
    requires ChatInv(cw, cn) && cw.sync.Keys == cw.w.cfg.Keys && node in cw.w.cfg && Faithful(cw.json)
    requires Sent(d.origin, d.dest, d.seqno, d.payload) in cn.net.sends
    ensures ChatInv(cw, OnAppData(cw, cn, node, d, now, clock, nick))
  {
    var r := Sent(d.origin, d.dest, d.seqno, d.payload);
    assert PayloadTrue(cw.json, cn.truth, r);
    var m :| Encodable(m) && Encode(m).value == r.payload && MessageTrue(cw.json, cn.truth, m, Key(r.origin, r.seqno));
    DecodeEncode(m, clock);
    var table := cn.stores[node];
    if node !in cw.full {
    } else if m.msgType == TYPE_MESSAGE {
      AddTrue(cn.truth, table, Key(d.origin, d.seqno), ContentOf(m), now);
      StoreKeeps(cw, cn, node, Add(table, Key(d.origin, d.seqno), ContentOf(m), now));
    } else if m.msgType == TYPE_SYNC_REQUEST {
      var q := cw.json.readRequest(m.text);
      if q.Some? {
        RespondKeeps(cw, cn, node, d.origin, m.channel, q.value, clock, nick);
      }
    } else if m.msgType == TYPE_SYNC_RESPONSE {
      var rs :| m.text == cw.json.showRecords(rs)
                && forall r | r in rs :: Told(cn.truth, RecordKey(r), RecordContent(r, m.channel));
      assert cw.json.readRecords(m.text) == Some(AllGood(rs));
      ApplyTrue(cn.truth, table, m.channel, AllGood(rs), now);
      StoreKeeps(cw, cn, node, Apply(table, m.channel, AllGood(rs), now));
    }
  }

  lemma RespondKeeps(cw: ChatWorld, cn: ChatNet, node: NodeId, to: NodeId, c: Bytes, q: SyncRequest, clock: int,
                     nick: Bytes)
    requires ChatInv(cw, cn) && cw.sync.Keys == cw.w.cfg.Keys && node in cw.w.cfg
    ensures var sent := Answer(cn.stores[node].rows, cw.sync[node], c, q);
            sent.Some? ==>
              ChatInv(cw, cn.(net := Transmit(cw, cn.net, node, to,
                ChatMessage(TYPE_SYNC_RESPONSE, c, nick, cw.json.showRecords(Records(sent.value)), clock))))
  {
    var sent := Answer(cn.stores[node].rows, cw.sync[node], c, q);
    if sent.Some? {
      AnswerFromTable(cn.stores[node].rows, cw.sync[node], c, q);
      var rs := Records(sent.value);
      var m := ChatMessage(TYPE_SYNC_RESPONSE, c, nick, cw.json.showRecords(rs), clock);
      forall r | r in rs ensures Told(cn.truth, RecordKey(r), RecordContent(r, c)) {
        var i :| 0 <= i < |rs| && rs[i] == r;
        var x := sent.value[i];
        assert x in sent.value && RecordKey(r) == x.key && RecordContent(r, c) == x.content;
      }
      TransmitKeeps(cw, cn, node, to, m);
    }
  }

  lemma HearKeeps(cw: ChatWorld, cn: ChatNet, e: ChatEvent)
    requires ChatInv(cw, cn) && Possible(cw, cn, e) && e.Hear? && Lossless(cw.w.zlib) && Faithful(cw.json)
    ensures ChatInv(cw, Next(cw, cn, e))
  {
    var r := Receive(e.node, e.frame, e.now);
    QuietStepKeeps(cw, cn, r);
    var heard := cn.(net := Step(cw.w, cn.net, r));
    var d := EffectOf(cw.w, cn.net, r).delivered;
    if d.Some? {
      DeliveryIsBacked(cw.w, cn.net, r, d.value);
      OnAppDataKeeps(cw, heard, e.node, d.value, e.now, e.clock, e.nick);
    }
  }

  lemma TruthGrows(cw: ChatWorld, cn: ChatNet, k: Key, c: Content)
    requires ChatInv(cw, cn) && (k in cn.truth ==> cn.truth[k] == c)
    ensures ChatInv(cw, cn.(truth := cn.truth[k := c]))
  {
  }

  lemma SayKeeps(cw: ChatWorld, cn: ChatNet, e: ChatEvent)
    requires ChatInv(cw, cn) && Possible(cw, cn, e) && e.Say? && Consistent(cw, cn, e)
    ensures ChatInv(cw, Next(cw, cn, e))
  {
    if Says(cw, e) {
      var m, k := MessageOf(e), NextKey(cn, e.node);
      TruthGrows(cw, cn, k, ContentOf(m));
      var told := cn.(truth := cn.truth[k := ContentOf(m)]);
      TransmitKeeps(cw, told, e.node, e.dest, m);
      AddTrue(told.truth, told.stores[e.node], k, ContentOf(m), e.now);
      StoreKeeps(cw, told.(net := Transmit(cw, cn.net, e.node, e.dest, m)), e.node,
                 Add(cn.stores[e.node], k, ContentOf(m), e.now));
    }
  }

  lemma {:induction false} PruneSubset(t: Table, channels: seq<Bytes>, n: int, x: Row)
    requires x in PruneAll(t, channels, n).rows
    ensures x in t.rows
    decreases |channels|
  {
    if channels != [] {
      PruneSubset(PruneChannel(t, channels[0], n), channels[1..], n, x);
    }
  }

  lemma TailOk(rows: seq<Row>)
    requires IdsAscend(rows) && KeysDistinct(rows) && rows != []
    ensures IdsAscend(rows[1..]) && KeysDistinct(rows[1..]) && rows == [rows[0]] + rows[1..]
  {
  }

  lemma {:induction false} RecentOk(rows: seq<Row>, cutoff: int)
    requires IdsAscend(rows) && KeysDistinct(rows)
    ensures IdsAscend(Recent(rows, cutoff)) && KeysDistinct(Recent(rows, cutoff))
  {
    if rows != [] {
      var rest := Recent(rows[1..], cutoff);
      TailOk(rows);
      RecentOk(rows[1..], cutoff);
      ConsOk(rows[0], rows[1..], rest);
      assert [] + rest == rest;
    }
  }

  lemma PruneKeeps(cw: ChatWorld, cn: ChatNet, e: ChatEvent)
    requires ChatInv(cw, cn) && Possible(cw, cn, e) && (e.PruneStore? || e.PruneOld?)
    ensures ChatInv(cw, Next(cw, cn, e))
  {
    var t := cn.stores[e.node];
    assert TableTrue(cn.truth, t);
    if e.PruneStore? {
      PruneTransparent(t, e.listed, e.keep, []);
      forall x | x in PruneAll(t, e.listed, e.keep).rows ensures Told(cn.truth, x.key, x.content) {
        PruneSubset(t, e.listed, e.keep, x);
      }
      StoreKeeps(cw, cn, e.node, PruneAll(t, e.listed, e.keep));
    } else {
      RecentOk(t.rows, e.cutoff);
      StoreKeeps(cw, cn, e.node, DropOlder(t, e.cutoff));
    }
  }

  lemma ChatInvNext(cw: ChatWorld, cn: ChatNet, e: ChatEvent)
    requires ChatInv(cw, cn) && Possible(cw, cn, e) && Consistent(cw, cn, e)
    requires Lossless(cw.w.zlib) && Faithful(cw.json)
    ensures ChatInv(cw, Next(cw, cn, e))
  {
    match e
    case Hear(_, _, _, _, _) => HearKeeps(cw, cn, e);
    case Say(_, _, _, _, _, _, _) => SayKeeps(cw, cn, e);
    case Ask(n, dest, channel, nick, request, clock) =>
      if n in cw.full {
        TransmitKeeps(cw, cn, n, dest,
                      ChatMessage(TYPE_SYNC_REQUEST, channel, nick, cw.json.showRequest(request), clock));
      }
    case Announce(n) => QuietStepKeeps(cw, cn, SendOgm(n));
    case Tidy(n, now) => QuietStepKeeps(cw, cn, Cleanup(n, now));
    case PruneStore(_, _, _) => PruneKeeps(cw, cn, e);
    case PruneOld(_, _) => PruneKeeps(cw, cn, e);
    case Reboot(n) => QuietStepKeeps(cw, cn, Restart(n));
  }

  ghost predicate ConsistentAt(cw: ChatWorld, states: seq<ChatNet>, events: seq<ChatEvent>, i: nat)
    requires i < |events| < |states|
  {
    Possible(cw, states[i], events[i]) && Consistent(cw, states[i], events[i])
  }

  ghost predicate NumbersConsistent(cw: ChatWorld, states: seq<ChatNet>, events: seq<ChatEvent>) {
    && |events| < |states|
    && forall i | 0 <= i < |events| :: ConsistentAt(cw, states, events, i)
  }

  lemma ChatInvStart(cw: ChatWorld)
    ensures ChatInv(cw, Start(cw))
  {
  }

  lemma ChatInvAt(cw: ChatWorld, states: seq<ChatNet>, events: seq<ChatEvent>, i: nat)
    requires IsChatRun(cw, states, events) && NumbersConsistent(cw, states, events) && i < |events|
    requires ChatInv(cw, states[i]) && Lossless(cw.w.zlib) && Faithful(cw.json)
    ensures ChatInv(cw, states[i + 1])
  {
    assert NextAt(cw, states, events, i) && ConsistentAt(cw, states, events, i);
    ChatInvNext(cw, states[i], events[i]);
  }

  lemma {:induction false} ChatInvReachable(cw: ChatWorld, states: seq<ChatNet>, events: seq<ChatEvent>, k: nat)
    requires IsChatRun(cw, states, events) && NumbersConsistent(cw, states, events) && k < |states|
    requires Lossless(cw.w.zlib) && Faithful(cw.json)
    ensures ChatInv(cw, states[k])
  {
    if k > 0 {
      ChatInvReachable(cw, states, events, k - 1);
      ChatInvAt(cw, states, events, k - 1);
    } else {
      ChatInvStart(cw);
    }
  }

  /** Global store agreement. In every state of every run in which no chat send gets a number its node has used
      to say something else, any two stores agree on every message they both hold, and hold only
      messages that were really sent under that key. */
  lemma StoresAgree(cw: ChatWorld, states: seq<ChatNet>, events: seq<ChatEvent>, k: nat, a: NodeId, b: NodeId)
    requires IsChatRun(cw, states, events) && NumbersConsistent(cw, states, events) && k < |states|
    requires Lossless(cw.w.zlib) && Faithful(cw.json) && a in states[k].stores && b in states[k].stores
    ensures Agree(states[k].stores[a], states[k].stores[b])
    ensures forall x | x in states[k].stores[a].rows :: Told(states[k].truth, x.key, x.content)
  {
    ChatInvReachable(cw, states, events, k);
    assert TableTrue(states[k].truth, states[k].stores[a]) && TableTrue(states[k].truth, states[k].stores[b]);
  }

  // ---------------------------------- when numbers are consistent

  /** No restart, and no counter about to pass the last 32-bit value. */
  ghost predicate Steady(cn: ChatNet, e: ChatEvent) {
    !e.Reboot? && (e.node in cn.net.nodes ==> Counter(cn.net, e.node) + 1 < U32_LIMIT)
  }

  ghost predicate SteadyAt(states: seq<ChatNet>, events: seq<ChatEvent>, i: nat)
    requires i < |events| < |states|
  {
    Steady(states[i], events[i])
  }

  ghost predicate RunSteady(states: seq<ChatNet>, events: seq<ChatEvent>) {
    |events| < |states| && forall i | 0 <= i < |events| :: SteadyAt(states, events, i)
  }

  lemma StepCounter(w: World, net: Net, e: Event, n: NodeId)
    requires Enabled(w, net, e) && !e.Restart? && n in net.nodes && Counter(net, e.node) + 1 < U32_LIMIT
    ensures n in Step(w, net, e).nodes
    ensures Counter(Step(w, net, e), n)
         == if n == e.node && (e.SendData? || e.SendOgm?) then Counter(net, n) + 1 else Counter(net, n)
  {
  }

  lemma SteadyConsistent(cw: ChatWorld, cn: ChatNet, e: ChatEvent)
    requires Possible(cw, cn, e) && Steady(cn, e) && NumbersIssued(cn)
    ensures Consistent(cw, cn, e)
  {
  }

  /** The counters of both networks cover the truth of the later one. */
  lemma IssuedCarries(before: ChatNet, after: ChatNet, k: Key, c: Content)
    requires NumbersIssued(before) && before.net.nodes.Keys == after.net.nodes.Keys
    requires forall o: NodeId | o in before.net.nodes :: Counter(after.net, o) >= Counter(before.net, o)
    requires after.truth == before.truth
             || (after.truth == before.truth[k := c]
                 && forall n: NodeId | n in after.net.nodes && n == k.origin :: k.seqno <= Counter(after.net, n))
    ensures NumbersIssued(after)
  {
  }

  lemma SteadyStep(cw: ChatWorld, cn: ChatNet, e: ChatEvent)
    requires Possible(cw, cn, e) && Steady(cn, e) && NumbersIssued(cn)
    ensures NumbersIssued(Next(cw, cn, e))
  {
    var cn' := Next(cw, cn, e);
    forall o: NodeId ensures o in cn.net.nodes ==> o in cn'.net.nodes && Counter(cn'.net, o) >= Counter(cn.net, o) {
      if o in cn.net.nodes {
        CounterGrows(cw, cn, e, o);
      }
    }
    SameNodes(cw, cn, e);
    if e.Say? {
      SayNumber(cw, cn, e);
      IssuedCarries(cn, cn', Key(e.node, Counter(cn'.net, e.node)),
                    ContentOf(MessageOf(e)));
    } else {
      TruthUnchanged(cw, cn, e);
      IssuedCarries(cn, cn', Key([], 0), Content([], [], [], 0));
    }
  }

  lemma TruthUnchanged(cw: ChatWorld, cn: ChatNet, e: ChatEvent)
    requires Possible(cw, cn, e) && !e.Say?
    ensures Next(cw, cn, e).truth == cn.truth
  {
  }

  lemma SayNumber(cw: ChatWorld, cn: ChatNet, e: ChatEvent)
    requires Possible(cw, cn, e) && Steady(cn, e) && e.Say?
    ensures var m, cn' := MessageOf(e), Next(cw, cn, e);
            if Says(cw, e) then cn'.truth == cn.truth[Key(e.node, Counter(cn'.net, e.node)) := ContentOf(m)]
            else cn'.truth == cn.truth
  {
  }

  lemma SayTakesNumber(cw: ChatWorld, cn: ChatNet, e: ChatEvent)
    requires Possible(cw, cn, e) && Says(cw, e) && Counter(cn.net, e.node) + 1 < U32_LIMIT
    ensures e.node in Next(cw, cn, e).net.nodes
    ensures Counter(Next(cw, cn, e).net, e.node) == NextSeqno(Counter(cn.net, e.node)) == Counter(cn.net, e.node) + 1
  {
    StepCounter(cw.w, cn.net, SendData(e.node, e.dest, Encode(MessageOf(e)).value), e.node);
  }

  lemma CounterGrows(cw: ChatWorld, cn: ChatNet, e: ChatEvent, o: NodeId)
    requires Possible(cw, cn, e) && Steady(cn, e) && o in cn.net.nodes
    ensures o in Next(cw, cn, e).net.nodes && Counter(Next(cw, cn, e).net, o) >= Counter(cn.net, o)
  {
    var n := e.node;
    match e
    case Hear(_, frame, now, clock, nick) =>
      var r := Receive(n, frame, now);
      StepCounter(cw.w, cn.net, r, o);
      StepCounter(cw.w, cn.net, r, n);
      var heard := cn.(net := Step(cw.w, cn.net, r));
      var d := EffectOf(cw.w, cn.net, r).delivered;
      if d.Some? {
        AppDataCounter(cw, heard, n, d.value, now, clock, nick, o);
      }
    case Say(_, dest, channel, nick, text, clock, now) =>
      TransmitCounter(cw, cn.net, n, dest, MessageOf(e), o);
    case Ask(_, dest, channel, nick, request, clock) =>
      TransmitCounter(cw, cn.net, n, dest,
                      ChatMessage(TYPE_SYNC_REQUEST, channel, nick, cw.json.showRequest(request), clock), o);
    case Announce(_) => StepCounter(cw.w, cn.net, SendOgm(n), o);
    case Tidy(_, now) => StepCounter(cw.w, cn.net, Cleanup(n, now), o);
    case PruneStore(_, _, _) =>
    case PruneOld(_, _) =>
  }

  lemma TransmitCounter(cw: ChatWorld, net: Net, node: NodeId, dest: NodeId, m: ChatMessage, o: NodeId)
    requires net.nodes.Keys == cw.w.cfg.Keys && node in cw.w.cfg && o in net.nodes && Counter(net, node) + 1 < U32_LIMIT
    ensures Counter(Transmit(cw, net, node, dest, m), o) >= Counter(net, o)
  {
  }

  lemma AppDataCounter(cw: ChatWorld, cn: ChatNet, node: NodeId, d: Delivery, now: real, clock: int, nick: Bytes,
                       o: NodeId)
    requires cn.net.nodes.Keys == cw.w.cfg.Keys && cn.stores.Keys == cw.w.cfg.Keys && cw.sync.Keys == cw.w.cfg.Keys
    requires node in cw.w.cfg && TableOk(cn.stores[node]) && o in cn.net.nodes && Counter(cn.net, node) + 1 < U32_LIMIT
    ensures o in OnAppData(cw, cn, node, d, now, clock, nick).net.nodes
    ensures Counter(OnAppData(cw, cn, node, d, now, clock, nick).net, o) >= Counter(cn.net, o)
  {
    var m := Decode(d.payload, clock);
    if m.Some? && node in cw.full && m.value.msgType == TYPE_SYNC_REQUEST {
      var q := cw.json.readRequest(m.value.text);
      if q.Some? {
        var sent := Answer(cn.stores[node].rows, cw.sync[node], m.value.channel, q.value);
        if sent.Some? {
          TransmitCounter(cw, cn.net, node, d.origin,
            ChatMessage(TYPE_SYNC_RESPONSE, m.value.channel, nick, cw.json.showRecords(Records(sent.value)), clock), o);
        }
      }
    }
  }

  lemma {:induction false} NumbersIssuedReachable(cw: ChatWorld, states: seq<ChatNet>, events: seq<ChatEvent>, k: nat)
    requires IsChatRun(cw, states, events) && k < |states|
    requires RunSteady(states, events)
    ensures NumbersIssued(states[k])
  {
    if k > 0 {
      NumbersIssuedReachable(cw, states, events, k - 1);
      assert NextAt(cw, states, events, k - 1) && SteadyAt(states, events, k - 1);
      SteadyStep(cw, states[k - 1], events[k - 1]);
    }
  }

  lemma SteadyIsConsistent(cw: ChatWorld, states: seq<ChatNet>, events: seq<ChatEvent>)
    requires IsChatRun(cw, states, events) && RunSteady(states, events)
    ensures NumbersConsistent(cw, states, events)
  {
    forall i: nat | i < |events| ensures ConsistentAt(cw, states, events, i) {
      assert NextAt(cw, states, events, i) && SteadyAt(states, events, i);
      NumbersIssuedReachable(cw, states, events, i);
      SteadyConsistent(cw, states[i], events[i]);
    }
  }

  /** Without node restarts and counter wrap, every chat send gets an unused number, so stores always agree. */
  lemma SteadyRunsAgree(cw: ChatWorld, states: seq<ChatNet>, events: seq<ChatEvent>, k: nat, a: NodeId, b: NodeId)
    requires IsChatRun(cw, states, events) && k < |states|
    requires RunSteady(states, events)
    requires Lossless(cw.w.zlib) && Faithful(cw.json) && a in states[k].stores && b in states[k].stores
    ensures Agree(states[k].stores[a], states[k].stores[b])
  {
    SteadyIsConsistent(cw, states, events);
    StoresAgree(cw, states, events, k, a, b);
  }
}
