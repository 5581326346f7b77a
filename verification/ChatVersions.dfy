/** Exactly which states can lead to disagreement, whomever the chat sends were addressed to. A version of a key is
    a content some store holds under it, or one that a payload sent to a full node would make that node hold. */
module ChatVersions {
  import opened Basics
  import opened Bytes
  import opened MeshFrame
  import opened MeshNode
  import opened MeshNetwork
  import opened MeshDelivery
  import opened ChatProtocol
  import opened ChatStore
  import opened ChatSync
  import opened ChatNetwork
  import opened ChatConflict

  // ---------------------------------------------------- what payloads tell

  /** Record i is the first of its key in the list. */
  predicate FirstUnder(rs: seq<Record>, i: int, k: Key) {
    0 <= i < |rs| && RecordKey(rs[i]) == k && forall j | 0 <= j < i :: RecordKey(rs[j]) != k
  }

  /** What the message, sent under the key `own`, makes an empty store hold under k. */
  ghost predicate Tells(json: Json, m: ChatMessage, own: Key, k: Key, c: Content) {
    || (m.msgType == TYPE_MESSAGE && k == own && c == ContentOf(m))
    || (m.msgType == TYPE_SYNC_RESPONSE
        && exists rs, i ::
             m.text == json.showRecords(rs) && FirstUnder(rs, i, k) && c == RecordContent(rs[i], m.channel))
  }

  ghost predicate Held(cn: ChatNet, p: NodeId, k: Key, c: Content) {
    p in cn.stores && exists x :: x in cn.stores[p].rows && x.key == k && x.content == c
  }

  ghost predicate Carried(cw: ChatWorld, cn: ChatNet, r: Sent, k: Key, c: Content) {
    && r in cn.net.sends && r.dest in cw.full && r.dest in cw.w.cfg
    && exists m :: Encodable(m) && Encode(m).value == r.payload && Tells(cw.json, m, Key(r.origin, r.seqno), k, c)
  }

  ghost predicate Version(cw: ChatWorld, cn: ChatNet, k: Key, c: Content) {
    (exists p :: Held(cn, p, k, c)) || exists r :: Carried(cw, cn, r, k, c)
  }

  /** No key has two versions. */
  ghost predicate Unanimous(cw: ChatWorld, cn: ChatNet) {
    forall k, c, c' :: Version(cw, cn, k, c) && Version(cw, cn, k, c') ==> c == c'
  }

  // ------------------------------------------------- applying record lists

  lemma GoodTail(rs: seq<Record>)
    requires rs != []
    ensures AllGood(rs)[0] == Good(rs[0]) && AllGood(rs)[1..] == AllGood(rs[1..])
  {
  }

  lemma {:induction false} ApplyKeeps(t: Table, c: Bytes, rs: seq<Record>, now: real, x: Row)
    requires TableOk(t) && x in t.rows
    ensures x in Apply(t, c, AllGood(rs), now).rows
    decreases |rs|
  {
    if rs != [] {
      GoodTail(rs);
      ApplyKeeps(Add(t, RecordKey(rs[0]), RecordContent(rs[0], c), now), c, rs[1..], now, x);
    }
  }

  /** A key not held is filled from its first record. */
  lemma {:induction false} ApplyFills(t: Table, c: Bytes, rs: seq<Record>, i: nat, k: Key, now: real) returns (x: Row)
    requires TableOk(t) && !HasKey(t.rows, k) && FirstUnder(rs, i, k)
    ensures x in Apply(t, c, AllGood(rs), now).rows && x.key == k && x.content == RecordContent(rs[i], c)
    decreases |rs|
  {
    var t1 := Add(t, RecordKey(rs[0]), RecordContent(rs[0], c), now);
    GoodTail(rs);
    if i == 0 {
      AddedIsHeld(t, k, RecordContent(rs[0], c), now);
      x := t1.rows[|t.rows|];
      ApplyKeeps(t1, c, rs[1..], now, x);
    } else {
      assert FirstUnder(rs[1..], i - 1, k);
      AddKeys(t, RecordKey(rs[0]), RecordContent(rs[0], c), now, k);
      x := ApplyFills(t1, c, rs[1..], i - 1, k, now);
    }
  }

  /** Every row that applying adds is the first record of its key. */
  lemma {:induction false} ApplyAdds(t: Table, c: Bytes, rs: seq<Record>, now: real, x: Row)
    requires TableOk(t) && x in Apply(t, c, AllGood(rs), now).rows
    ensures x in t.rows || exists i :: FirstUnder(rs, i, x.key) && x.content == RecordContent(rs[i], c)
    decreases |rs|
  {
    if rs != [] {
      var t1 := Add(t, RecordKey(rs[0]), RecordContent(rs[0], c), now);
      GoodTail(rs);
      if HasKey(t1.rows, x.key) {
        var j :| 0 <= j < |t1.rows| && t1.rows[j].key == x.key;
        ApplyKeeps(t1, c, rs[1..], now, t1.rows[j]);
        OneRowPerKey(Apply(t, c, AllGood(rs), now), x, t1.rows[j]);
        if x !in t.rows {
          assert FirstUnder(rs, 0, x.key);
        }
      } else {
        ApplyAdds(t1, c, rs[1..], now, x);
        var i :| FirstUnder(rs[1..], i, x.key) && x.content == RecordContent(rs[1..][i], c);
        assert FirstUnder(rs, i + 1, x.key);
      }
    }
  }

  /** The records of a response are determined by its text. */
  lemma SameRecords(json: Json, rs: seq<Record>, rs': seq<Record>)
    requires Faithful(json) && json.showRecords(rs) == json.showRecords(rs')
    ensures rs == rs'
  {
    assert json.readRecords(json.showRecords(rs)) == Some(AllGood(rs));
    assert json.readRecords(json.showRecords(rs')) == Some(AllGood(rs'));
    assert |AllGood(rs)| == |AllGood(rs')|;
    forall i | 0 <= i < |rs| ensures rs[i] == rs'[i] {
      assert AllGood(rs)[i] == AllGood(rs')[i];
    }
  }

  lemma SameMessage(m: ChatMessage, m': ChatMessage)
    requires Encodable(m) && Encodable(m') && Encode(m) == Encode(m')
    ensures m == m'
  {
    DecodeEncode(m, 0);
    DecodeEncode(m', 0);
  }

  // ----------------------------------------------- two versions can meet

  lemma ResponseHandled(cw: ChatWorld, cn: ChatNet, from: NodeId, d: NodeId, s: u32, m: ChatMessage, rs: seq<Record>)
    requires Sound(cw, cn) && d in cw.w.cfg && d in cw.full && Faithful(cw.json)
    requires Encodable(m) && m.msgType == TYPE_SYNC_RESPONSE && m.text == cw.json.showRecords(rs)
    requires Decode(Encode(m).value, 0) == Some(m)
    ensures OnAppData(cw, cn, d, Delivery(from, d, s, Encode(m).value), 0.0, 0, [])
         == StoreSet(cn, d, Apply(cn.stores[d], m.channel, AllGood(rs), 0.0))
  {
    assert cw.json.readRecords(m.text) == Some(AllGood(rs));
  }

  /** A cleared node comes to hold what the message tells. */
  lemma LearnsClear(cw: ChatWorld, h: History, from: NodeId, d: NodeId, s: u32, m: ChatMessage, k: Key, c: Content)
    returns (h': History)
    requires IsHistory(cw, h) && Sound(cw, Last(h)) && from in cw.w.cfg && d in cw.w.cfg && d in cw.full
    requires Clear(Last(h), d)
    requires Lossless(cw.w.zlib) && Faithful(cw.json) && Encodable(m) && Tells(cw.json, m, Key(from, s), k, c)
    requires ChatFrame(cw, from, d, s, m) in Last(h).net.medium
    ensures Continues(cw, h, h') && Sound(cw, Last(h')) && OnlyAt(Last(h), Last(h'), d) && Held(Last(h'), d, k, c)
  {
    h' := HearsFrame(cw, h, from, d, s, m);
    var heard := Heard(cw, Last(h), d, ChatFrame(cw, from, d, s, m));
    var t := heard.stores[d];
    if m.msgType == TYPE_MESSAGE {
      MessageAdded(cw, heard, from, d, s, m);
      AddedIsHeld(t, k, c, 0.0);
      assert Last(h').stores[d].rows[|t.rows|] in Last(h').stores[d].rows;
    } else {
      var rs, i :| m.text == cw.json.showRecords(rs) && FirstUnder(rs, i, k) && c == RecordContent(rs[i], m.channel);
      ResponseHandled(cw, heard, from, d, s, m, rs);
      var x := ApplyFills(t, m.channel, rs, i, k, 0.0);
    }
  }

  lemma Learns(cw: ChatWorld, h: History, from: NodeId, d: NodeId, s: u32, m: ChatMessage, k: Key, c: Content)
    returns (h': History)
    requires IsHistory(cw, h) && Sound(cw, Last(h)) && from in cw.w.cfg && d in cw.w.cfg && d in cw.full
    requires Lossless(cw.w.zlib) && Faithful(cw.json) && Encodable(m) && Tells(cw.json, m, Key(from, s), k, c)
    requires ChatFrame(cw, from, d, s, m) in Last(h).net.medium
    ensures Continues(cw, h, h') && Sound(cw, Last(h')) && OnlyAt(Last(h), Last(h'), d) && Held(Last(h'), d, k, c)
  {
    var h1 := Cleared(cw, h, d);
    h' := LearnsClear(cw, h1, from, d, s, m, k, c);
    ContinuesOn(cw, h, h1, h');
    OnlyAtTwice(Last(h), Last(h1), Last(h'), d);
  }

  lemma HeldTwice(cn: ChatNet, p: NodeId, q: NodeId, k: Key, c: Content, c': Content)
    requires Held(cn, p, k, c) && Held(cn, q, k, c') && c != c'
    ensures Disagree(cn)
  {
    var x :| x in cn.stores[p].rows && x.key == k && x.content == c;
    var y :| y in cn.stores[q].rows && y.key == k && y.content == c';
    TwoVersions(cn, p, q, x, y);
  }

  lemma StaysHeld(a: ChatNet, b: ChatNet, d: NodeId, p: NodeId, k: Key, c: Content)
    requires OnlyAt(a, b, d) && p != d && Held(a, p, k, c)
    ensures Held(b, p, k, c)
  {
  }

  /** A full node of the network. */
  predicate IsClient(cw: ChatWorld, n: NodeId) { n in cw.full && n in cw.w.cfg }

  /** One version held by p and another sent to d end up in two stores: d hears the second, after p, if it is the
      same node, has passed the first on to x. */
  lemma HeldMeetsSent(cw: ChatWorld, h: History, p: NodeId, row: Row, from: NodeId, d: NodeId, s: u32, m: ChatMessage,
                      c: Content, x: NodeId) returns (h': History)
    requires IsHistory(cw, h) && Sound(cw, Last(h)) && from in cw.w.cfg && Lossless(cw.w.zlib) && Faithful(cw.json)
    requires IsClient(cw, p) && IsClient(cw, d) && IsClient(cw, x) && x != p
    requires row in Last(h).stores[p].rows && |row.content.channel| <= 255 && row.content != c
    requires Encodable(m) && Tells(cw.json, m, Key(from, s), row.key, c)
    requires ChatFrame(cw, from, d, s, m) in Last(h).net.medium
    ensures Continues(cw, h, h') && Disagree(Last(h'))
  {
    var holder, h1 := p, h;
    if p == d {
      holder := x;
      h1 := PassedOn(cw, h, p, x, row);
      assert Last(h1).stores[x].rows[0] in Last(h1).stores[x].rows;
    }
    assert Held(Last(h1), holder, row.key, row.content);
    h' := Learns(cw, h1, from, d, s, m, row.key, c);
    if p == d {
      ContinuesOn(cw, h, h1, h');
    }
    StaysHeld(Last(h1), Last(h'), d, holder, row.key, row.content);
    HeldTwice(Last(h'), holder, d, row.key, row.content, c);
  }

  // -------------------------------------------- what every run maintains

  /** A payload that was sent is a chat message whose frame is on the air; a response lists records. */
  ghost predicate GoodSend(cw: ChatWorld, net: Net, r: Sent) {
    && r.origin in cw.w.cfg
    && exists m :: Encodable(m) && Encode(m).value == r.payload
         && ChatFrame(cw, r.origin, r.dest, r.seqno, m) in net.medium
         && (m.msgType == TYPE_SYNC_RESPONSE ==> exists rs :: m.text == cw.json.showRecords(rs))
  }

  /** Only full nodes store anything, and channel names are short enough to send. */
  ghost predicate GoodRows(cw: ChatWorld, n: NodeId, rows: seq<Row>) {
    (n !in cw.full ==> rows == []) && forall x | x in rows :: |x.content.channel| <= 255
  }

  ghost predicate Orderly(cw: ChatWorld, cn: ChatNet) {
    && DataInv(cw.w, cn.net)
    && (forall r | r in cn.net.sends :: GoodSend(cw, cn.net, r))
    && (forall n | n in cn.stores :: GoodRows(cw, n, cn.stores[n].rows))
  }

  lemma MeshKeepsOrder(cw: ChatWorld, cn: ChatNet, e: Event)
    requires Sound(cw, cn) && Orderly(cw, cn) && Enabled(cw.w, cn.net, e) && !e.SendData?
    ensures Orderly(cw, cn.(net := Step(cw.w, cn.net, e)))
  {
    DataInvStep(cw.w, cn.net, e);
  }

  lemma TransmitKeepsOrder(cw: ChatWorld, cn: ChatNet, node: NodeId, dest: NodeId, m: ChatMessage)
    requires Sound(cw, cn) && Orderly(cw, cn) && node in cw.w.cfg
    requires m.msgType == TYPE_SYNC_RESPONSE ==> exists rs :: m.text == cw.json.showRecords(rs)
    ensures Orderly(cw, cn.(net := Transmit(cw, cn.net, node, dest, m)))
  {
    if Encodable(m) {
      var net' := Transmit(cw, cn.net, node, dest, m);
      DataInvStep(cw.w, cn.net, SendData(node, dest, Encode(m).value));
      TransmitsFrame(cw, cn.net, node, dest, m);
      assert GoodSend(cw, net', Sent(node, dest, NextSeqno(Counter(cn.net, node)), Encode(m).value));
    }
  }

  lemma StoreKeepsOrder(cw: ChatWorld, cn: ChatNet, d: NodeId, t: Table)
    requires Orderly(cw, cn) && d in cn.stores && GoodRows(cw, d, t.rows)
    ensures Orderly(cw, StoreSet(cn, d, t))
  {
  }

  /** The message a delivered payload stands for. */
  lemma Delivered(cw: ChatWorld, cn: ChatNet, d: Delivery, clock: int) returns (m: ChatMessage)
    requires Orderly(cw, cn) && Sent(d.origin, d.dest, d.seqno, d.payload) in cn.net.sends
    ensures Encodable(m) && Encode(m).value == d.payload && Decode(d.payload, clock) == Some(m)
    ensures m.msgType == TYPE_SYNC_RESPONSE ==> exists rs :: m.text == cw.json.showRecords(rs)
  {
    var r := Sent(d.origin, d.dest, d.seqno, d.payload);
    assert GoodSend(cw, cn.net, r);
    m :| Encodable(m) && Encode(m).value == r.payload
         && (m.msgType == TYPE_SYNC_RESPONSE ==> exists rs :: m.text == cw.json.showRecords(rs));
    DecodeEncode(m, clock);
  }

  /** How the client reacts: not at all, by storing, or by answering. */
  datatype Reaction = Nothing | Stores(table: Table) | Answers(dest: NodeId, message: ChatMessage)

  ghost function React(cw: ChatWorld, cn: ChatNet, node: NodeId, d: Delivery, m: ChatMessage, now: real, clock: int,
                       nick: Bytes): (r: Reaction)
    requires Sound(cw, cn) && node in cw.w.cfg
  {
    if node !in cw.full then Nothing
    else if m.msgType == TYPE_MESSAGE then Stores(Add(cn.stores[node], Key(d.origin, d.seqno), ContentOf(m), now))
    else if m.msgType == TYPE_SYNC_REQUEST then
      var q := cw.json.readRequest(m.text);
      if q.None? then Nothing else
      var sent := Answer(cn.stores[node].rows, cw.sync[node], m.channel, q.value);
      if sent.None? then Nothing else
      Answers(d.origin,
              ChatMessage(TYPE_SYNC_RESPONSE, m.channel, nick, cw.json.showRecords(Records(sent.value)), clock))
    else if m.msgType == TYPE_SYNC_RESPONSE then
      var items := cw.json.readRecords(m.text);
      if items.None? then Nothing else Stores(Apply(cn.stores[node], m.channel, items.value, now))
    else Nothing
  }

  ghost function Reacted(cw: ChatWorld, cn: ChatNet, node: NodeId, r: Reaction): (after: ChatNet)
    requires Sound(cw, cn) && node in cw.w.cfg
  {
    match r
    case Nothing => cn
    case Stores(t) => StoreSet(cn, node, t)
    case Answers(dest, m) => cn.(net := Transmit(cw, cn.net, node, dest, m))
  }

  lemma AppDataReacts(cw: ChatWorld, cn: ChatNet, node: NodeId, d: Delivery, m: ChatMessage, now: real, clock: int,
                      nick: Bytes)
    requires Sound(cw, cn) && node in cw.w.cfg && Decode(d.payload, clock) == Some(m)
    ensures OnAppData(cw, cn, node, d, now, clock, nick)
         == Reacted(cw, cn, node, React(cw, cn, node, d, m, now, clock, nick))
  {
  }

  /** Whatever a reaction stores or sends was a version before: told by the message, or held by the node. */
  lemma ReactionIsOld(cw: ChatWorld, cn: ChatNet, node: NodeId, d: Delivery, m: ChatMessage, now: real, clock: int,
                      nick: Bytes)
    requires Sound(cw, cn) && Orderly(cw, cn) && node in cw.w.cfg && Faithful(cw.json) && Encodable(m)
    requires m.msgType == TYPE_SYNC_RESPONSE ==> exists rs :: m.text == cw.json.showRecords(rs)
    ensures var own, r := Key(d.origin, d.seqno), React(cw, cn, node, d, m, now, clock, nick);
            && (r.Stores? ==> node in cw.full && forall x | x in r.table.rows ::
                  x in cn.stores[node].rows || (|x.content.channel| <= 255 && Tells(cw.json, m, own, x.key, x.content)))
            && (r.Answers? ==> exists rs :: r.message.text == cw.json.showRecords(rs))
            && (r.Answers? ==> forall own', k, c :: Tells(cw.json, r.message, own', k, c) ==> Held(cn, node, k, c))
  {
    var own, r := Key(d.origin, d.seqno), React(cw, cn, node, d, m, now, clock, nick);
    if node in cw.full {
      if m.msgType == TYPE_SYNC_RESPONSE {
        var rs :| m.text == cw.json.showRecords(rs);
        assert cw.json.readRecords(m.text) == Some(AllGood(rs));
        forall x | x in r.table.rows
          ensures x in cn.stores[node].rows || (|x.content.channel| <= 255 && Tells(cw.json, m, own, x.key, x.content))
        {
          ApplyAdds(cn.stores[node], m.channel, rs, now, x);
        }
      } else if m.msgType == TYPE_SYNC_REQUEST && r.Answers? {
        AnswerIsHeld(cw, cn, node, m, clock, nick);
      }
    }
  }

  lemma AnswerIsHeld(cw: ChatWorld, cn: ChatNet, node: NodeId, m: ChatMessage, clock: int, nick: Bytes)
    requires Sound(cw, cn) && node in cw.w.cfg && Faithful(cw.json) && cw.json.readRequest(m.text).Some?
    requires Answer(cn.stores[node].rows, cw.sync[node], m.channel, cw.json.readRequest(m.text).value).Some?
    ensures var sent := Answer(cn.stores[node].rows, cw.sync[node], m.channel, cw.json.readRequest(m.text).value).value;
            var response := ChatMessage(TYPE_SYNC_RESPONSE, m.channel, nick, cw.json.showRecords(Records(sent)), clock);
            forall own, k, c :: Tells(cw.json, response, own, k, c) ==> Held(cn, node, k, c)
  {
    var rows, q := cn.stores[node].rows, cw.json.readRequest(m.text).value;
    var sent := Answer(rows, cw.sync[node], m.channel, q).value;
    var response := ChatMessage(TYPE_SYNC_RESPONSE, m.channel, nick, cw.json.showRecords(Records(sent)), clock);
    AnswerFromTable(rows, cw.sync[node], m.channel, q);
    forall own, k, c | Tells(cw.json, response, own, k, c) ensures Held(cn, node, k, c) {
      var rs, i :| response.text == cw.json.showRecords(rs) && FirstUnder(rs, i, k)
                   && c == RecordContent(rs[i], m.channel);
      SameRecords(cw.json, rs, Records(sent));
      assert sent[i] in sent && sent[i].key == k && sent[i].content == c;
    }
  }

  lemma AppDataKeepsOrder(cw: ChatWorld, cn: ChatNet, node: NodeId, d: Delivery, now: real, clock: int, nick: Bytes)
    requires Sound(cw, cn) && Orderly(cw, cn) && node in cw.w.cfg && Faithful(cw.json)
    requires Sent(d.origin, d.dest, d.seqno, d.payload) in cn.net.sends
    ensures Orderly(cw, OnAppData(cw, cn, node, d, now, clock, nick))
  {
    var m := Delivered(cw, cn, d, clock);
    AppDataReacts(cw, cn, node, d, m, now, clock, nick);
    ReactionIsOld(cw, cn, node, d, m, now, clock, nick);
    match React(cw, cn, node, d, m, now, clock, nick)
    case Nothing =>
    case Stores(t) => StoreKeepsOrder(cw, cn, node, t);
    case Answers(dest, response) => TransmitKeepsOrder(cw, cn, node, dest, response);
  }

  lemma PruneKeepsOrder(cw: ChatWorld, cn: ChatNet, e: ChatEvent)
    requires Possible(cw, cn, e) && Orderly(cw, cn) && (e.PruneStore? || e.PruneOld?)
    ensures Orderly(cw, Next(cw, cn, e))
    ensures forall x | x in Next(cw, cn, e).stores[e.node].rows :: x in cn.stores[e.node].rows
    ensures Next(cw, cn, e) == StoreSet(cn, e.node, Next(cw, cn, e).stores[e.node])
  {
    var after := Next(cw, cn, e);
    assert cn.stores[e.node := cn.stores[e.node]] == cn.stores;
    if e.PruneStore? && e.keep >= 1 {
      forall x | x in after.stores[e.node].rows ensures x in cn.stores[e.node].rows {
        PruneSubset(cn.stores[e.node], e.listed, e.keep, x);
      }
    }
    assert GoodRows(cw, e.node, cn.stores[e.node].rows);
    if after.stores[e.node].rows != [] {
      assert after.stores[e.node].rows[0] in after.stores[e.node].rows;
    }
    StoreKeepsOrder(cw, cn, e.node, after.stores[e.node]);
  }

  lemma SayKeepsOrder(cw: ChatWorld, cn: ChatNet, e: ChatEvent)
    requires Possible(cw, cn, e) && Orderly(cw, cn) && e.Say?
    ensures Orderly(cw, Next(cw, cn, e))
  {
    if Says(cw, e) {
      var m, t := MessageOf(e), cn.stores[e.node];
      TransmitKeepsOrder(cw, cn, e.node, e.dest, m);
      var sent := cn.(net := Transmit(cw, cn.net, e.node, e.dest, m));
      StoreKeepsOrder(cw, sent, e.node, Add(t, NextKey(cn, e.node), ContentOf(m), e.now));
    }
  }

  lemma HearKeepsOrder(cw: ChatWorld, cn: ChatNet, e: ChatEvent)
    requires Possible(cw, cn, e) && Orderly(cw, cn) && e.Hear? && Lossless(cw.w.zlib) && Faithful(cw.json)
    ensures Orderly(cw, Next(cw, cn, e))
  {
    var r := Receive(e.node, e.frame, e.now);
    MeshKeepsOrder(cw, cn, r);
    var d := EffectOf(cw.w, cn.net, r).delivered;
    if d.Some? {
      DeliveryIsBacked(cw.w, cn.net, r, d.value);
      AppDataKeepsOrder(cw, cn.(net := Step(cw.w, cn.net, r)), e.node, d.value, e.now, e.clock, e.nick);
    }
  }

  lemma OrderlyStays(cw: ChatWorld, cn: ChatNet, e: ChatEvent)
    requires Possible(cw, cn, e) && Orderly(cw, cn) && Lossless(cw.w.zlib) && Faithful(cw.json)
    ensures Orderly(cw, Next(cw, cn, e))
  {
    match e
    case Hear(_, _, _, _, _) => HearKeepsOrder(cw, cn, e);
    case Say(_, _, _, _, _, _, _) => SayKeepsOrder(cw, cn, e);
    case Ask(n, dest, channel, nick, request, clock) =>
      TransmitKeepsOrder(cw, cn, n, dest,
                         ChatMessage(TYPE_SYNC_REQUEST, channel, nick, cw.json.showRequest(request), clock));
    case Announce(n) => MeshKeepsOrder(cw, cn, SendOgm(n));
    case Tidy(n, now) => MeshKeepsOrder(cw, cn, Cleanup(n, now));
    case PruneStore(_, _, _) => PruneKeepsOrder(cw, cn, e);
    case PruneOld(_, _) => PruneKeepsOrder(cw, cn, e);
    case Reboot(n) => MeshKeepsOrder(cw, cn, Restart(n));
  }

  lemma OrderlyAt(cw: ChatWorld, h: History, i: nat)
    requires IsHistory(cw, h) && i < |h.events| && Orderly(cw, h.states[i]) && Lossless(cw.w.zlib) && Faithful(cw.json)
    ensures Orderly(cw, h.states[i + 1])
  {
    assert NextAt(cw, h.states, h.events, i);
    OrderlyStays(cw, h.states[i], h.events[i]);
  }

  lemma {:induction false} OrderlyReachable(cw: ChatWorld, h: History, i: nat)
    requires IsHistory(cw, h) && i < |h.states| && Lossless(cw.w.zlib) && Faithful(cw.json)
    ensures Orderly(cw, h.states[i])
  {
    if i > 0 {
      OrderlyReachable(cw, h, i - 1);
      OrderlyAt(cw, h, i - 1);
    }
  }

  // ------------------------------------- versions appear only by speaking

  lemma CarriedTold(cw: ChatWorld, cn: ChatNet, d: Delivery, m: ChatMessage, k: Key, c: Content)
    requires Sent(d.origin, d.dest, d.seqno, d.payload) in cn.net.sends && d.dest in cw.full && d.dest in cw.w.cfg
    requires Encodable(m) && Encode(m).value == d.payload && Tells(cw.json, m, Key(d.origin, d.seqno), k, c)
    ensures Version(cw, cn, k, c)
  {
    assert Carried(cw, cn, Sent(d.origin, d.dest, d.seqno, d.payload), k, c);
  }

  lemma HeldIsVersion(cw: ChatWorld, cn: ChatNet, p: NodeId, x: Row)
    requires p in cn.stores && x in cn.stores[p].rows
    ensures Version(cw, cn, x.key, x.content)
  {
    assert Held(cn, p, x.key, x.content);
  }

  /** A step that changes neither stores nor sends changes no version. */
  lemma SameVersions(cw: ChatWorld, a: ChatNet, b: ChatNet, k: Key, c: Content)
    requires a.stores == b.stores && a.net.sends == b.net.sends && Version(cw, b, k, c)
    ensures Version(cw, a, k, c)
  {
    if p :| Held(b, p, k, c) {
      assert Held(a, p, k, c);
    } else {
      var r :| Carried(cw, b, r, k, c);
      assert Carried(cw, a, r, k, c);
    }
  }

  lemma StoreVersions(cw: ChatWorld, cn: ChatNet, d: NodeId, t: Table, k: Key, c: Content)
    requires d in cn.stores && Version(cw, StoreSet(cn, d, t), k, c)
    ensures Version(cw, cn, k, c) || exists x :: x in t.rows && x.key == k && x.content == c
  {
    var after := StoreSet(cn, d, t);
    if p :| Held(after, p, k, c) {
      if p != d {
        assert Held(cn, p, k, c);
      }
    } else {
      var r :| Carried(cw, after, r, k, c);
      assert Carried(cw, cn, r, k, c);
    }
  }

  lemma TransmitVersions(cw: ChatWorld, cn: ChatNet, node: NodeId, dest: NodeId, m: ChatMessage, k: Key, c: Content)
    requires Sound(cw, cn) && node in cw.w.cfg && Version(cw, cn.(net := Transmit(cw, cn.net, node, dest, m)), k, c)
    ensures Version(cw, cn, k, c) || Tells(cw.json, m, NextKey(cn, node), k, c)
  {
    var after := cn.(net := Transmit(cw, cn.net, node, dest, m));
    if p :| Held(after, p, k, c) {
      assert Held(cn, p, k, c);
    } else {
      var r :| Carried(cw, after, r, k, c);
      if r in cn.net.sends {
        assert Carried(cw, cn, r, k, c);
      } else {
        var m' :| Encodable(m') && Encode(m').value == r.payload && Tells(cw.json, m', Key(r.origin, r.seqno), k, c);
        SameMessage(m, m');
      }
    }
  }

  lemma AppDataVersions(cw: ChatWorld, cn: ChatNet, node: NodeId, d: Delivery, now: real, clock: int, nick: Bytes,
                        k: Key, c: Content)
    requires Sound(cw, cn) && Orderly(cw, cn) && node in cw.w.cfg && d.dest == node && Faithful(cw.json)
    requires Sent(d.origin, d.dest, d.seqno, d.payload) in cn.net.sends
    requires Version(cw, OnAppData(cw, cn, node, d, now, clock, nick), k, c)
    ensures Version(cw, cn, k, c)
  {
    var m := Delivered(cw, cn, d, clock);
    AppDataReacts(cw, cn, node, d, m, now, clock, nick);
    ReactionIsOld(cw, cn, node, d, m, now, clock, nick);
    match React(cw, cn, node, d, m, now, clock, nick)
    case Nothing =>
    case Stores(t) =>
      StoreVersions(cw, cn, node, t, k, c);
      if x :| x in t.rows && x.key == k && x.content == c {
        if x in cn.stores[node].rows {
          HeldIsVersion(cw, cn, node, x);
        } else {
          CarriedTold(cw, cn, d, m, k, c);
        }
      }
    case Answers(dest, response) => TransmitVersions(cw, cn, node, dest, response, k, c);
  }

  lemma HearVersions(cw: ChatWorld, cn: ChatNet, e: ChatEvent, k: Key, c: Content)
    requires Possible(cw, cn, e) && Orderly(cw, cn) && e.Hear? && Lossless(cw.w.zlib) && Faithful(cw.json)
    requires Version(cw, Next(cw, cn, e), k, c)
    ensures Version(cw, cn, k, c)
  {
    var r := Receive(e.node, e.frame, e.now);
    var heard := cn.(net := Step(cw.w, cn.net, r));
    var d := EffectOf(cw.w, cn.net, r).delivered;
    if d.Some? {
      MeshKeepsOrder(cw, cn, r);
      DeliveryIsBacked(cw.w, cn.net, r, d.value);
      AppDataVersions(cw, heard, e.node, d.value, e.now, e.clock, e.nick, k, c);
    }
    SameVersions(cw, cn, heard, k, c);
  }

  /** Without a chat send, no step makes a version that was not there. */
  lemma NoNewVersion(cw: ChatWorld, cn: ChatNet, e: ChatEvent, k: Key, c: Content)
    requires Possible(cw, cn, e) && Orderly(cw, cn) && !e.Say? && Lossless(cw.w.zlib) && Faithful(cw.json)
    requires Version(cw, Next(cw, cn, e), k, c)
    ensures Version(cw, cn, k, c)
  {
    match e
    case Hear(_, _, _, _, _) => HearVersions(cw, cn, e, k, c);
    case Ask(n, dest, channel, nick, request, clock) =>
      if n in cw.full {
        TransmitVersions(cw, cn, n, dest,
                         ChatMessage(TYPE_SYNC_REQUEST, channel, nick, cw.json.showRequest(request), clock), k, c);
      }
    case PruneStore(_, _, _) => PruneVersions(cw, cn, e, k, c);
    case PruneOld(_, _) => PruneVersions(cw, cn, e, k, c);
    case Announce(_) => SameVersions(cw, cn, Next(cw, cn, e), k, c);
    case Tidy(_, _) => SameVersions(cw, cn, Next(cw, cn, e), k, c);
    case Reboot(_) => SameVersions(cw, cn, Next(cw, cn, e), k, c);
  }

  lemma PruneVersions(cw: ChatWorld, cn: ChatNet, e: ChatEvent, k: Key, c: Content)
    requires Possible(cw, cn, e) && Orderly(cw, cn) && (e.PruneStore? || e.PruneOld?)
    requires Version(cw, Next(cw, cn, e), k, c)
    ensures Version(cw, cn, k, c)
  {
    PruneKeepsOrder(cw, cn, e);
    StoreVersions(cw, cn, e.node, Next(cw, cn, e).stores[e.node], k, c);
    if x :| x in Next(cw, cn, e).stores[e.node].rows && x.key == k && x.content == c {
      HeldIsVersion(cw, cn, e.node, x);
    }
  }

  lemma UnanimousAt(cw: ChatWorld, h: History, i: nat)
    requires IsHistory(cw, h) && i < |h.events| && !h.events[i].Say? && Unanimous(cw, h.states[i])
    requires Lossless(cw.w.zlib) && Faithful(cw.json)
    ensures Unanimous(cw, h.states[i + 1])
  {
    assert NextAt(cw, h.states, h.events, i);
    OrderlyReachable(cw, h, i);
    var after := h.states[i + 1];
    forall k, c, c' | Version(cw, after, k, c) && Version(cw, after, k, c') ensures c == c' {
      NoNewVersion(cw, h.states[i], h.events[i], k, c);
      NoNewVersion(cw, h.states[i], h.events[i], k, c');
    }
  }

  lemma {:induction false} UnanimousLasts(cw: ChatWorld, h: History, i: nat, k: nat)
    requires IsHistory(cw, h) && i <= k < |h.states| && Unanimous(cw, h.states[i])
    requires forall j | i <= j < k :: !h.events[j].Say?
    requires Lossless(cw.w.zlib) && Faithful(cw.json)
    ensures Unanimous(cw, h.states[k])
    decreases k
  {
    if i < k {
      UnanimousLasts(cw, h, i, k - 1);
      UnanimousAt(cw, h, k - 1);
    }
  }

  lemma UnanimousAgree(cw: ChatWorld, cn: ChatNet)
    requires Unanimous(cw, cn)
    ensures !Disagree(cn)
  {
    forall a, b | a in cn.stores && b in cn.stores ensures Agree(cn.stores[a], cn.stores[b]) {
      forall x, y | x in cn.stores[a].rows && y in cn.stores[b].rows && x.key == y.key ensures x.content == y.content {
        HeldIsVersion(cw, cn, a, x);
        HeldIsVersion(cw, cn, b, y);
      }
    }
  }

  // ------------------------------------------------------- the condition

  /** The frame and message behind a carried version. */
  lemma CarriedBy(cw: ChatWorld, cn: ChatNet, k: Key, c: Content) returns (r: Sent, m: ChatMessage)
    requires Orderly(cw, cn) && exists r :: Carried(cw, cn, r, k, c)
    ensures r.origin in cw.w.cfg && IsClient(cw, r.dest)
    ensures Encodable(m) && Tells(cw.json, m, Key(r.origin, r.seqno), k, c)
    ensures ChatFrame(cw, r.origin, r.dest, r.seqno, m) in cn.net.medium
  {
    r :| Carried(cw, cn, r, k, c);
    m :| Encodable(m) && Encode(m).value == r.payload && Tells(cw.json, m, Key(r.origin, r.seqno), k, c);
    assert GoodSend(cw, cn.net, r);
    var m' :| Encodable(m') && Encode(m').value == r.payload
              && ChatFrame(cw, r.origin, r.dest, r.seqno, m') in cn.net.medium;
    SameMessage(m, m');
  }

  lemma HolderIsFull(cw: ChatWorld, cn: ChatNet, p: NodeId, k: Key, c: Content) returns (row: Row)
    requires Sound(cw, cn) && Orderly(cw, cn) && Held(cn, p, k, c)
    ensures IsClient(cw, p)
    ensures row in cn.stores[p].rows && row.key == k && row.content == c && |row.content.channel| <= 255
  {
    assert GoodRows(cw, p, cn.stores[p].rows);
    row :| row in cn.stores[p].rows && row.key == k && row.content == c;
  }

  lemma HeldMeetsCarried(cw: ChatWorld, h: History, p: NodeId, k: Key, c: Content, c': Content, x: NodeId)
    returns (h': History)
    requires IsHistory(cw, h) && Sound(cw, Last(h)) && Orderly(cw, Last(h)) && Lossless(cw.w.zlib) && Faithful(cw.json)
    requires Held(Last(h), p, k, c) && (exists r :: Carried(cw, Last(h), r, k, c')) && c != c'
    requires IsClient(cw, x) && x != p
    ensures Continues(cw, h, h') && Disagree(Last(h'))
  {
    var row := HolderIsFull(cw, Last(h), p, k, c);
    var r, m := CarriedBy(cw, Last(h), k, c');
    h' := HeldMeetsSent(cw, h, p, row, r.origin, r.dest, r.seqno, m, c', x);
  }

  /** A version held by p and another one, held or carried. */
  lemma HeldMeets(cw: ChatWorld, h: History, p: NodeId, k: Key, c: Content, c': Content, x: NodeId)
    returns (h': History)
    requires IsHistory(cw, h) && Sound(cw, Last(h)) && Orderly(cw, Last(h)) && Lossless(cw.w.zlib) && Faithful(cw.json)
    requires Held(Last(h), p, k, c) && Version(cw, Last(h), k, c') && c != c'
    requires IsClient(cw, x) && x != p
    ensures Continues(cw, h, h') && Disagree(Last(h'))
  {
    if q :| Held(Last(h), q, k, c') {
      h' := h;
      HeldTwice(Last(h), p, q, k, c, c');
    } else {
      h' := HeldMeetsCarried(cw, h, p, k, c, c', x);
    }
  }

  /** Both versions carried: one addressee hears the first, and then holds it. */
  lemma CarriedMeets(cw: ChatWorld, h: History, k: Key, c: Content, c': Content, a: NodeId, b: NodeId)
    returns (h': History)
    requires IsHistory(cw, h) && Sound(cw, Last(h)) && Orderly(cw, Last(h)) && Lossless(cw.w.zlib) && Faithful(cw.json)
    requires (exists r :: Carried(cw, Last(h), r, k, c)) && (exists r :: Carried(cw, Last(h), r, k, c')) && c != c'
    requires IsClient(cw, a) && IsClient(cw, b) && a != b
    ensures Continues(cw, h, h') && Disagree(Last(h'))
  {
    var r, m := CarriedBy(cw, Last(h), k, c);
    var r', m' := CarriedBy(cw, Last(h), k, c');
    var h1 := Learns(cw, h, r.origin, r.dest, r.seqno, m, k, c);
    OrderlyReachable(cw, h1, |h1.events|);
    var row := HolderIsFull(cw, Last(h1), r.dest, k, c);
    h' := HeldMeetsSent(cw, h1, r.dest, row, r'.origin, r'.dest, r'.seqno, m', c', if a != r.dest then a else b);
    ContinuesOn(cw, h, h1, h');
  }

  lemma VersionsMeet(cw: ChatWorld, h: History, k: Key, c: Content, c': Content, a: NodeId, b: NodeId)
    returns (h': History)
    requires IsHistory(cw, h) && Sound(cw, Last(h)) && Orderly(cw, Last(h)) && Lossless(cw.w.zlib) && Faithful(cw.json)
    requires Version(cw, Last(h), k, c) && Version(cw, Last(h), k, c') && c != c'
    requires IsClient(cw, a) && IsClient(cw, b) && a != b
    ensures Continues(cw, h, h') && Disagree(Last(h'))
  {
    if p :| Held(Last(h), p, k, c) {
      h' := HeldMeets(cw, h, p, k, c, c', if a != p then a else b);
    } else if q :| Held(Last(h), q, k, c') {
      h' := HeldMeets(cw, h, q, k, c', c, if a != q then a else b);
    } else {
      h' := CarriedMeets(cw, h, k, c, c', a, b);
    }
  }

  /** Exactly when a state can lead to disagreement, in a network with at least two full nodes and whomever the chat
      sends were addressed to: some continuation without further chat sends makes two stores disagree iff some key
      has two versions, each held by a store or carried by a payload sent to a full node. */
  lemma CanDisagreeExactlyWhen(cw: ChatWorld, h: History, a: NodeId, b: NodeId)
    requires IsHistory(cw, h) && Lossless(cw.w.zlib) && Faithful(cw.json)
    requires IsClient(cw, a) && IsClient(cw, b) && a != b
    ensures CanDisagree(cw, h) <==> !Unanimous(cw, Last(h))
  {
    if Unanimous(cw, Last(h)) {
      forall h' | Continues(cw, h, h') ensures !Disagree(Last(h')) {
        assert h'.states[|h.events|] == Last(h);
        UnanimousLasts(cw, h', |h.events|, |h'.events|);
        UnanimousAgree(cw, Last(h'));
      }
    } else {
      var k, c, c' :| Version(cw, Last(h), k, c) && Version(cw, Last(h), k, c') && c != c';
      assert h.events != [];
      SoundAtEnd(cw, h);
      OrderlyReachable(cw, h, |h.events|);
      var h' := VersionsMeet(cw, h, k, c, c', a, b);
    }
  }
}
