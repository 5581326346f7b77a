/** Exactly when chat stores can come to disagree. A restart lets a node reuse a number for another message; from
    then on the medium holds both frames, and some run delivers each to a different store. */
module ChatConflict {
  import opened Basics
  import opened Bytes
  import opened MeshFrame
  import opened MeshNode
  import opened MeshNetwork
  import opened MeshDelivery
  import opened ChatProtocol
  import opened ChatStore
  import opened ChatSync
  import opened ChatNetwork

  // ------------------------------------------------------ extending runs

  datatype History = History(states: seq<ChatNet>, events: seq<ChatEvent>)

  ghost predicate IsHistory(cw: ChatWorld, h: History) { IsChatRun(cw, h.states, h.events) }

  function Last(h: History): (cn: ChatNet)
    requires |h.states| == |h.events| + 1
  {
    h.states[|h.events|]
  }

  /** h' is a run that goes on from h without any further chat send. */
  ghost predicate Continues(cw: ChatWorld, h: History, h': History) {
    && IsHistory(cw, h) && IsHistory(cw, h')
    && h.events <= h'.events && h.states <= h'.states
    && forall i | |h.events| <= i < |h'.events| :: !h'.events[i].Say?
  }

  lemma ContinuesOn(cw: ChatWorld, h: History, h1: History, h2: History)
    requires Continues(cw, h, h1) && Continues(cw, h1, h2)
    ensures Continues(cw, h, h2)
  {
  }

  lemma StepHolds(cw: ChatWorld, cn: ChatNet, e: ChatEvent, next: ChatNet,
                  states: seq<ChatNet>, events: seq<ChatEvent>, i: nat)
    requires Possible(cw, cn, e) && next == Next(cw, cn, e)
    requires i < |events| < |states| && states[i] == cn && states[i + 1] == next && events[i] == e
    ensures NextAt(cw, states, events, i)
  {
  }

  /** A run whose last step is known to be one. */
  lemma RunByLast(cw: ChatWorld, states: seq<ChatNet>, events: seq<ChatEvent>, states': seq<ChatNet>,
                  events': seq<ChatEvent>)
    requires IsChatRun(cw, states, events) && |events'| == |events| + 1 && |states'| == |states| + 1
    requires states <= states' && events <= events' && NextAt(cw, states', events', |events|)
    ensures IsChatRun(cw, states', events')
  {
    forall i | 0 <= i < |events'| ensures NextAt(cw, states', events', i) {
      if i < |events| {
        assert NextAt(cw, states, events, i);
        StepHolds(cw, states[i], events[i], states[i + 1], states', events', i);
      }
    }
  }

  lemma AppendStep(cw: ChatWorld, states: seq<ChatNet>, events: seq<ChatEvent>, e: ChatEvent, next: ChatNet)
    requires IsChatRun(cw, states, events) && Possible(cw, states[|events|], e) && next == Next(cw, states[|events|], e)
    ensures IsChatRun(cw, states + [next], events + [e])
  {
    StepHolds(cw, states[|events|], e, next, states + [next], events + [e], |events|);
    RunByLast(cw, states, events, states + [next], events + [e]);
  }

  lemma OneMore(cw: ChatWorld, h: History, e: ChatEvent) returns (h': History)
    requires IsHistory(cw, h) && Possible(cw, Last(h), e)
    ensures IsHistory(cw, h') && Last(h') == Next(cw, Last(h), e) && Sound(cw, Last(h'))
    ensures h'.events == h.events + [e] && h.states <= h'.states
    ensures !e.Say? ==> Continues(cw, h, h')
  {
    var next := Next(cw, Last(h), e);
    h' := History(h.states + [next], h.events + [e]);
    SoundStays(cw, Last(h), e);
    AppendStep(cw, h.states, h.events, e, next);
  }

  lemma AppDataMedium(cw: ChatWorld, cn: ChatNet, node: NodeId, d: Delivery, now: real, clock: int, nick: Bytes)
    requires Sound(cw, cn) && node in cw.w.cfg
    ensures cn.net.medium <= OnAppData(cw, cn, node, d, now, clock, nick).net.medium
  {
  }

  lemma MediumGrows(cw: ChatWorld, cn: ChatNet, e: ChatEvent)
    requires Possible(cw, cn, e)
    ensures cn.net.medium <= Next(cw, cn, e).net.medium
  {
    if e.Hear? {
      var r := Receive(e.node, e.frame, e.now);
      var d := EffectOf(cw.w, cn.net, r).delivered;
      if d.Some? {
        AppDataMedium(cw, cn.(net := Step(cw.w, cn.net, r)), e.node, d.value, e.now, e.clock, e.nick);
      }
    }
  }

  // ------------------------------------------------------ clearing a node

  lemma {:induction false} AllBefore(rows: seq<Row>) returns (cutoff: int)
    ensures forall x | x in rows :: x.content.createdTs < cutoff
  {
    if rows == [] {
      cutoff := 0;
    } else {
      cutoff := AllBefore(rows[1..]);
      cutoff := MaxInt(cutoff, rows[0].content.createdTs + 1);
    }
  }

  /** Only the store and mesh node of d differ, if any, and nothing left the medium. */
  ghost predicate OnlyAt(before: ChatNet, after: ChatNet, d: NodeId) {
    && before.net.medium <= after.net.medium
    && before.net.nodes.Keys == after.net.nodes.Keys && before.stores.Keys == after.stores.Keys
    && (forall n | n in before.net.nodes && n != d :: after.net.nodes[n] == before.net.nodes[n])
    && (forall n | n in before.stores && n != d :: after.stores[n] == before.stores[n])
  }

  /** A node that has just started with an empty store. */
  ghost predicate Clear(cn: ChatNet, d: NodeId) {
    && d in cn.stores && cn.stores[d].rows == []
    && d in cn.net.nodes && cn.net.nodes[d].dataSeen == map[]
  }

  lemma Restarted(cw: ChatWorld, h: History, d: NodeId) returns (h': History)
    requires IsHistory(cw, h) && Sound(cw, Last(h)) && d in cw.w.cfg
    ensures Continues(cw, h, h') && Sound(cw, Last(h')) && OnlyAt(Last(h), Last(h'), d)
    ensures Last(h').stores == Last(h).stores && Last(h').net.nodes[d] == FRESH_NODE
    ensures h'.events == h.events + [Reboot(d)]
  {
    h' := OneMore(cw, h, Reboot(d));
  }

  /** Age pruning empties a store. */
  lemma Emptied(cw: ChatWorld, h: History, d: NodeId) returns (h': History)
    requires IsHistory(cw, h) && Sound(cw, Last(h)) && d in cw.w.cfg
    ensures Continues(cw, h, h') && Sound(cw, Last(h')) && OnlyAt(Last(h), Last(h'), d)
    ensures Last(h').stores[d].rows == [] && Last(h').net == Last(h).net
  {
    var cutoff := AllBefore(Last(h).stores[d].rows);
    NothingRecent(Last(h).stores[d].rows, cutoff);
    h' := OneMore(cw, h, PruneOld(d, cutoff));
  }

  /** A restart and age pruning clear a node, whatever it held. */
  lemma Cleared(cw: ChatWorld, h: History, d: NodeId) returns (h': History)
    requires IsHistory(cw, h) && Sound(cw, Last(h)) && d in cw.w.cfg
    ensures Continues(cw, h, h') && Sound(cw, Last(h')) && OnlyAt(Last(h), Last(h'), d) && Clear(Last(h'), d)
  {
    var h1 := Restarted(cw, h, d);
    h' := Emptied(cw, h1, d);
    ContinuesOn(cw, h, h1, h');
    OnlyAtTwice(Last(h), Last(h1), Last(h'), d);
  }

  lemma {:induction false} NothingRecent(rows: seq<Row>, cutoff: int)
    requires forall x | x in rows :: x.content.createdTs < cutoff
    ensures Recent(rows, cutoff) == []
  {
    if rows != [] {
      assert rows[0] in rows;
      NothingRecent(rows[1..], cutoff);
    }
  }

  // ------------------------------------------------------- hearing frames

  /** The frame of a chat payload sent by `from` to `dest` under number s. */
  function ChatFrame(cw: ChatWorld, from: NodeId, dest: NodeId, s: u32, m: ChatMessage): (f: Bytes)
    requires from in cw.w.cfg && Encodable(m)
  {
    var payload := Encode(m).value;
    DataFrame(PackFlags(cw.w.zlib, payload), cw.w.cfg[from].ogmTtl, from, s, DataBody(cw.w.zlib, dest, s, payload))
  }

  /** A frame is delivered unchanged by an addressee that has not seen its number. */
  lemma FreshFrameDelivered(cw: ChatWorld, net: Net, from: NodeId, dest: NodeId, s: u32, m: ChatMessage, now: real)
    requires from in cw.w.cfg && Encodable(m) && Lossless(cw.w.zlib)
    requires Enabled(cw.w, net, Receive(dest, ChatFrame(cw, from, dest, s, m), now))
    requires PacketKey(from, s) !in net.nodes[dest].dataSeen
    ensures var r := EffectOf(cw.w, net, Receive(dest, ChatFrame(cw, from, dest, s, m), now));
            r.delivered == Some(Delivery(from, dest, s, Encode(m).value)) && r.sent == None
  {
    var z, payload := cw.w.zlib, Encode(m).value;
    DataFrameRoundTrip(PackFlags(z, payload), cw.w.cfg[from].ogmTtl, from, s, DataBody(z, dest, s, payload));
    UnpackInvertsPack(z, dest, s, payload);
  }

  /** The network once the mesh layer of d has handled the frame. */
  ghost function Heard(cw: ChatWorld, cn: ChatNet, d: NodeId, frame: Bytes): (heard: ChatNet)
    requires Sound(cw, cn) && d in cw.w.cfg && frame in cn.net.medium
    ensures OnlyAt(cn, heard, d) && Sound(cw, heard) && heard.stores == cn.stores
  {
    cn.(net := Step(cw.w, cn.net, Receive(d, frame, 0.0)))
  }

  /** Hearing it hands the decoded message to the chat client. */
  lemma HearsFrame(cw: ChatWorld, h: History, from: NodeId, d: NodeId, s: u32, m: ChatMessage) returns (h': History)
    requires IsHistory(cw, h) && Sound(cw, Last(h)) && from in cw.w.cfg && d in cw.w.cfg && Encodable(m)
    requires Lossless(cw.w.zlib)
    requires ChatFrame(cw, from, d, s, m) in Last(h).net.medium && PacketKey(from, s) !in Last(h).net.nodes[d].dataSeen
    ensures Continues(cw, h, h') && Sound(cw, Last(h'))
    ensures h'.events == h.events + [Hear(d, ChatFrame(cw, from, d, s, m), 0.0, 0, [])]
    ensures Last(h') == OnAppData(cw, Heard(cw, Last(h), d, ChatFrame(cw, from, d, s, m)), d,
                                  Delivery(from, d, s, Encode(m).value), 0.0, 0, [])
    ensures Decode(Encode(m).value, 0) == Some(m)
  {
    FreshFrameDelivered(cw, Last(h).net, from, d, s, m, 0.0);
    DecodeEncode(m, 0);
    h' := OneMore(cw, h, Hear(d, ChatFrame(cw, from, d, s, m), 0.0, 0, []));
  }

  lemma AddedIsHeld(t: Table, k: Key, c: Content, now: real)
    requires TableOk(t) && !HasKey(t.rows, k)
    ensures var t' := Add(t, k, c, now);
            t'.rows == t.rows + [Row(t.nextId, k, c, now)] && t'.rows[|t.rows|] in t'.rows
  {
  }

  /** The only row of d is this one. */
  ghost predicate HoldsJust(cn: ChatNet, d: NodeId, k: Key, c: Content) {
    && d in cn.stores && |cn.stores[d].rows| == 1
    && cn.stores[d].rows[0].key == k && cn.stores[d].rows[0].content == c
  }

  function StoreSet(cn: ChatNet, d: NodeId, t: Table): (r: ChatNet)
    requires d in cn.stores
    ensures OnlyAt(cn, r, d)
  {
    cn.(stores := cn.stores[d := t])
  }

  lemma MessageAdded(cw: ChatWorld, cn: ChatNet, from: NodeId, d: NodeId, s: u32, m: ChatMessage)
    requires Sound(cw, cn) && d in cw.w.cfg && d in cw.full
    requires m.msgType == TYPE_MESSAGE && Encodable(m) && Decode(Encode(m).value, 0) == Some(m)
    ensures OnAppData(cw, cn, d, Delivery(from, d, s, Encode(m).value), 0.0, 0, [])
         == StoreSet(cn, d, Add(cn.stores[d], Key(from, s), ContentOf(m), 0.0))
  {
  }

  /** A cleared full node stores the chat message of a frame addressed to it. */
  lemma StoresFrame(cw: ChatWorld, h: History, from: NodeId, d: NodeId, s: u32, m: ChatMessage) returns (h': History)
    requires IsHistory(cw, h) && Sound(cw, Last(h)) && from in cw.w.cfg && d in cw.w.cfg && d in cw.full
    requires Encodable(m) && m.msgType == TYPE_MESSAGE && Lossless(cw.w.zlib)
    requires ChatFrame(cw, from, d, s, m) in Last(h).net.medium && Clear(Last(h), d)
    ensures Continues(cw, h, h') && Sound(cw, Last(h')) && OnlyAt(Last(h), Last(h'), d)
    ensures h'.events == h.events + [Hear(d, ChatFrame(cw, from, d, s, m), 0.0, 0, [])]
    ensures HoldsJust(Last(h'), d, Key(from, s), ContentOf(m))
  {
    h' := HearsFrame(cw, h, from, d, s, m);
    var heard := Heard(cw, Last(h), d, ChatFrame(cw, from, d, s, m));
    MessageAdded(cw, heard, from, d, s, m);
    AddedIsHeld(heard.stores[d], Key(from, s), ContentOf(m), 0.0);
  }

  lemma OnlyAtTwice(a: ChatNet, b: ChatNet, c: ChatNet, d: NodeId)
    requires OnlyAt(a, b, d) && OnlyAt(b, c, d)
    ensures OnlyAt(a, c, d)
  {
  }

  /** Whatever it held, a full node can come to hold just the message of a frame addressed to it. */
  lemma Convinced(cw: ChatWorld, h: History, from: NodeId, d: NodeId, s: u32, m: ChatMessage) returns (h': History)
    requires IsHistory(cw, h) && Sound(cw, Last(h)) && from in cw.w.cfg && d in cw.w.cfg && d in cw.full
    requires Encodable(m) && m.msgType == TYPE_MESSAGE && Lossless(cw.w.zlib)
    requires ChatFrame(cw, from, d, s, m) in Last(h).net.medium
    ensures Continues(cw, h, h') && Sound(cw, Last(h')) && OnlyAt(Last(h), Last(h'), d)
    ensures HoldsJust(Last(h'), d, Key(from, s), ContentOf(m))
  {
    var h1 := Cleared(cw, h, d);
    h' := StoresFrame(cw, h1, from, d, s, m);
    ContinuesOn(cw, h, h1, h');
    OnlyAtTwice(Last(h), Last(h1), Last(h'), d);
  }

  // ----------------------------------------- passing a message on by sync

  lemma TransmitsFrame(cw: ChatWorld, net: Net, node: NodeId, dest: NodeId, m: ChatMessage)
    requires net.nodes.Keys == cw.w.cfg.Keys && node in cw.w.cfg && Encodable(m)
    ensures var net' := Transmit(cw, net, node, dest, m);
            && ChatFrame(cw, node, dest, NextSeqno(Counter(net, node)), m) in net'.medium
            && net.medium <= net'.medium && net'.nodes.Keys == net.nodes.Keys
            && net'.nodes[node].dataSeen == net.nodes[node].dataSeen
            && (forall n | n in net.nodes && n != node :: net'.nodes[n] == net.nodes[n])
  {
  }

  function RequestFor(cw: ChatWorld, c: Bytes, k: Key): (m: ChatMessage) {
    ChatMessage(TYPE_SYNC_REQUEST, c, [], cw.json.showRequest(SeqRange(k.origin, k.seqno, k.seqno)), 0)
  }

  function ResponseWith(cw: ChatWorld, row: Row): (m: ChatMessage) {
    ChatMessage(TYPE_SYNC_RESPONSE, row.content.channel, [], cw.json.showRecords(Records([row])), 0)
  }

  /** x asks d for one number. */
  lemma Asked(cw: ChatWorld, h: History, x: NodeId, d: NodeId, c: Bytes, k: Key) returns (h': History, s: u32)
    requires IsHistory(cw, h) && Sound(cw, Last(h)) && x in cw.w.cfg && x in cw.full && d in cw.w.cfg && |c| <= 255
    ensures Continues(cw, h, h') && Sound(cw, Last(h')) && OnlyAt(Last(h), Last(h'), x)
    ensures Last(h').stores == Last(h).stores
    ensures Last(h').net.nodes[x].dataSeen == Last(h).net.nodes[x].dataSeen
    ensures ChatFrame(cw, x, d, s, RequestFor(cw, c, k)) in Last(h').net.medium
  {
    s := NextSeqno(Counter(Last(h).net, x));
    TransmitsFrame(cw, Last(h).net, x, d, RequestFor(cw, c, k));
    h' := OneMore(cw, h, Ask(x, d, c, [], SeqRange(k.origin, k.seqno, k.seqno), 0));
  }

  /** A range request for one number is answered with its row, whatever else the responder holds. */
  lemma AnswersItsRow(t: Table, row: Row, cfg: SyncConfig)
    requires TableOk(t) && row in t.rows
    ensures Answer(t.rows, cfg, row.content.channel, SeqRange(row.key.origin, row.key.seqno, row.key.seqno))
         == Some([row])
  {
    var c, k := row.content.channel, row.key;
    var all := OriginRange(t.rows, c, k.origin, k.seqno, k.seqno);
    FiltersStayDistinct(t.rows, c, k.origin, k.seqno, k.seqno);
    assert row in all;
    assert all[0] in all;
    OneRowPerKey(t, row, all[0]);
    if |all| >= 2 {
      assert all[1] in all;
      OneRowPerKey(t, row, all[1]);
    }
    assert all == [row];
    assert SortBy(BySeqno, [row]) == Place(BySeqno, row, SortBy(BySeqno, []));
  }

  /** What d, holding a row and asked for it, does to the network. */
  lemma AnswerSent(cw: ChatWorld, cn: ChatNet, x: NodeId, d: NodeId, s: u32, row: Row)
    requires Sound(cw, cn) && x in cw.w.cfg && d in cw.w.cfg && d in cw.full
    requires Faithful(cw.json) && |row.content.channel| <= 255 && row in cn.stores[d].rows
    ensures var m := RequestFor(cw, row.content.channel, row.key);
            Decode(Encode(m).value, 0) == Some(m)
            && OnAppData(cw, cn, d, Delivery(x, d, s, Encode(m).value), 0.0, 0, [])
            == cn.(net := Transmit(cw, cn.net, d, x, ResponseWith(cw, row)))
  {
    DecodeEncode(RequestFor(cw, row.content.channel, row.key), 0);
    AnswersItsRow(cn.stores[d], row, cw.sync[d]);
  }

  /** d, holding a row and just restarted, answers the request of x with it. */
  lemma Answered(cw: ChatWorld, h: History, x: NodeId, d: NodeId, s: u32, row: Row) returns (h': History, s': u32)
    requires IsHistory(cw, h) && Sound(cw, Last(h)) && x in cw.w.cfg && d in cw.w.cfg && d in cw.full
    requires Lossless(cw.w.zlib) && Faithful(cw.json) && |row.content.channel| <= 255
    requires row in Last(h).stores[d].rows && Last(h).net.nodes[d].dataSeen == map[]
    requires ChatFrame(cw, x, d, s, RequestFor(cw, row.content.channel, row.key)) in Last(h).net.medium
    ensures Continues(cw, h, h') && Sound(cw, Last(h')) && OnlyAt(Last(h), Last(h'), d)
    ensures Last(h').stores == Last(h).stores
    ensures ChatFrame(cw, d, x, s', ResponseWith(cw, row)) in Last(h').net.medium
  {
    var m := RequestFor(cw, row.content.channel, row.key);
    h' := HearsFrame(cw, h, x, d, s, m);
    var heard := Heard(cw, Last(h), d, ChatFrame(cw, x, d, s, m));
    AnswerSent(cw, heard, x, d, s, row);
    TransmitsFrame(cw, heard.net, d, x, ResponseWith(cw, row));
    s' := NextSeqno(Counter(heard.net, d));
  }

  lemma RowApplied(t: Table, row: Row, now: real)
    requires TableOk(t) && t.rows == []
    ensures var t' := Apply(t, row.content.channel, AllGood(Records([row])), now);
            |t'.rows| == 1 && t'.rows[0].key == row.key && t'.rows[0].content == row.content
  {
    var items := AllGood(Records([row]));
    assert items[0] == Good(AsRecord(row)) && items[1..] == [];
    assert RecordKey(AsRecord(row)) == row.key && RecordContent(AsRecord(row), row.content.channel) == row.content;
    AddedIsHeld(t, row.key, row.content, now);
  }

  lemma ResponseApplied(cw: ChatWorld, cn: ChatNet, from: NodeId, x: NodeId, s: u32, row: Row)
    requires Sound(cw, cn) && x in cw.w.cfg && x in cw.full && Faithful(cw.json) && |row.content.channel| <= 255
    ensures OnAppData(cw, cn, x, Delivery(from, x, s, Encode(ResponseWith(cw, row)).value), 0.0, 0, [])
         == StoreSet(cn, x, Apply(cn.stores[x], row.content.channel, AllGood(Records([row])), 0.0))
  {
    DecodeEncode(ResponseWith(cw, row), 0);
  }

  /** The cleared node x stores the answer. */
  lemma Learned(cw: ChatWorld, h: History, x: NodeId, d: NodeId, s: u32, row: Row) returns (h': History)
    requires IsHistory(cw, h) && Sound(cw, Last(h)) && x in cw.w.cfg && x in cw.full && d in cw.w.cfg
    requires Lossless(cw.w.zlib) && Faithful(cw.json) && |row.content.channel| <= 255
    requires Clear(Last(h), x) && ChatFrame(cw, d, x, s, ResponseWith(cw, row)) in Last(h).net.medium
    ensures Continues(cw, h, h') && Sound(cw, Last(h')) && OnlyAt(Last(h), Last(h'), x)
    ensures HoldsJust(Last(h'), x, row.key, row.content)
  {
    h' := HearsFrame(cw, h, d, x, s, ResponseWith(cw, row));
    var heard := Heard(cw, Last(h), x, ChatFrame(cw, d, x, s, ResponseWith(cw, row)));
    ResponseApplied(cw, heard, d, x, s, row);
    RowApplied(heard.stores[x], row, 0.0);
  }

  /** What one full node holds, another can come to hold. */
  lemma PassedOn(cw: ChatWorld, h: History, d: NodeId, x: NodeId, row: Row) returns (h': History)
    requires IsHistory(cw, h) && Sound(cw, Last(h)) && {d, x} <= cw.full && d in cw.w.cfg && x in cw.w.cfg && d != x
    requires Lossless(cw.w.zlib) && Faithful(cw.json) && |row.content.channel| <= 255 && row in Last(h).stores[d].rows
    ensures Continues(cw, h, h') && Sound(cw, Last(h')) && Last(h).net.medium <= Last(h').net.medium
    ensures HoldsJust(Last(h'), x, row.key, row.content)
  {
    var h1 := Cleared(cw, h, x);
    var h2, s := Asked(cw, h1, x, d, row.content.channel, row.key);
    ContinuesOn(cw, h, h1, h2);
    var h3 := Restarted(cw, h2, d);
    ContinuesOn(cw, h, h2, h3);
    var h4, s' := Answered(cw, h3, x, d, s, row);
    ContinuesOn(cw, h, h3, h4);
    h' := Learned(cw, h4, x, d, s', row);
    ContinuesOn(cw, h, h4, h');
  }

  // --------------------------------------------------- what has been said

  /** Event i is a chat send by `from` to d of m, under number s. */
  ghost predicate SaidAt(cw: ChatWorld, h: History, i: nat, from: NodeId, s: u32, m: ChatMessage, d: NodeId)
    requires i < |h.events| < |h.states|
  {
    && Possible(cw, h.states[i], h.events[i]) && Says(cw, h.events[i])
    && h.events[i].node == from && h.events[i].dest == d && MessageOf(h.events[i]) == m
    && NextSeqno(Counter(h.states[i].net, from)) == s
  }

  lemma TruthAfter(cw: ChatWorld, cn: ChatNet, e: ChatEvent)
    requires Possible(cw, cn, e)
    ensures Next(cw, cn, e).truth
         == if Says(cw, e) then cn.truth[NextKey(cn, e.node) := ContentOf(MessageOf(e))] else cn.truth
  {
    if Says(cw, e) {
    } else if !e.Say? {
      TruthUnchanged(cw, cn, e);
    }
  }

  /** What the record of truth says was really said. */
  lemma {:induction false} TruthIsSaid(cw: ChatWorld, h: History, k: nat, from: NodeId, s: u32)
    returns (i: nat, m: ChatMessage, d: NodeId)
    requires IsHistory(cw, h) && k < |h.states| && Key(from, s) in h.states[k].truth
    ensures i < k && SaidAt(cw, h, i, from, s, m, d) && ContentOf(m) == h.states[k].truth[Key(from, s)]
  {
    if k == 0 {
      assert false;
    } else {
      assert NextAt(cw, h.states, h.events, k - 1);
      var before, e := h.states[k - 1], h.events[k - 1];
      TruthAfter(cw, before, e);
      if Says(cw, e) && NextKey(before, e.node) == Key(from, s) {
        i, m, d := k - 1, MessageOf(e), e.dest;
      } else {
        i, m, d := TruthIsSaid(cw, h, k - 1, from, s);
      }
    }
  }

  lemma SayIsOnAir(cw: ChatWorld, cn: ChatNet, e: ChatEvent)
    requires Possible(cw, cn, e) && Says(cw, e)
    ensures ChatFrame(cw, e.node, e.dest, NextSeqno(Counter(cn.net, e.node)), MessageOf(e))
         in Next(cw, cn, e).net.medium
  {
    TransmitsFrame(cw, cn.net, e.node, e.dest, MessageOf(e));
  }

  lemma MediumGrowsAt(cw: ChatWorld, h: History, i: nat)
    requires IsHistory(cw, h) && i < |h.events|
    ensures h.states[i].net.medium <= h.states[i + 1].net.medium
  {
    assert NextAt(cw, h.states, h.events, i);
    MediumGrows(cw, h.states[i], h.events[i]);
  }

  lemma {:induction false} MediumLasts(cw: ChatWorld, h: History, i: nat, k: nat)
    requires IsHistory(cw, h) && i <= k < |h.states|
    ensures h.states[i].net.medium <= h.states[k].net.medium
    decreases k
  {
    if i < k {
      MediumLasts(cw, h, i, k - 1);
      MediumGrowsAt(cw, h, k - 1);
    }
  }

  /** The frame of a chat send stays on the air. */
  lemma SaidStaysOnAir(cw: ChatWorld, h: History, i: nat, k: nat, from: NodeId, s: u32, m: ChatMessage, d: NodeId)
    requires IsHistory(cw, h) && i < k < |h.states| && SaidAt(cw, h, i, from, s, m, d)
    ensures from in cw.w.cfg && Encodable(m) && ChatFrame(cw, from, d, s, m) in h.states[k].net.medium
  {
    assert NextAt(cw, h.states, h.events, i);
    SayIsOnAir(cw, h.states[i], h.events[i]);
    MediumLasts(cw, h, i + 1, k);
  }

  // ------------------------------------------------- when stores disagree

  ghost predicate Disagree(cn: ChatNet) {
    exists a, b :: a in cn.stores && b in cn.stores && !Agree(cn.stores[a], cn.stores[b])
  }

  lemma TwoVersions(cn: ChatNet, a: NodeId, b: NodeId, x: Row, y: Row)
    requires a in cn.stores && b in cn.stores && x in cn.stores[a].rows && y in cn.stores[b].rows
    requires x.key == y.key && x.content != y.content
    ensures Disagree(cn)
  {
    RowsDisagree(cn.stores[a], cn.stores[b], x, y);
  }

  /** With one addressee, what it heard first is passed on to x before it hears the second. */
  lemma SameAddressee(cw: ChatWorld, h: History, from: NodeId, s: u32, m: ChatMessage, d: NodeId, x: NodeId)
    returns (h': History)
    requires IsHistory(cw, h) && Sound(cw, Last(h)) && from in cw.w.cfg && Lossless(cw.w.zlib) && Faithful(cw.json)
    requires {d, x} <= cw.full && d in cw.w.cfg && x in cw.w.cfg && x != d && Encodable(m) && m.msgType == TYPE_MESSAGE
    requires ChatFrame(cw, from, d, s, m) in Last(h).net.medium
    ensures Continues(cw, h, h') && Sound(cw, Last(h')) && Last(h).net.medium <= Last(h').net.medium
    ensures HoldsJust(Last(h'), x, Key(from, s), ContentOf(m))
  {
    var h1 := Convinced(cw, h, from, d, s, m);
    var row := Last(h1).stores[d].rows[0];
    assert row in Last(h1).stores[d].rows;
    h' := PassedOn(cw, h1, d, x, row);
    ContinuesOn(cw, h, h1, h');
  }

  /** Another node hears the second frame. */
  lemma ThenAnother(cw: ChatWorld, h: History, holder: NodeId, c: Content, from: NodeId, s: u32, m: ChatMessage,
                    d: NodeId)
    returns (h': History)
    requires IsHistory(cw, h) && Sound(cw, Last(h)) && from in cw.w.cfg && Lossless(cw.w.zlib)
    requires d in cw.full && d in cw.w.cfg && holder != d && Encodable(m) && m.msgType == TYPE_MESSAGE
    requires c != ContentOf(m)
    requires HoldsJust(Last(h), holder, Key(from, s), c) && ChatFrame(cw, from, d, s, m) in Last(h).net.medium
    ensures Continues(cw, h, h') && Disagree(Last(h'))
  {
    h' := Convinced(cw, h, from, d, s, m);
    TwoVersions(Last(h'), holder, d, Last(h').stores[holder].rows[0], Last(h').stores[d].rows[0]);
  }

  /** Two frames with one number and different messages, addressed to full nodes, end in different stores. */
  lemma ConflictSpreads(cw: ChatWorld, h: History, from: NodeId, s: u32, m1: ChatMessage, d1: NodeId, m2: ChatMessage,
                        d2: NodeId,
                        x: NodeId) returns (h': History)
    requires IsHistory(cw, h) && Sound(cw, Last(h)) && from in cw.w.cfg && Lossless(cw.w.zlib) && Faithful(cw.json)
    requires {d1, d2, x} <= cw.full && {d1, d2, x} <= cw.w.cfg.Keys && x != d1
    requires Encodable(m1) && Encodable(m2) && m1.msgType == m2.msgType == TYPE_MESSAGE
    requires ContentOf(m1) != ContentOf(m2)
    requires ChatFrame(cw, from, d1, s, m1) in Last(h).net.medium
    requires ChatFrame(cw, from, d2, s, m2) in Last(h).net.medium
    ensures Continues(cw, h, h') && Disagree(Last(h'))
  {
    var h1: History;
    if d1 == d2 {
      h1 := SameAddressee(cw, h, from, s, m1, d1, x);
    } else {
      h1 := Convinced(cw, h, from, d1, s, m1);
    }
    h' := ThenAnother(cw, h1, if d1 == d2 then x else d1, ContentOf(m1), from, s, m2, d2);
    ContinuesOn(cw, h, h1, h');
  }

  /** Every chat send is addressed to a full node of the network. */
  ghost predicate ReachesClients(cw: ChatWorld, h: History) {
    forall e | e in h.events && e.Say? :: e.dest in cw.full && e.dest in cw.w.cfg
  }

  /** Some way for the run to go on, with no further chat send, makes two stores disagree. */
  ghost predicate CanDisagree(cw: ChatWorld, h: History) {
    exists h' :: Continues(cw, h, h') && Disagree(Last(h'))
  }

  lemma ConsistentCannot(cw: ChatWorld, h: History, h': History)
    requires Continues(cw, h, h') && NumbersConsistent(cw, h.states, h.events) && Lossless(cw.w.zlib)
    requires Faithful(cw.json)
    ensures !Disagree(Last(h'))
  {
    forall i | 0 <= i < |h'.events| ensures ConsistentAt(cw, h'.states, h'.events, i) {
      assert NextAt(cw, h'.states, h'.events, i);
      if i < |h.events| {
        assert ConsistentAt(cw, h.states, h.events, i);
      }
    }
    forall a, b | a in Last(h').stores && b in Last(h').stores ensures Agree(Last(h').stores[a], Last(h').stores[b]) {
      StoresAgree(cw, h'.states, h'.events, |h'.events|, a, b);
    }
  }

  /** A send that contradicts an earlier one under its number. */
  lemma FindConflict(cw: ChatWorld, h: History)
    returns (i: nat, j: nat, from: NodeId, s: u32, m1: ChatMessage, d1: NodeId, m2: ChatMessage, d2: NodeId)
    requires IsHistory(cw, h) && !NumbersConsistent(cw, h.states, h.events)
    ensures i < j < |h.events| && ContentOf(m1) != ContentOf(m2)
    ensures SaidAt(cw, h, i, from, s, m1, d1) && SaidAt(cw, h, j, from, s, m2, d2)
  {
    j :| 0 <= j < |h.events| && !ConsistentAt(cw, h.states, h.events, j);
    assert NextAt(cw, h.states, h.events, j);
    var e := h.events[j];
    from, s, m2, d2 := e.node, NextSeqno(Counter(h.states[j].net, e.node)), MessageOf(e), e.dest;
    i, m1, d1 := TruthIsSaid(cw, h, j, from, s);
  }

  lemma SoundAtEnd(cw: ChatWorld, h: History)
    requires IsHistory(cw, h) && h.events != []
    ensures Sound(cw, Last(h))
  {
    var n := |h.events| - 1;
    assert NextAt(cw, h.states, h.events, n);
    SoundStays(cw, h.states[n], h.events[n]);
  }

  lemma ConflictCan(cw: ChatWorld, h: History, a: NodeId, b: NodeId)
    requires IsHistory(cw, h) && !NumbersConsistent(cw, h.states, h.events) && ReachesClients(cw, h)
    requires Lossless(cw.w.zlib) && Faithful(cw.json)
    requires {a, b} <= cw.full && {a, b} <= cw.w.cfg.Keys && a != b
    ensures CanDisagree(cw, h)
  {
    var i, j, from, s, m1, d1, m2, d2 := FindConflict(cw, h);
    var n := |h.events|;
    SaidStaysOnAir(cw, h, i, n, from, s, m1, d1);
    SaidStaysOnAir(cw, h, j, n, from, s, m2, d2);
    SoundAtEnd(cw, h);
    assert h.events[i] in h.events && h.events[j] in h.events;
    var h' := ConflictSpreads(cw, h, from, s, m1, d1, m2, d2, if a != d1 then a else b);
  }

  /** Exactly when stores can disagree. In a network with at least two full nodes, and chat sends addressed to full
      nodes: after a run, some continuation without further chat sends makes two stores disagree iff some chat send
      of the run got a number under which its node had said something else. */
  lemma DisagreementExactlyWhen(cw: ChatWorld, h: History, a: NodeId, b: NodeId)
    requires IsHistory(cw, h) && ReachesClients(cw, h) && Lossless(cw.w.zlib) && Faithful(cw.json)
    requires {a, b} <= cw.full && {a, b} <= cw.w.cfg.Keys && a != b
    ensures CanDisagree(cw, h) <==> !NumbersConsistent(cw, h.states, h.events)
  {
    if NumbersConsistent(cw, h.states, h.events) {
      forall h' | Continues(cw, h, h') ensures !Disagree(Last(h')) {
        ConsistentCannot(cw, h, h');
      }
    } else {
      ConflictCan(cw, h, a, b);
    }
  }

  // ------------------------------------------------------ by a restart

  lemma SayEffect(cw: ChatWorld, cn: ChatNet, e: ChatEvent)
    requires Possible(cw, cn, e) && Says(cw, e)
    ensures var after, k := Next(cw, cn, e), NextKey(cn, e.node);
            && OnlyAt(cn, after, e.node)
            && after.stores == cn.stores[e.node := Add(cn.stores[e.node], k, ContentOf(MessageOf(e)), e.now)]
            && ChatFrame(cw, e.node, e.dest, k.seqno, MessageOf(e)) in after.net.medium
  {
    TransmitsFrame(cw, cn.net, e.node, e.dest, MessageOf(e));
  }

  lemma StartShape(cw: ChatWorld)
    requires cw.sync.Keys == cw.w.cfg.Keys
    ensures Sound(cw, Start(cw)) && IsHistory(cw, History([Start(cw)], []))
    ensures forall n | n in cw.w.cfg :: Start(cw).stores[n] == EMPTY_TABLE && Start(cw).net.nodes[n] == FRESH_NODE
  {
  }

  /** A run of one chat send. */
  lemma FirstSay(cw: ChatWorld, e: ChatEvent) returns (h: History)
    requires e.Say? && Says(cw, e) && e.node in cw.w.cfg && cw.sync.Keys == cw.w.cfg.Keys
    ensures IsHistory(cw, h) && h.events == [e] && Sound(cw, Last(h))
    ensures Last(h).stores[e.node].rows == [Row(1, Key(e.node, 1), ContentOf(MessageOf(e)), e.now)]
    ensures forall n | n in cw.w.cfg && n != e.node ::
              Last(h).stores[n] == EMPTY_TABLE && Last(h).net.nodes[n] == FRESH_NODE
  {
    StartShape(cw);
    SayEffect(cw, Start(cw), e);
    h := OneMore(cw, History([Start(cw)], []), e);
    AddedIsHeld(EMPTY_TABLE, Key(e.node, 1), ContentOf(MessageOf(e)), e.now);
  }

  /** A restarted node that still holds what it said under number 1 says something under it again. */
  lemma SecondSay(cw: ChatWorld, h: History, e: ChatEvent, row: Row) returns (h': History)
    requires IsHistory(cw, h) && Sound(cw, Last(h)) && e.Say? && Says(cw, e) && e.node in cw.w.cfg
    requires Last(h).net.nodes[e.node] == FRESH_NODE && Last(h).stores[e.node].rows == [row]
    requires row.key == Key(e.node, 1)
    ensures IsHistory(cw, h') && h'.events == h.events + [e] && Sound(cw, Last(h')) && OnlyAt(Last(h), Last(h'), e.node)
    ensures Last(h').stores == Last(h).stores && ChatFrame(cw, e.node, e.dest, 1, MessageOf(e)) in Last(h').net.medium
  {
    assert Last(h).stores[e.node].rows[0].key == Key(e.node, 1);
    SayEffect(cw, Last(h), e);
    h' := OneMore(cw, h, e);
  }

  /** The first three events: after them both frames are on the air and a holds what it said first. */
  lemma SaidTwice(cw: ChatWorld, first: ChatEvent, second: ChatEvent) returns (h: History, row: Row)
    requires cw.sync.Keys == cw.w.cfg.Keys
    requires first.Say? && second.Say? && Says(cw, first) && Says(cw, second) && first.node == second.node
    requires first.node in cw.w.cfg && second.dest in cw.w.cfg && second.dest != first.node
    ensures IsHistory(cw, h) && Sound(cw, Last(h)) && h.events == [first] + [Reboot(first.node)] + [second]
    ensures row in Last(h).stores[first.node].rows
    ensures row.key == Key(first.node, 1) && row.content == ContentOf(MessageOf(first))
    ensures Clear(Last(h), second.dest)
    ensures ChatFrame(cw, first.node, second.dest, 1, MessageOf(second)) in Last(h).net.medium
  {
    var h1 := FirstSay(cw, first);
    row := Last(h1).stores[first.node].rows[0];
    var h2 := Restarted(cw, h1, first.node);
    h := SecondSay(cw, h2, second, row);
  }

  /** A restart is enough. Node a says one message, restarts and says another, to b; only the second is heard.
      The two stores then hold different messages under number 1 of a. */
  lemma RestartBreaksAgreement(cw: ChatWorld, first: ChatEvent, second: ChatEvent) returns (h: History)
    requires Lossless(cw.w.zlib) && cw.sync.Keys == cw.w.cfg.Keys
    requires first.Say? && second.Say? && Says(cw, first) && Says(cw, second) && first.node == second.node
    requires ContentOf(MessageOf(first)) != ContentOf(MessageOf(second))
    requires {first.node, second.dest} <= cw.w.cfg.Keys && second.dest in cw.full && second.dest != first.node
    ensures IsHistory(cw, h) && |h.events| == 4 && h.events[3].Hear?
    ensures h.events[..3] == [first, Reboot(first.node), second]
    ensures first.node in Last(h).stores && second.dest in Last(h).stores
    ensures !Agree(Last(h).stores[first.node], Last(h).stores[second.dest])
  {
    var a, b := first.node, second.dest;
    var h3, row := SaidTwice(cw, first, second);
    h := StoresFrame(cw, h3, a, b, 1, MessageOf(second));
    FourEvents(h.events, first, Reboot(a), second, Hear(b, ChatFrame(cw, a, b, 1, MessageOf(second)), 0.0, 0, []));
    FirstRowIn(Last(h), b, Key(a, 1), ContentOf(MessageOf(second)));
    RowsDisagree(Last(h).stores[a], Last(h).stores[b], row, Last(h).stores[b].rows[0]);
  }

  lemma RowsDisagree(s: Table, t: Table, x: Row, y: Row)
    requires x in s.rows && y in t.rows && x.key == y.key && x.content != y.content
    ensures !Agree(s, t)
  {
  }

  lemma FourEvents(es: seq<ChatEvent>, a: ChatEvent, b: ChatEvent, c: ChatEvent, d: ChatEvent)
    requires es == [a] + [b] + [c] + [d]
    ensures |es| == 4 && es[..3] == [a, b, c] && es[3] == d
  {
  }

  lemma FirstRowIn(cn: ChatNet, d: NodeId, k: Key, c: Content)
    requires HoldsJust(cn, d, k, c)
    ensures cn.stores[d].rows[0] in cn.stores[d].rows
  {
  }
}
