/** What the gap tracker makes of the mesh's numbering: the two count differently. Nodes number every OGM and
    DATA packet from one counter starting at 1 (mesh_node.py:207-210), while the tracker expects an origin's
    chat messages to be numbered 0, 1, 2, ... (chat_client.py:328). */
module MeshGaps {
  import opened Basics
  import opened Bytes
  import opened MeshFrame
  import opened MeshNode
  import opened MeshNetwork
  import opened MeshDelivery
  import opened ChatProtocol
  import opened ChatStore
  import opened ChatSync
  import opened ChatNetwork
  import opened ChatConflict
  import GR = GapRanges
  import GT = GapTracker

  /** Without counter wrap, no packet is ever delivered under number 0. */
  lemma DeliveredNumbersPositive(w: World, states: seq<Net>, events: seq<Event>, i: nat, d: Delivery)
    requires IsRun(w, states, events) && Lossless(w.zlib) && i < |events|
    requires StepAt(w, states, events, i) && EffectOf(w, states[i], events[i]).delivered == Some(d)
    requires NoWrap(states, events, d.origin)
    ensures d.seqno >= 1
  {
    EndToEndIntegrity(w, states, events, i, d);
    var j: nat :| j < i && SentAt(states, events, j, Sent(d.origin, d.dest, d.seqno, d.payload));
    assert StepAt(w, states, events, j);
  }

  /** The tracker of a chat client is told the numbers of messages it holds at that moment (chat_client.py:899-930,
      1084-1095): every arrival is the number of a message of o that some store held in the run. */
  ghost predicate FedByRun(h: History, o: NodeId, arrivals: seq<GT.Arrival>) {
    forall a | a in arrivals :: EverHeld(h, Key(o, a.seqno))
  }

  ghost predicate EverHeld(h: History, key: Key) {
    exists k: nat, n: NodeId :: k < |h.states| && n in h.states[k].stores && HasKey(h.states[k].stores[n].rows, key)
  }

  ghost predicate SteadyHistory(cw: ChatWorld, h: History) {
    IsHistory(cw, h) && RunSteady(h.states, h.events) && Lossless(cw.w.zlib) && Faithful(cw.json)
  }

  /** A number some store held was given to a chat send. */
  lemma HeldWasSaid(cw: ChatWorld, h: History, o: NodeId, n: int) returns (i: nat, s: u32, m: ChatMessage, d: NodeId)
    requires SteadyHistory(cw, h) && EverHeld(h, Key(o, n))
    ensures i < |h.events| && s == n && SaidAt(cw, h, i, o, s, m, d)
  {
    var k: nat, p: NodeId :| k < |h.states| && p in h.states[k].stores && HasKey(h.states[k].stores[p].rows, Key(o, n));
    var rows := h.states[k].stores[p].rows;
    var x :| 0 <= x < |rows| && rows[x].key == Key(o, n);
    assert rows[x] in rows;
    SteadyIsConsistent(cw, h.states, h.events);
    StoresAgree(cw, h.states, h.events, k, p, p);
    s := TruthNumber(cw, h, k, o, n);
    i, m, d := TruthIsSaid(cw, h, k, o, s);
  }

  /** Numbers in the record of truth fit the wire format. */
  lemma {:induction false} TruthNumber(cw: ChatWorld, h: History, k: nat, o: NodeId, n: int) returns (s: u32)
    requires IsHistory(cw, h) && k < |h.states| && Key(o, n) in h.states[k].truth
    ensures s == n
  {
    if k == 0 {
      assert false;
    } else {
      assert NextAt(cw, h.states, h.events, k - 1);
      var before, e := h.states[k - 1], h.events[k - 1];
      TruthAfter(cw, before, e);
      if Says(cw, e) && NextKey(before, e.node) == Key(o, n) {
        s := NextSeqno(Counter(before.net, e.node));
      } else {
        s := TruthNumber(cw, h, k - 1, o, n);
      }
    }
  }

  // ------------------------------------------------------ spent numbers

  /** Event i makes o take number s for something that is not a chat send: an OGM, a sync request or a sync
      response. */
  ghost predicate SpentAt(cw: ChatWorld, h: History, i: nat, o: NodeId, s: u32)
    requires i < |h.events| < |h.states|
  {
    && o in h.states[i].net.nodes && o in h.states[i + 1].net.nodes && !Says(cw, h.events[i])
    && Counter(h.states[i + 1].net, o) == s == Counter(h.states[i].net, o) + 1
  }

  lemma CounterGrowsAt(cw: ChatWorld, h: History, i: nat, o: NodeId)
    requires IsHistory(cw, h) && RunSteady(h.states, h.events) && i < |h.events| && o in h.states[i].net.nodes
    ensures o in h.states[i + 1].net.nodes && Counter(h.states[i + 1].net, o) >= Counter(h.states[i].net, o)
  {
    assert NextAt(cw, h.states, h.events, i) && SteadyAt(h.states, h.events, i);
    CounterGrows(cw, h.states[i], h.events[i], o);
  }

  lemma {:induction false} CounterNeverFalls(cw: ChatWorld, h: History, i: nat, k: nat, o: NodeId)
    requires IsHistory(cw, h) && RunSteady(h.states, h.events) && i <= k < |h.states| && o in h.states[i].net.nodes
    ensures o in h.states[k].net.nodes && Counter(h.states[k].net, o) >= Counter(h.states[i].net, o)
    decreases k
  {
    if i < k {
      CounterNeverFalls(cw, h, i, k - 1, o);
      CounterGrowsAt(cw, h, k - 1, o);
    }
  }

  lemma SaidTakesNumber(cw: ChatWorld, h: History, j: nat, o: NodeId, s: u32, m: ChatMessage, d: NodeId)
    requires IsHistory(cw, h) && RunSteady(h.states, h.events) && j < |h.events| && SaidAt(cw, h, j, o, s, m, d)
    ensures o in h.states[j].net.nodes && o in h.states[j + 1].net.nodes
    ensures Counter(h.states[j + 1].net, o) == s == Counter(h.states[j].net, o) + 1
  {
    assert NextAt(cw, h.states, h.events, j) && SteadyAt(h.states, h.events, j);
    SayTakesNumber(cw, h.states[j], h.events[j]);
  }

  /** A number is taken once. */
  lemma SpentIsNotSaid(cw: ChatWorld, h: History, i: nat, j: nat, o: NodeId, s: u32, m: ChatMessage, d: NodeId)
    requires SteadyHistory(cw, h) && i < |h.events| && j < |h.events| && SpentAt(cw, h, i, o, s)
    ensures !SaidAt(cw, h, j, o, s, m, d)
  {
    if SaidAt(cw, h, j, o, s, m, d) {
      SaidTakesNumber(cw, h, j, o, s, m, d);
      if j < i {
        CounterNeverFalls(cw, h, j + 1, i, o);
      } else if i < j {
        CounterNeverFalls(cw, h, i + 1, j, o);
      }
    }
  }

  lemma SpentIsNeverHeld(cw: ChatWorld, h: History, i: nat, o: NodeId, s: u32)
    requires SteadyHistory(cw, h) && i < |h.events| && SpentAt(cw, h, i, o, s)
    ensures !EverHeld(h, Key(o, s))
  {
    if EverHeld(h, Key(o, s)) {
      var j, s', m, d := HeldWasSaid(cw, h, o, s);
      SpentIsNotSaid(cw, h, i, j, o, s, m, d);
    }
  }

  lemma {:induction false} IngestedArrived(arrivals: seq<GT.Arrival>, n: int)
    requires n in GT.Ingested(arrivals)
    ensures exists a :: a in arrivals && a.seqno == n
  {
    var last := arrivals[|arrivals| - 1];
    if last.seqno == n {
      assert last in arrivals;
    } else {
      IngestedArrived(arrivals[..|arrivals| - 1], n);
    }
  }

  /** Number s of o was never held by any store of the run, in particular by none that a range request could ask. */
  lemma NeverHeldIsGap(h: History, o: NodeId, s: nat, arrivals: seq<GT.Arrival>, m: int)
    requires FedByRun(h, o, arrivals) && !EverHeld(h, Key(o, s)) && m in GT.Ingested(arrivals) && m > s
    ensures GR.Has(GT.After(arrivals).missing, s)
  {
    if s in GT.Ingested(arrivals) {
      IngestedArrived(arrivals, s);
      assert false;
    }
    GT.NothingLost(arrivals, s, m);
  }

  /** Every number an origin spends on an OGM, a sync request or a sync response becomes a gap that nothing repairs:
      in any run without restart and wrap, as soon as a message with a higher number has arrived the tracker lists
      it, and no store in the network ever holds a row of that number, so no range request for it is answered
      with anything. */
  lemma SpentNumbersAreGaps(cw: ChatWorld, h: History, i: nat, o: NodeId, s: u32, arrivals: seq<GT.Arrival>, m: int)
    requires SteadyHistory(cw, h) && i < |h.events| && SpentAt(cw, h, i, o, s)
    requires FedByRun(h, o, arrivals) && m in GT.Ingested(arrivals) && m > s
    ensures GR.Has(GT.After(arrivals).missing, s)
    ensures forall k: nat, n: NodeId, c, cfg | k < |h.states| && n in h.states[k].stores ::
              Answer(h.states[k].stores[n].rows, cfg, c, SeqRange(o, s, s)) == Some([])
  {
    SpentIsNeverHeld(cw, h, i, o, s);
    NeverHeldIsGap(h, o, s, arrivals, m);
    forall k: nat, n: NodeId, c, cfg | k < |h.states| && n in h.states[k].stores
      ensures Answer(h.states[k].stores[n].rows, cfg, c, SeqRange(o, s, s)) == Some([])
    {
      NothingToAnswer(h.states[k].stores[n].rows, cfg, c, o, s);
    }
  }

  lemma InRangeIsHeld(rows: seq<Row>, c: Bytes, o: NodeId, s: int)
    requires OriginRange(rows, c, o, s, s) != []
    ensures HasKey(rows, Key(o, s))
  {
    var x := OriginRange(rows, c, o, s, s)[0];
    assert x in OriginRange(rows, c, o, s, s);
    var i :| 0 <= i < |rows| && rows[i] == x;
  }

  lemma NothingToAnswer(rows: seq<Row>, cfg: SyncConfig, c: Bytes, o: NodeId, s: int)
    requires !HasKey(rows, Key(o, s))
    ensures Answer(rows, cfg, c, SeqRange(o, s, s)) == Some([])
  {
    if OriginRange(rows, c, o, s, s) != [] {
      InRangeIsHeld(rows, c, o, s);
    }
  }

  lemma ArrivalsArePositive(cw: ChatWorld, h: History, o: NodeId, arrivals: seq<GT.Arrival>)
    requires SteadyHistory(cw, h) && FedByRun(h, o, arrivals)
    ensures forall a | a in arrivals :: a.seqno >= 1
  {
    forall a | a in arrivals ensures a.seqno >= 1 {
      var i, s, m, d := HeldWasSaid(cw, h, o, a.seqno);
      SaidTakesNumber(cw, h, i, o, s, m, d);
    }
  }

  /** Whatever arrives from an origin, in whatever order: the contiguous prefix never starts, and from the first
      arrival on number 0 is listed as missing, although no message was lost. */
  lemma ZeroIsAlwaysMissing(cw: ChatWorld, h: History, o: NodeId, arrivals: seq<GT.Arrival>)
    requires SteadyHistory(cw, h) && FedByRun(h, o, arrivals) && arrivals != []
    ensures GT.After(arrivals).hi == -1
    ensures GR.Has(GT.After(arrivals).missing, 0)
  {
    ArrivalsArePositive(cw, h, o, arrivals);
    GT.ExactTracking(arrivals);
    assert 0 !in GT.Ingested(arrivals);
    var first := arrivals[0].seqno;
    assert arrivals[0] in arrivals && first in GT.Ingested(arrivals);
    GT.NothingLost(arrivals, 0, first);
  }
}
