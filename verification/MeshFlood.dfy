/** How much traffic one transmission can cause. OGMs are forwarded without any duplicate check
    (mesh_node.py:303-315), so only the TTL bounds a flood. */
module MeshFlood {
  import opened Basics
  import opened Bytes
  import opened MeshFrame
  import opened MeshNode

  /** `flight` holds every copy of a frame that is still going to be received, one element per copy. */
  datatype Flood = Flood(nodes: map<NodeId, NodeState>, flight: seq<Bytes>)

  /** Node `node` receives copy `index`; what it transmits then reaches `copies` receivers. */
  datatype Receipt = Receipt(node: NodeId, index: nat, now: real, copies: nat)

  function Repeat(f: Bytes, n: nat): (r: seq<Bytes>) {
    seq(n, _ => f)
  }

  predicate CanReceive(s: Flood, r: Receipt) {
    r.node in s.nodes && r.index < |s.flight|
  }

  function EffectOf(z: Zlib, s: Flood, r: Receipt): Effect
    requires CanReceive(s, r)
  {
    OnLinkFrame(z, r.node, s.nodes[r.node], s.flight[r.index], r.now)
  }

  function Received(z: Zlib, s: Flood, r: Receipt): (s': Flood)
    requires CanReceive(s, r)
  {
    var e := EffectOf(z, s, r);
    var rest := s.flight[..r.index] + s.flight[r.index + 1..];
    Flood(s.nodes[r.node := e.state], rest + (if e.sent.Some? then Repeat(e.sent.value, r.copies) else []))
  }

  /** A run of receipts only: no node starts anything new. At most `fanout` nodes hear each transmission. */
  ghost predicate IsFlood(z: Zlib, fanout: nat, states: seq<Flood>, receipts: seq<Receipt>) {
    && |states| == |receipts| + 1
    && forall i | 0 <= i < |receipts| :: FloodStep(z, fanout, states, receipts, i)
  }

  predicate FloodStep(z: Zlib, fanout: nat, states: seq<Flood>, receipts: seq<Receipt>, i: nat)
    requires i < |receipts| < |states|
  {
    && CanReceive(states[i], receipts[i]) && receipts[i].copies <= fanout
    && states[i + 1] == Received(z, states[i], receipts[i])
  }

  /** Receipts one copy with TTL t can cause, itself included: W(1) = 1, W(t) = 1 + D * W(t - 1). */
  function Weight(fanout: nat, ttl: nat): (w: nat)
    ensures w >= 1
  {
    if ttl <= 1 then 1 else 1 + fanout * Weight(fanout, ttl - 1)
  }

  function FrameWeight(fanout: nat, f: Bytes): (w: nat) {
    var m := ParseFrame(f);
    if m.Ignored? then 1 else Weight(fanout, m.ttl)
  }

  function TotalWeight(fanout: nat, flight: seq<Bytes>): (w: nat) {
    if flight == [] then 0 else FrameWeight(fanout, flight[0]) + TotalWeight(fanout, flight[1..])
  }

  lemma {:induction false} WeightOfConcat(fanout: nat, a: seq<Bytes>, b: seq<Bytes>)
    ensures TotalWeight(fanout, a + b) == TotalWeight(fanout, a) + TotalWeight(fanout, b)
  {
    if a == [] {
      assert a + b == b;
    } else {
      WeightOfConcat(fanout, a[1..], b);
      assert (a + b)[1..] == a[1..] + b;
    }
  }

  lemma {:induction false} WeightOfRepeat(fanout: nat, f: Bytes, n: nat)
    ensures TotalWeight(fanout, Repeat(f, n)) == n * FrameWeight(fanout, f)
  {
    if n > 0 {
      WeightOfRepeat(fanout, f, n - 1);
      assert Repeat(f, n)[1..] == Repeat(f, n - 1);
    }
  }

  /** m' is a forwarded m: the same kind, with a TTL one lower. */
  predicate OneHopOn(m: Message, m': Message) {
    !m.Ignored? && !m'.Ignored? && (m.Ogm? <==> m'.Ogm?) && m.ttl > 1 && m'.ttl == m.ttl - 1
  }

  /** A node transmits in answer to a frame only if its TTL exceeds 1, always with the TTL one lower;
      for an OGM it then always does. */
  lemma ForwardLowersTtl(z: Zlib, s: Flood, r: Receipt)
    requires CanReceive(s, r)
    ensures var m, sent := ParseFrame(s.flight[r.index]), EffectOf(z, s, r).sent;
            && (sent.Some? ==> OneHopOn(m, ParseFrame(sent.value)))
            && (m.Ogm? && m.ttl > 1 ==> sent.Some?)
  {
  }

  lemma MulMonotone(a: nat, b: nat, c: nat)
    requires a <= b
    ensures a * c <= b * c
  {
  }

  /** Every receipt lowers the total weight, by exactly one when an OGM reaches all of its receivers. */
  lemma ReceiptLowersWeight(z: Zlib, fanout: nat, s: Flood, r: Receipt)
    requires CanReceive(s, r) && r.copies <= fanout
    ensures TotalWeight(fanout, Received(z, s, r).flight) < TotalWeight(fanout, s.flight)
    ensures r.copies == fanout && ParseFrame(s.flight[r.index]).Ogm? ==>
              TotalWeight(fanout, Received(z, s, r).flight) == TotalWeight(fanout, s.flight) - 1
  {
    var f, e := s.flight[r.index], EffectOf(z, s, r);
    var before, after := s.flight[..r.index], s.flight[r.index + 1..];
    assert s.flight == before + ([f] + after);
    WeightOfConcat(fanout, before, [f] + after);
    WeightOfConcat(fanout, [f], after);
    WeightOfConcat(fanout, before, after);
    ForwardLowersTtl(z, s, r);
    if e.sent.Some? {
      var g := e.sent.value;
      WeightOfConcat(fanout, before + after, Repeat(g, r.copies));
      WeightOfRepeat(fanout, g, r.copies);
      MulMonotone(r.copies, fanout, FrameWeight(fanout, g));
    } else {
      assert before + after + [] == before + after;
    }
  }

  /** Flood bound. The number of receipts is at most the weight of what was in flight at the start. */
  lemma {:induction false} FloodBound(z: Zlib, fanout: nat, states: seq<Flood>, receipts: seq<Receipt>, k: nat)
    requires IsFlood(z, fanout, states, receipts) && k <= |receipts|
    ensures k + TotalWeight(fanout, states[k].flight) <= TotalWeight(fanout, states[0].flight)
  {
    if k > 0 {
      FloodBound(z, fanout, states, receipts, k - 1);
      assert FloodStep(z, fanout, states, receipts, k - 1);
      ReceiptLowersWeight(z, fanout, states[k - 1], receipts[k - 1]);
    }
  }

  /** One transmission of any frame with TTL t, heard by at most D nodes, causes at most D * W(t) receipts
      in all, whatever the nodes' tables hold. */
  lemma OneTransmissionBound(z: Zlib, fanout: nat, states: seq<Flood>, receipts: seq<Receipt>, frame: Bytes, heard: nat)
    requires IsFlood(z, fanout, states, receipts)
    requires states[0].flight == Repeat(frame, heard) && heard <= fanout
    ensures |receipts| <= fanout * FrameWeight(fanout, frame)
  {
    FloodBound(z, fanout, states, receipts, |receipts|);
    WeightOfRepeat(fanout, frame, heard);
    MulMonotone(heard, fanout, FrameWeight(fanout, frame));
  }

  ghost predicate AllOgms(flight: seq<Bytes>) {
    forall f | f in flight :: ParseFrame(f).Ogm?
  }

  lemma OgmsStay(z: Zlib, s: Flood, r: Receipt)
    requires CanReceive(s, r) && AllOgms(s.flight)
    ensures AllOgms(Received(z, s, r).flight)
  {
    ForwardLowersTtl(z, s, r);
    assert s.flight[r.index] in s.flight;
  }

  lemma {:induction false} OgmFloodCount(z: Zlib, fanout: nat, states: seq<Flood>, receipts: seq<Receipt>, k: nat)
    requires IsFlood(z, fanout, states, receipts) && k <= |receipts|
    requires AllOgms(states[0].flight) && forall r | r in receipts :: r.copies == fanout
    ensures AllOgms(states[k].flight)
    ensures k + TotalWeight(fanout, states[k].flight) == TotalWeight(fanout, states[0].flight)
  {
    if k > 0 {
      OgmFloodCount(z, fanout, states, receipts, k - 1);
      assert FloodStep(z, fanout, states, receipts, k - 1);
      OgmsStay(z, states[k - 1], receipts[k - 1]);
      assert states[k - 1].flight[receipts[k - 1].index] in states[k - 1].flight;
      ReceiptLowersWeight(z, fanout, states[k - 1], receipts[k - 1]);
    }
  }

  /** The bound is exact: an OGM heard by D nodes at every transmission, once nothing is in flight,
      has been received exactly D * W(t) times. */
  lemma OgmFloodExact(z: Zlib, fanout: nat, states: seq<Flood>, receipts: seq<Receipt>, frame: Bytes)
    requires IsFlood(z, fanout, states, receipts) && ParseFrame(frame).Ogm?
    requires states[0].flight == Repeat(frame, fanout) && forall r | r in receipts :: r.copies == fanout
    requires states[|receipts|].flight == []
    ensures |receipts| == fanout * Weight(fanout, ParseFrame(frame).ttl)
  {
    OgmFloodCount(z, fanout, states, receipts, |receipts|);
    WeightOfRepeat(fanout, frame, fanout);
  }
}
