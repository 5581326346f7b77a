/** Why routing loop freedom needs route entries to stay, and exactly when it does: if entries may expire, some
    run loops toward an origin iff its OGMs have a TTL of at least 2 and there is another node. */
module RouteExpiry {
  import opened Basics
  import opened Bytes
  import opened MeshFrame
  import opened MeshNode
  import opened MeshNetwork

  // ------------------------------------------------- a run with a loop

  /** Receiving an announcement that is new to the node sets its entry and forwards it with a lower TTL. */
  lemma HearsAnnouncement(w: World, net: Net, n: NodeId, o: NodeId, ttl: byte, hop: NodeId, now: real)
    requires net.nodes.Keys == w.cfg.Keys && n in net.nodes && !HasRoute(net, n, o)
    requires OgmFrame(ttl, o, 1, hop, 255) in net.medium
    ensures var e := Receive(n, OgmFrame(ttl, o, 1, hop, 255), now);
            && Enabled(w, net, e)
            && var net' := Step(w, net, e);
               && net'.nodes.Keys == w.cfg.Keys && net.medium <= net'.medium
               && HasRoute(net', n, o) && Entry(net', n, o).bestNextHop == hop && Entry(net', n, o).lastSeen == now
               && (ttl > 1 ==> OgmFrame(ttl - 1, o, 1, n, 255) in net'.medium)
  {
    OgmFrameRoundTrip(ttl, o, 1, hop, 255);
  }

  /** The route entry of n for o has expired when cleanup runs. */
  lemma EntryExpires(w: World, net: Net, n: NodeId, o: NodeId, now: real)
    requires net.nodes.Keys == w.cfg.Keys && n in net.nodes && HasRoute(net, n, o)
    requires now - Entry(net, n, o).lastSeen > w.cfg[n].routeExpiry
    ensures Enabled(w, net, Cleanup(n, now))
    ensures var net' := Step(w, net, Cleanup(n, now));
            net'.nodes.Keys == w.cfg.Keys && net'.medium == net.medium && !HasRoute(net', n, o)
  {
  }

  lemma Announces(w: World, net: Net, o: NodeId)
    requires net == Init(w) && o in w.cfg
    ensures Enabled(w, net, SendOgm(o))
    ensures var net' := Step(w, net, SendOgm(o));
            && net'.nodes.Keys == w.cfg.Keys && OgmFrame(w.cfg[o].ogmTtl, o, 1, o, 255) in net'.medium
            && forall n, p :: !HasRoute(net', n, p)
  {
  }

  /** e is enabled in `before`, loses no route unless it is a cleanup, and leads to `after`. */
  ghost predicate Leads(w: World, before: Net, e: Event, after: Net) {
    Enabled(w, before, e) && after == Step(w, before, e) && (!e.Cleanup? ==> KeepsRoutes(w, before, e))
  }

  /** The announcement of o reaches b, which forwards it. */
  lemma Outward(w: World, b: NodeId, o: NodeId) returns (s1: Net, s2: Net, e0: Event, e1: Event)
    requires b in w.cfg && o in w.cfg && b != o && w.cfg[o].ogmTtl >= 2
    ensures Leads(w, Init(w), e0, s1) && Leads(w, s1, e1, s2) && !e0.Cleanup? && !e1.Cleanup?
    ensures s2.nodes.Keys == w.cfg.Keys && OgmFrame(w.cfg[o].ogmTtl - 1, o, 1, b, 255) in s2.medium
    ensures HasRoute(s2, b, o) && Entry(s2, b, o).lastSeen == 0.0
  {
    var ttl := w.cfg[o].ogmTtl;
    e0 := SendOgm(o);
    Announces(w, Init(w), o);
    s1 := Step(w, Init(w), e0);
    e1 := Receive(b, OgmFrame(ttl, o, 1, o, 255), 0.0);
    assert !HasRoute(s1, b, o);
    HearsAnnouncement(w, s1, b, o, ttl, o, 0.0);
    s2 := Step(w, s1, e1);
  }

  /** The entry of b expires, and b then hears its own forward. */
  lemma Back(w: World, s2: Net, b: NodeId, o: NodeId) returns (s3: Net, s4: Net, e2: Event, e3: Event)
    requires b in w.cfg && o in w.cfg && b != o && w.cfg[o].ogmTtl >= 2
    requires s2.nodes.Keys == w.cfg.Keys && OgmFrame(w.cfg[o].ogmTtl - 1, o, 1, b, 255) in s2.medium
    requires HasRoute(s2, b, o) && Entry(s2, b, o).lastSeen == 0.0
    ensures Leads(w, s2, e2, s3) && Leads(w, s3, e3, s4) && e2.Cleanup? && !e3.Cleanup?
    ensures IsRoute(s4, o, [b, b])
  {
    var late := w.cfg[b].routeExpiry + 1.0;
    e2 := Cleanup(b, late);
    EntryExpires(w, s2, b, o, late);
    s3 := Step(w, s2, e2);
    e3 := Receive(b, OgmFrame(w.cfg[o].ogmTtl - 1, o, 1, b, 255), late);
    HearsAnnouncement(w, s3, b, o, w.cfg[o].ogmTtl - 1, b, late);
    s4 := Step(w, s3, e3);
  }

  /** A run that keeps every route at every step but step j. */
  ghost predicate RunExcept(w: World, states: seq<Net>, events: seq<Event>, j: nat) {
    IsRun(w, states, events) && forall i | 0 <= i < |events| && i != j :: KeepsRoutesAt(w, states, events, i)
  }

  lemma Extend(w: World, states: seq<Net>, events: seq<Event>, e: Event, next: Net, j: nat)
    requires RunExcept(w, states, events, j) && Leads(w, states[|events|], e, next)
    requires e.Cleanup? ==> |events| == j
    ensures RunExcept(w, states + [next], events + [e], j)
  {
    var states', events' := states + [next], events + [e];
    forall i | 0 <= i < |events'|
      ensures StepAt(w, states', events', i) && (i != j ==> KeepsRoutesAt(w, states', events', i))
    {
      if i < |events| {
        assert StepAt(w, states, events, i) && (i != j ==> KeepsRoutesAt(w, states, events, i));
      }
    }
  }

  /** One expiry is enough. In every network with another node and an OGM TTL of at least 2 there is a run,
      keeping every route at every step but one, after which the next hop of b toward o is b itself. */
  lemma ExpiryAllowsLoop(w: World, b: NodeId, o: NodeId) returns (states: seq<Net>, events: seq<Event>)
    requires b in w.cfg && o in w.cfg && b != o && w.cfg[o].ogmTtl >= 2
    ensures RunExcept(w, states, events, 2) && |events| == 4 && events[2].Cleanup?
    ensures IsRoute(states[4], o, [b, b])
  {
    var s1, s2, e0, e1 := Outward(w, b, o);
    var s3, s4, e2, e3 := Back(w, s2, b, o);
    states, events := FourSteps(w, s1, s2, s3, s4, e0, e1, e2, e3);
  }

  lemma FourSteps(w: World, s1: Net, s2: Net, s3: Net, s4: Net, e0: Event, e1: Event, e2: Event, e3: Event)
    returns (states: seq<Net>, events: seq<Event>)
    requires Leads(w, Init(w), e0, s1) && Leads(w, s1, e1, s2) && Leads(w, s2, e2, s3) && Leads(w, s3, e3, s4)
    requires !e0.Cleanup? && !e1.Cleanup? && !e3.Cleanup?
    ensures RunExcept(w, states, events, 2) && |events| == 4 && events[2] == e2 && states[4] == s4
  {
    Extend(w, [Init(w)], [], e0, s1, 2);
    Extend(w, [Init(w)] + [s1], [] + [e0], e1, s2, 2);
    Extend(w, [Init(w)] + [s1] + [s2], [] + [e0] + [e1], e2, s3, 2);
    Extend(w, [Init(w)] + [s1] + [s2] + [s3], [] + [e0] + [e1] + [e2], e3, s4, 2);
    states := [Init(w)] + [s1] + [s2] + [s3] + [s4];
    events := [] + [e0] + [e1] + [e2] + [e3];
  }

  // ------------------------------------------- runs that cannot loop

  /** Announcements of o on the air come from o itself and go no further. */
  predicate FirstHand(m: Message, o: NodeId) {
    m.Ogm? && m.origin == o ==> m.prevHop == o && m.ttl <= 1
  }

  ghost predicate DirectInv(net: Net, o: NodeId) {
    && (forall f | f in net.medium :: FirstHand(ParseFrame(f), o))
    && (forall i | HasRoute(net, i, o) :: Entry(net, i, o).bestNextHop == o)
  }

  lemma SentFirstHand(w: World, net: Net, e: Event, o: NodeId)
    requires Enabled(w, net, e) && DirectInv(net, o) && o in w.cfg && w.cfg[o].ogmTtl <= 1
    requires EffectOf(w, net, e).sent.Some?
    ensures FirstHand(ParseFrame(EffectOf(w, net, e).sent.value), o)
  {
    var n := e.node;
    match e
    case Receive(_, frame, _) =>
      var m := ParseFrame(frame);
      assert FirstHand(m, o);
      if m.Ogm? {
        OgmFrameRoundTrip(m.ttl - 1, m.origin, m.seqno, n, m.linkMetric);
      } else {
        DataFrameRoundTrip(m.flags, m.ttl - 1, m.origin, m.seqno, m.body);
      }
    case SendData(_, dest, payload) =>
      var s := NextSeqno(net.nodes[n].seqno);
      DataFrameRoundTrip(PackFlags(w.zlib, payload), w.cfg[n].ogmTtl, n, s, DataBody(w.zlib, dest, s, payload));
    case SendOgm(_) =>
      OgmFrameRoundTrip(w.cfg[n].ogmTtl, n, NextSeqno(net.nodes[n].seqno), n, 255);
  }

  lemma EntryFirstHand(w: World, net: Net, e: Event, o: NodeId, i: NodeId)
    requires Enabled(w, net, e) && DirectInv(net, o) && HasRoute(Step(w, net, e), i, o)
    ensures Entry(Step(w, net, e), i, o).bestNextHop == o
  {
    if e.Receive? {
      assert FirstHand(ParseFrame(e.frame), o);
    }
    assert HasRoute(net, i, o) ==> Entry(net, i, o).bestNextHop == o;
  }

  lemma DirectInvStep(w: World, net: Net, e: Event, o: NodeId)
    requires Enabled(w, net, e) && DirectInv(net, o) && o in w.cfg && w.cfg[o].ogmTtl <= 1
    ensures DirectInv(Step(w, net, e), o)
  {
    var net' := Step(w, net, e);
    forall f | f in net'.medium ensures FirstHand(ParseFrame(f), o) {
      if f !in net.medium {
        SentFirstHand(w, net, e, o);
      }
    }
    forall i | HasRoute(net', i, o) ensures Entry(net', i, o).bestNextHop == o {
      EntryFirstHand(w, net, e, o, i);
    }
  }

  lemma DirectInvAt(w: World, states: seq<Net>, events: seq<Event>, i: nat, o: NodeId)
    requires IsRun(w, states, events) && i < |events| && o in w.cfg && w.cfg[o].ogmTtl <= 1 && DirectInv(states[i], o)
    ensures DirectInv(states[i + 1], o)
  {
    assert StepAt(w, states, events, i);
    DirectInvStep(w, states[i], events[i], o);
  }

  lemma {:induction false} DirectInvReachable(w: World, states: seq<Net>, events: seq<Event>, k: nat, o: NodeId)
    requires IsRun(w, states, events) && k < |states| && o in w.cfg && w.cfg[o].ogmTtl <= 1
    ensures DirectInv(states[k], o)
  {
    if k > 0 {
      DirectInvReachable(w, states, events, k - 1, o);
      DirectInvAt(w, states, events, k - 1, o);
    }
  }

  /** With a TTL of 1 or less every route toward o is a single hop to o itself, whatever expires, restarts or
      wraps in the run. */
  lemma ShortTtlNeverLoops(w: World, states: seq<Net>, events: seq<Event>, k: nat, o: NodeId, path: seq<NodeId>)
    requires IsRun(w, states, events) && k < |states| && o in w.cfg && w.cfg[o].ogmTtl <= 1
    requires IsRoute(states[k], o, path)
    ensures NoRepeats(path) && |path| <= 2
  {
    DirectInvReachable(w, states, events, k, o);
    if |path| >= 2 {
      assert HasRoute(states[k], path[0], o) && path[1] == o;
    }
  }

  lemma AloneNeverLoops(w: World, states: seq<Net>, events: seq<Event>, k: nat, o: NodeId, path: seq<NodeId>)
    requires IsRun(w, states, events) && k < |states| && (forall b | b in w.cfg :: b == o)
    requires IsRoute(states[k], o, path)
    ensures |path| == 1
  {
    if k > 0 {
      assert StepAt(w, states, events, k - 1);
    }
    assert path[0] in states[k].nodes.Keys ==> path[0] == o;
  }

  /** State k of a run without restarts holds a route toward o that visits a node twice. */
  ghost predicate LoopIn(w: World, o: NodeId, states: seq<Net>, events: seq<Event>, k: nat, path: seq<NodeId>) {
    && IsRun(w, states, events) && (forall e | e in events :: !e.Restart?)
    && k < |states| && IsRoute(states[k], o, path) && !NoRepeats(path)
  }

  /** Exactly when a loop toward o is possible if entries may expire but no node restarts. */
  lemma LoopsExactlyWhen(w: World, o: NodeId)
    requires o in w.cfg
    ensures (exists states, events, k, path :: LoopIn(w, o, states, events, k, path))
       <==> (w.cfg[o].ogmTtl >= 2 && exists b :: b in w.cfg && b != o)
  {
    if w.cfg[o].ogmTtl >= 2 && exists b :: b in w.cfg && b != o {
      var b :| b in w.cfg && b != o;
      LoopWitness(w, b, o);
    } else {
      forall states, events, k: nat, path ensures !LoopIn(w, o, states, events, k, path) {
        if LoopIn(w, o, states, events, k, path) {
          if w.cfg[o].ogmTtl < 2 {
            ShortTtlNeverLoops(w, states, events, k, o, path);
          } else {
            AloneNeverLoops(w, states, events, k, o, path);
          }
        }
      }
    }
  }

  lemma LoopWitness(w: World, b: NodeId, o: NodeId)
    requires b in w.cfg && o in w.cfg && b != o && w.cfg[o].ogmTtl >= 2
    ensures exists states, events, k, path :: LoopIn(w, o, states, events, k, path)
  {
    var states, events := ExpiryAllowsLoop(w, b, o);
    forall e | e in events ensures !e.Restart? {
      var i :| 0 <= i < |events| && events[i] == e;
      assert i != 2 ==> KeepsRoutesAt(w, states, events, i);
    }
    var path := [b, b];
    assert path[0] == path[1];
    assert LoopIn(w, o, states, events, 4, path);
  }
}
