/** The backend object that holds the scheduler's tables (mesh_backend.py). Each handler is proved to have the
    effect of the corresponding step; the drain and retry loops, that of one step per entry. */
module SyncBackend {
  import opened Basics
  import opened Bytes
  import opened SyncScheduler
  import GapText
  import GapRequests

  /** `targeted_sync_*` settings. */
  datatype Targeted = Targeted(enabled: bool, mergeDistance: int, maxRangeLen: int, maxRequests: int)

  predicate Distinct(ks: seq<Key>) {
    forall i, j | 0 <= i < j < |ks| :: ks[i] != ks[j]
  }

  /** `_drain_pending_sync` over its snapshot of the pending table. */
  function DrainAll(settings: Settings, s: Sched, ks: seq<Key>, now: real, o: Key -> Outside): (s': Sched)
    requires Distinct(ks) && forall k | k in ks :: k in s.pending
    decreases |ks|
  {
    if ks == [] then s else
    DrainLeavesOthers(settings, s, ks, now, o);
    DrainAll(settings, Drain(s, settings.policy(ks[0].channel), ks[0], now, o(ks[0])), ks[1..], now, o)
  }

  lemma DrainLeavesOthers(settings: Settings, s: Sched, ks: seq<Key>, now: real, o: Key -> Outside)
    requires ks != [] && Distinct(ks) && forall k | k in ks :: k in s.pending
    ensures Distinct(ks[1..])
    ensures forall k | k in ks[1..] :: k in Drain(s, settings.policy(ks[0].channel), ks[0], now, o(ks[0])).pending
  {
  }

  /** The last entry is drained after all others, and is still pending then. */
  lemma {:induction false} DrainLast(settings: Settings, s: Sched, ks: seq<Key>, k: Key, now: real, o: Key -> Outside)
    requires Distinct(ks + [k]) && k in s.pending && forall j | j in ks + [k] :: j in s.pending
    ensures Distinct(ks) && k in DrainAll(settings, s, ks, now, o).pending
    ensures DrainAll(settings, s, ks + [k], now, o)
         == Drain(DrainAll(settings, s, ks, now, o), settings.policy(k.channel), k, now, o(k))
    decreases |ks|
  {
    var all := ks + [k];
    DistinctFront(ks, k);
    DrainLeavesOthers(settings, s, all, now, o);
    if ks == [] {
      assert all[1..] == [];
    } else {
      var next := Drain(s, settings.policy(ks[0].channel), ks[0], now, o(ks[0]));
      assert all[0] == ks[0] && all[1..] == ks[1..] + [k];
      DrainLast(settings, next, ks[1..], k, now, o);
    }
  }

  lemma DistinctFront(ks: seq<Key>, k: Key)
    requires Distinct(ks + [k])
    ensures Distinct(ks) && k !in ks
  {
    var all := ks + [k];
    assert forall i | 0 <= i < |ks| :: all[i] == ks[i];
    assert all[|ks|] == k;
  }

  /** The states of `_sync_retry_loop` found due, in turn. */
  function RetryAll(settings: Settings, s: Sched, due: seq<Key>, now: real, o: Key -> Outside): (s': Sched)
    requires Distinct(due) && forall k | k in due :: Due(s, k, now)
    decreases |due|
  {
    if due == [] then s else
    RetryLeavesOthers(settings, s, due, now, o);
    RetryAll(settings, Retry(s, settings.policy(due[0].channel), due[0], now, o(due[0])), due[1..], now, o)
  }

  lemma RetryLeavesOthers(settings: Settings, s: Sched, due: seq<Key>, now: real, o: Key -> Outside)
    requires due != [] && Distinct(due) && forall k | k in due :: Due(s, k, now)
    ensures Distinct(due[1..])
    ensures forall k | k in due[1..] :: Due(Retry(s, settings.policy(due[0].channel), due[0], now, o(due[0])), k, now)
  {
    var s' := Retry(s, settings.policy(due[0].channel), due[0], now, o(due[0]));
    forall k | k in due[1..] ensures Due(s', k, now) {
      var i :| 0 <= i < |due[1..]| && due[1..][i] == k;
      assert due[i + 1] == k && k != due[0] && Due(s, k, now);
    }
  }

  /** The last due state has its turn after all others, and is still due then. */
  lemma {:induction false} RetryLast(settings: Settings, s: Sched, due: seq<Key>, k: Key, now: real,
                                     o: Key -> Outside)
    requires Distinct(due + [k]) && Due(s, k, now) && forall j | j in due + [k] :: Due(s, j, now)
    ensures Distinct(due) && Due(RetryAll(settings, s, due, now, o), k, now)
    ensures RetryAll(settings, s, due + [k], now, o)
         == Retry(RetryAll(settings, s, due, now, o), settings.policy(k.channel), k, now, o(k))
    decreases |due|
  {
    var all := due + [k];
    DistinctFront(due, k);
    RetryLeavesOthers(settings, s, all, now, o);
    if due == [] {
      assert all[1..] == [];
    } else {
      var next := Retry(s, settings.policy(due[0].channel), due[0], now, o(due[0]));
      assert all[0] == due[0] && all[1..] == due[1..] + [k];
      RetryLast(settings, next, due[1..], k, now, o);
    }
  }

  /** The first n, or all of them. */
  function Take(rs: seq<GapText.Range>, n: nat): (r: seq<GapText.Range>)
    ensures r <= rs && (|r| == n || (|r| == |rs| && |rs| < n))
  {
    if |rs| <= n then rs else rs[..n]
  }

  lemma {:induction false} ListedIsProper(rs: seq<GapText.Range>)
    requires forall r | r in rs :: r.start <= r.end
    ensures GapRequests.Proper(rs)
  {
    if rs != [] {
      assert rs[0] in rs;
      ListedIsProper(rs[1..]);
    }
  }

  /** Whom a user's sync request asks: the peer a direct channel is named after, or the default peer. */
  datatype Target = Target(key: Key, dest: Bytes, direct: bool)

  /** How a request finds its target; None covers the two "cannot sync" returns. */
  function FindTarget(settings: Settings, channel: string, discovered: map<string, Bytes>): (t: Option<Target>)
    ensures t.Some? ==> t.value.key.channel == channel && t.value.direct == IsDirect(channel)
                        && IsTarget(settings, t.value.key, t.value.dest)
    ensures if |channel| > 1 && channel[0] == '@'
            then t == if channel[1..] !in discovered then None
                      else Some(Target(Key(channel[1..], channel), discovered[channel[1..]], true))
            else t == if settings.defaultPeer.None? then None
                      else Some(Target(Key(settings.defaultPeer.value.nick, channel), settings.defaultPeer.value.id,
                                       false))
  {
    if IsDirect(channel) then
      var callsign := channel[1..];
      if callsign in discovered then Some(Target(Key(callsign, channel), discovered[callsign], true)) else None
    else
      match settings.defaultPeer
      case None => None
      case Some(peer) => Some(Target(Key(peer.nick, channel), peer.id, false))
  }

  class Backend {
    const settings: Settings
    const targeted: Targeted
    /** `sync_auto_sync_on_new_peer`. */
    const autoSync: bool
    /** node_mode is "full". */
    const full: bool
    var retry: map<Key, RetryState>
    var pending: map<Key, Pending>
    var lastSync: map<Key, real>
    ghost var sends: seq<Sent>

    ghost function State(): Sched
      reads this
    {
      Sched(retry, pending, lastSync, sends)
    }

    constructor (settings: Settings, targeted: Targeted, autoSync: bool, full: bool)
      ensures State() == IDLE
      ensures this.settings == settings && this.targeted == targeted && this.autoSync == autoSync
      ensures this.full == full
    {
      this.settings, this.targeted, this.autoSync := settings, targeted, autoSync;
      this.full := full;
      retry, pending, lastSync, sends := map[], map[], map[], [];
    }

    method EnqueuePendingSync(k: Key, dest: Bytes, lastN: int)
      modifies this
      ensures State() == Enqueue(old(State()), k, dest, lastN)
    {
      pending := pending[k := Pending(dest, lastN)];
    }

    method ScheduleSyncRetry(k: Key, dest: Bytes, lastN: int, now: real)
      modifies this
      ensures State() == if full then Schedule(old(State()), k, dest, lastN, now) else old(State())
    {
      if !full {
        return;
      }
      if k !in retry {
        retry := retry[k := RetryState(dest, lastN, 0, now, 0.0, false)];
      } else {
        var st := retry[k];
        retry := retry[k := st.(dest := dest, lastN := lastN, attempts := 0, gaveUp := false, nextDue := now)];
      }
    }

    method ClearSyncRetriesForChannel(channel: string)
      modifies this
      ensures State() == Clear(old(State()), channel)
    {
      var toDel := set k | k in retry && k.channel == channel;
      retry := retry - toDel;
      assert retry == Clear(old(State()), channel).retry;
    }

    /** The sending tail shared by every path: note the time, then schedule retries. */
    method SendAndSchedule(k: Key, dest: Bytes, lastN: int, now: real, sendOk: bool)
      requires full
      modifies this
      ensures State() == Request(old(State()), k, dest, lastN, now, Outside(true, None, sendOk))
    {
      if sendOk {
        lastSync := lastSync[k := now];
        if lastN > 0 {
          sends := sends + [Sent(k, dest, now)];
        }
        ScheduleSyncRetry(k, dest, lastN, now);
      }
    }

    method IsCooling(k: Key, now: real) returns (b: bool)
      ensures b == Cooling(State(), settings.policy(k.channel), k, now)
    {
      b := k in lastSync && now - lastSync[k] < Interval(settings.policy(k.channel));
    }

    /** `request_sync_for_channel`; `discovered` is the table of known nodes. */
    method RequestSyncForChannel(channel: string, discovered: map<string, Bytes>, now: real, o: Outside)
      modifies this
      ensures var t := FindTarget(settings, channel, discovered);
              State() == if full && t.Some?
                         then Manual(old(State()), settings.policy(channel), t.value.key, t.value.dest, t.value.direct,
                                     now, o)
                         else old(State())
    {
      var p := settings.policy(channel);
      if !full || !p.enabled || p.lastN <= 0 {
        return;
      }
      if |channel| > 1 && channel[0] == '@' {
        var callsign := channel[1..];
        if callsign !in discovered {
          return;
        }
        RequestSyncFrom(Key(callsign, channel), discovered[callsign], true, now, o);
      } else {
        if settings.defaultPeer.None? {
          return;
        }
        var peer := settings.defaultPeer.value;
        RequestSyncFrom(Key(peer.nick, channel), peer.id, false, now, o);
      }
    }

    /** The rest of a user's request, once the peer is resolved. */
    method RequestSyncFrom(k: Key, dest: Bytes, direct: bool, now: real, o: Outside)
      requires full && settings.policy(k.channel).enabled && settings.policy(k.channel).lastN > 0
      modifies this
      ensures State() == Manual(old(State()), settings.policy(k.channel), k, dest, direct, now, o)
    {
      var p := settings.policy(k.channel);
      var cooling := IsCooling(k, now);
      if cooling {
        return;
      }
      if p.requireRx > 0.0 && !o.linksUsable {
        if p.defer {
          EnqueuePendingSync(k, dest, p.lastN);
        }
        return;
      }
      if direct && !PeerGate(o.peerAge, p.requireRx).0 {
        if p.defer {
          EnqueuePendingSync(k, dest, p.lastN);
        }
        return;
      }
      if p.defer {
        EnqueuePendingSync(k, dest, p.lastN);
        return;
      }
      SendAndSchedule(k, dest, p.lastN, now, o.sendOk);
    }

    /** The auto-sync part of `_nodes_loop`, for one new peer. */
    method AutoSyncNewPeer(peer: string, discovered: map<string, Bytes>, now: real, o: Outside)
      modifies this
      ensures State() == if full && autoSync && peer in discovered
                         then Auto(old(State()), settings.policy(GENERAL), peer, discovered[peer], now, o)
                         else old(State())
    {
      var p, k := settings.policy(GENERAL), Key(peer, GENERAL);
      if !full || !autoSync || !p.enabled || peer !in discovered {
        return;
      }
      var dest := discovered[peer];
      var cooling := IsCooling(k, now);
      if cooling {
        return;
      }
      if p.requireRx > 0.0 && !o.linksUsable {
        if p.defer {
          EnqueuePendingSync(k, dest, p.lastN);
        }
        return;
      }
      if !PeerGate(o.peerAge, p.requireRx).0 {
        if p.defer {
          EnqueuePendingSync(k, dest, p.lastN);
        }
        return;
      }
      if p.defer {
        EnqueuePendingSync(k, dest, p.lastN);
        return;
      }
      SendAndSchedule(k, dest, p.lastN, now, o.sendOk);
    }

    method DrainItem(k: Key, now: real, o: Outside)
      requires full && k in pending
      modifies this
      ensures State() == Drain(old(State()), settings.policy(k.channel), k, now, o)
    {
      var p, item := settings.policy(k.channel), pending[k];
      if k.peer == "" || k.channel == "" {
        return;
      }
      if !p.enabled {
        pending := pending - {k};
        return;
      }
      var cooling := IsCooling(k, now);
      if cooling {
        return;
      }
      if p.requireRx > 0.0 {
        if !o.linksUsable {
          return;
        }
        if !PeerGate(o.peerAge, p.requireRx).0 {
          return;
        }
      }
      if o.sendOk {
        SendAndSchedule(k, item.dest, item.lastN, now, true);
        pending := pending - {k};
      }
    }

    /** `_drain_pending_sync`; `items` is the snapshot of the pending keys, in table order. */
    method DrainPendingSync(items: seq<Key>, now: real, o: Key -> Outside)
      requires full && Distinct(items) && forall k :: k in items <==> k in pending
      modifies this
      ensures State() == DrainAll(settings, old(State()), items, now, o)
    {
      var rest := items;
      while rest != []
        invariant Distinct(rest) && forall k | k in rest :: k in pending
        invariant DrainAll(settings, State(), rest, now, o) == DrainAll(settings, old(State()), items, now, o)
        decreases |rest|
      {
        DrainLeavesOthers(settings, State(), rest, now, o);
        DrainItem(rest[0], now, o(rest[0]));
        rest := rest[1..];
      }
    }

    /** Put a retry off, keeping the request pending where the policy defers. */
    method PostponeRetry(k: Key, due: real, defer: bool)
      requires k in retry
      modifies this
      ensures var before, st := old(State()), old(retry)[k];
              State() == Postponed(if defer then Enqueue(before, k, st.dest, st.lastN) else before, k, due)
    {
      var st := retry[k];
      if defer {
        EnqueuePendingSync(k, st.dest, st.lastN);
      }
      retry := retry[k := st.(nextDue := due)];
    }

    /** Ask again; a call that raises still counts as an attempt. */
    method SendRetry(k: Key, now: real, o: Outside)
      requires Tries(State(), settings.policy(k.channel), k, now, o)
      modifies this
      ensures State() == Retry(old(State()), settings.policy(k.channel), k, now, o)
    {
      var st := retry[k];
      if o.sendOk {
        lastSync := lastSync[k := now];
        if st.lastN > 0 {
          sends := sends + [Sent(k, st.dest, now)];
        }
      }
      var n := st.attempts + 1;
      retry := retry[k := st.(lastSend := now, attempts := n, nextDue := now + Backoff(st.dest, k.channel, n))];
    }

    /** Put a retry off at the peer gate, with a longer backoff. */
    method PeerGateRetry(k: Key, now: real, o: Outside)
      requires Due(State(), k, now) && retry[k].attempts < MAX_ATTEMPTS
      requires settings.policy(k.channel).enabled && !Cooling(State(), settings.policy(k.channel), k, now)
      requires !LinkBlocked(settings.policy(k.channel), o) && PeerBlocked(settings.policy(k.channel), o)
      modifies this
      ensures State() == Retry(old(State()), settings.policy(k.channel), k, now, o)
    {
      var p, st := settings.policy(k.channel), retry[k];
      var due := now + PeerDelay(p, st.dest, k.channel, st.attempts, o);
      assert Retry(State(), p, k, now, o)
          == Postponed(if p.defer then Enqueue(State(), k, st.dest, st.lastN) else State(), k, due);
      PostponeRetry(k, due, p.defer);
    }

    /** The gates on the link, on the peer and on deferral, for a state past the earlier gates. */
    method RetryOpen(k: Key, now: real, o: Outside)
      requires full && Due(State(), k, now) && retry[k].attempts < MAX_ATTEMPTS
      requires settings.policy(k.channel).enabled && !Cooling(State(), settings.policy(k.channel), k, now)
      modifies this
      ensures State() == Retry(old(State()), settings.policy(k.channel), k, now, o)
    {
      var p, st := settings.policy(k.channel), retry[k];
      var delay := Backoff(st.dest, k.channel, st.attempts);
      if p.requireRx > 0.0 && !o.linksUsable {
        PostponeRetry(k, now + delay, p.defer);
        return;
      }
      if p.requireRx > 0.0 {
        if !PeerGate(o.peerAge, p.requireRx).0 {
          PeerGateRetry(k, now, o);
          return;
        }
      }
      if p.defer {
        PostponeRetry(k, now + delay, true);
        return;
      }
      SendRetry(k, now, o);
    }

    method RetryItem(k: Key, now: real, o: Outside)
      requires full && Due(State(), k, now)
      modifies this
      ensures State() == Retry(old(State()), settings.policy(k.channel), k, now, o)
    {
      var p, st := settings.policy(k.channel), retry[k];
      if st.attempts >= MAX_ATTEMPTS {
        retry := retry[k := st.(gaveUp := true)];
        return;
      }
      if !p.enabled {
        retry := retry[k := st.(gaveUp := true)];
        return;
      }
      var cooling := IsCooling(k, now);
      if cooling {
        PostponeRetry(k, lastSync[k] + Interval(p), false);
        return;
      }
      RetryOpen(k, now, o);
    }

    /** The retry half of one pass of `_sync_retry_loop`; `due` lists the states found due. */
    method RetryDue(due: seq<Key>, now: real, o: Key -> Outside)
      requires full && Distinct(due) && forall k :: k in due <==> Due(State(), k, now)
      modifies this
      ensures State() == RetryAll(settings, old(State()), due, now, o)
    {
      var rest := due;
      while rest != []
        invariant Distinct(rest) && forall k | k in rest :: Due(State(), k, now)
        invariant RetryAll(settings, State(), rest, now, o) == RetryAll(settings, old(State()), due, now, o)
        decreases |rest|
      {
        RetryLeavesOthers(settings, State(), rest, now, o);
        assert Due(State(), rest[0], now);
        RetryItem(rest[0], now, o(rest[0]));
        rest := rest[1..];
      }
    }

    /** `_on_gap_report`: the range requests sent to the peer the line names, which is also their origin.
        `accepted` is how many calls return normally before one raises. */
    method OnGapReport(text: string, discovered: map<string, Bytes>, now: real, accepted: nat)
      returns (dest: Option<Bytes>, sent: seq<GapText.Range>)
      modifies this
      ensures retry == old(retry) && pending == old(pending) && sends == old(sends)
      ensures var r := GapText.ParseLine(text);
              var acts := full && settings.policy(GENERAL).enabled && targeted.enabled
                          && r.Some? && r.value.callsign in discovered
                          && !Cooling(old(State()), settings.policy(GENERAL), Key(r.value.callsign, GAP_RANGE), now);
              if !acts then dest == None && sent == [] && lastSync == old(lastSync)
              else
                var plan := GapRequests.Plan(r.value.ranges, targeted.mergeDistance, targeted.maxRangeLen,
                                             targeted.maxRequests);
                && dest == Some(discovered[r.value.callsign]) && sent == Take(plan, accepted)
                && lastSync == (if accepted < |plan| then old(lastSync)
                                else old(lastSync)[Key(r.value.callsign, GAP_RANGE) := now])
    {
      dest, sent := None, [];
      if !full || !settings.policy(GENERAL).enabled {
        return;
      }
      var r := GapText.ParseLine(text);
      if r.None? || r.value.callsign !in discovered || !targeted.enabled {
        return;
      }
      var k := Key(r.value.callsign, GAP_RANGE);
      if k in lastSync && now - lastSync[k] < Interval(settings.policy(GENERAL)) {
        return;
      }
      ListedIsProper(r.value.ranges);
      var plan := GapRequests.PlanRequests(r.value.ranges, targeted.mergeDistance, targeted.maxRangeLen,
                                           targeted.maxRequests);
      dest, sent := Some(discovered[r.value.callsign]), Take(plan, accepted);
      if accepted >= |plan| {
        lastSync := lastSync[k := now];
      }
    }
  }
}
