/** The three tables of the scheduler after any step, told from the settings and the world outside: when a request is
    made, what stays pending, and when a key is due again (mesh_backend.py:957-1120, 1405-1630). */
module SyncOutcomes {
  import opened Basics
  import ChannelPolicy
  import opened SyncScheduler

  /** No request under the key, or none within the channel's minimum interval; a negative one counts as 0. */
  predicate IntervalOver(s: Sched, p: ChannelPolicy.Policy, k: Key, now: real) {
    k in s.lastSync ==> now - s.lastSync[k] >= p.minInterval && now >= s.lastSync[k]
  }

  /** The link has received something within the policy's limit, if there is one. */
  predicate LinkHeard(p: ChannelPolicy.Policy, o: Outside) {
    p.requireRx <= 0.0 || o.linksUsable
  }

  /** So has the peer; one never seen counts as heard. */
  predicate PeerHeard(p: ChannelPolicy.Policy, o: Outside) {
    p.requireRx <= 0.0 || o.peerAge == None || o.peerAge.value <= p.requireRx
  }

  /** The event makes a request, and the call returns normally. A user's request for a channel that is not direct does
      not look at the peer. */
  predicate MakesRequest(settings: Settings, s: Sched, e: Event)
    requires Enabled(settings, s, e)
  {
    match e
    case ManualSync(k, _, direct, now, o) =>
      var p := settings.policy(k.channel);
      && p.enabled && !p.defer && p.lastN > 0 && IntervalOver(s, p, k, now)
      && LinkHeard(p, o) && (direct ==> PeerHeard(p, o)) && o.sendOk
    case AutoSync(peer, _, now, o) =>
      var p := settings.policy("#general");
      && p.enabled && !p.defer && IntervalOver(s, p, Key(peer, "#general"), now)
      && LinkHeard(p, o) && PeerHeard(p, o) && o.sendOk
    case DrainOne(k, now, o) =>
      var p := settings.policy(k.channel);
      && k.peer != "" && k.channel != "" && p.enabled && IntervalOver(s, p, k, now)
      && LinkHeard(p, o) && PeerHeard(p, o) && o.sendOk
    case RetryOne(k, now, o) =>
      var p := settings.policy(k.channel);
      && s.retry[k].attempts < 6 && p.enabled && !p.defer && IntervalOver(s, p, k, now)
      && LinkHeard(p, o) && PeerHeard(p, o) && o.sendOk
    case _ => false
  }

  /** Exactly when a key has a turn: it has not given up, and its due time has come. */
  lemma TurnsExactlyWhen(settings: Settings, s: Sched, k: Key, now: real, o: Outside)
    ensures Enabled(settings, s, RetryOne(k, now, o))
       <==> k in s.retry && !s.retry[k].gaveUp && now >= s.retry[k].nextDue
    ensures Enabled(settings, s, DrainOne(k, now, o)) <==> k in s.pending
  {
  }

  /** The window the event's request asks for. */
  function WindowOf(settings: Settings, s: Sched, e: Event): (n: int)
    requires Enabled(settings, s, e) && Subject(e).Some? && !e.GapRequest?
  {
    match e
    case ManualSync(k, _, _, _, _) => settings.policy(k.channel).lastN
    case AutoSync(_, _, _, _) => settings.policy("#general").lastN
    case DrainOne(k, _, _) => s.pending[k].lastN
    case RetryOne(k, _, _) => s.retry[k].lastN
  }

  lemma RetryRequests(s: Sched, p: ChannelPolicy.Policy, k: Key, now: real, o: Outside)
    requires Due(s, k, now)
    ensures var s' := Retry(s, p, k, now, o);
            if s.retry[k].attempts < 6 && p.enabled && !p.defer && IntervalOver(s, p, k, now)
               && LinkHeard(p, o) && PeerHeard(p, o) && o.sendOk
            then && s'.lastSync == s.lastSync[k := now]
                 && s'.sends == if s.retry[k].lastN > 0 then s.sends + [Sent(k, s.retry[k].dest, now)] else s.sends
            else s'.sends == s.sends && s'.lastSync == s.lastSync
  {
  }

  lemma DrainRequests(s: Sched, p: ChannelPolicy.Policy, k: Key, now: real, o: Outside)
    requires k in s.pending
    ensures var s' := Drain(s, p, k, now, o);
            if k.peer != "" && k.channel != "" && p.enabled && IntervalOver(s, p, k, now)
               && LinkHeard(p, o) && PeerHeard(p, o) && o.sendOk
            then && s'.lastSync == s.lastSync[k := now]
                 && s'.sends == if s.pending[k].lastN > 0 then s.sends + [Sent(k, s.pending[k].dest, now)] else s.sends
            else s'.sends == s.sends && s'.lastSync == s.lastSync
  {
  }

  /** Exactly when a request is made and noted, and what is transmitted: one request to the event's node, unless the
      window is empty. A gap report's range requests are noted under a key of their own. */
  lemma RequestsExactlyWhen(settings: Settings, s: Sched, e: Event)
    requires Enabled(settings, s, e)
    ensures var s' := Step(settings, s, e);
            if MakesRequest(settings, s, e) then
              var k := Subject(e).value;
              && s'.lastSync == s.lastSync[k := e.now]
              && s'.sends == if WindowOf(settings, s, e) > 0 then s.sends + [Sent(k, DestOf(s, e), e.now)] else s.sends
            else
              && s'.sends == s.sends
              && s'.lastSync == if e.GapRequest? then s.lastSync[Key(e.callsign, "__gap_range__") := e.now]
                                else s.lastSync
  {
    match e
    case ManualSync(_, _, _, _, _) =>
    case AutoSync(_, _, _, _) =>
    case DrainOne(k, now, o) => DrainRequests(s, settings.policy(k.channel), k, now, o);
    case RetryOne(k, now, o) => RetryRequests(s, settings.policy(k.channel), k, now, o);
    case GapRequest(_, _) =>
    case Applied(_, _) =>
  }

  /** Exactly what is left pending: a request past its interval in a channel that defers is kept for later, whatever
      else is in its way, and a pending one goes when it is made or its channel is disabled. */
  lemma PendingExactlyWhen(settings: Settings, s: Sched, e: Event)
    requires Enabled(settings, s, e)
    ensures Step(settings, s, e).pending
         == match e
            case ManualSync(k, dest, _, now, _) =>
              var p := settings.policy(k.channel);
              if p.enabled && p.defer && p.lastN > 0 && IntervalOver(s, p, k, now)
              then s.pending[k := Pending(dest, p.lastN)] else s.pending
            case AutoSync(peer, dest, now, _) =>
              var p, k := settings.policy("#general"), Key(peer, "#general");
              if p.enabled && p.defer && IntervalOver(s, p, k, now)
              then s.pending[k := Pending(dest, p.lastN)] else s.pending
            case DrainOne(k, _, _) =>
              var off := !settings.policy(k.channel).enabled;
              if k.peer != "" && k.channel != "" && (off || MakesRequest(settings, s, e))
              then s.pending - {k} else s.pending
            case RetryOne(k, now, _) =>
              var p, st := settings.policy(k.channel), s.retry[k];
              if st.attempts < 6 && p.enabled && p.defer && IntervalOver(s, p, k, now)
              then s.pending[k := Pending(st.dest, st.lastN)] else s.pending
            case _ => s.pending
  {
    match e
    case ManualSync(_, _, _, _, _) =>
    case AutoSync(_, _, _, _) =>
    case DrainOne(_, _, _) =>
    case RetryOne(_, _, _) =>
    case GapRequest(_, _) =>
    case Applied(_, _) =>
  }

  /** The wait before the next turn: 5, 10, 20, 40, 80 or 120 seconds by the requests made so far, and the jitter. */
  function Wait(st: RetryState, channel: string): (r: real) {
    (if st.attempts >= 5 then 120.0 else [5.0, 10.0, 20.0, 40.0, 80.0][st.attempts])
      + Jitter(st.dest, channel) as real / 1000.0
  }

  lemma WaitIsBackoff(st: RetryState, channel: string)
    ensures Backoff(st.dest, channel, st.attempts) == Wait(st, channel)
  {
    DelayTable(st.attempts);
  }

  /** When a retry state is due again after its turn, in the order of its gates: never once it gives up; when the
      interval is over; after 1.5 times the wait where the peer was last heard within twice the limit, and twice the
      wait where it was not; after the wait where the link or the policy holds it back; and after the next longer wait
      if a request was made. */
  function AfterTurn(s: Sched, p: ChannelPolicy.Policy, k: Key, now: real, o: Outside): (st': RetryState)
    requires k in s.retry
  {
    var st := s.retry[k];
    if st.attempts >= 6 || !p.enabled then st.(gaveUp := true)
    else if !IntervalOver(s, p, k, now) then
      st.(nextDue := s.lastSync[k] + if p.minInterval > 0.0 then p.minInterval else 0.0)
    else if LinkHeard(p, o) && !PeerHeard(p, o) then
      st.(nextDue := now + Wait(st, k.channel) * if o.peerAge.value <= 2.0 * p.requireRx then 1.5 else 2.0)
    else if !LinkHeard(p, o) || p.defer then st.(nextDue := now + Wait(st, k.channel))
    else
      var again := st.(attempts := st.attempts + 1, lastSend := now);
      again.(nextDue := now + Wait(again, k.channel))
  }

  lemma RetryTurn(s: Sched, p: ChannelPolicy.Policy, k: Key, now: real, o: Outside)
    requires Due(s, k, now)
    ensures Retry(s, p, k, now, o).retry == s.retry[k := AfterTurn(s, p, k, now, o)]
  {
    var st := s.retry[k];
    WaitIsBackoff(st, k.channel);
    WaitIsBackoff(st.(attempts := st.attempts + 1, lastSend := now), k.channel);
    PeerWait(p, st, k.channel, o);
  }

  lemma PeerWait(p: ChannelPolicy.Policy, st: RetryState, channel: string, o: Outside)
    ensures PeerBlocked(p, o) <==> !PeerHeard(p, o)
    ensures PeerBlocked(p, o) ==> PeerDelay(p, st.dest, channel, st.attempts, o)
                                  == Wait(st, channel) * if o.peerAge.value <= 2.0 * p.requireRx then 1.5 else 2.0
  {
    WaitIsBackoff(st, channel);
  }

  /** Exactly what the retry table holds after any step. A request made outside the retry loop starts its key's count
      afresh, due at once; an applied response drops the states of its channel. */
  lemma RetriesExactlyWhen(settings: Settings, s: Sched, e: Event)
    requires Enabled(settings, s, e)
    ensures var s' := Step(settings, s, e);
            if e.RetryOne? then
              s'.retry == s.retry[e.key := AfterTurn(s, settings.policy(e.key.channel), e.key, e.now, e.outside)]
            else if e.Applied? then
              && (forall k :: k in s'.retry <==> k in s.retry && k.channel != e.channel)
              && (forall k | k in s'.retry :: s'.retry[k] == s.retry[k])
            else if MakesRequest(settings, s, e) then
              var k := Subject(e).value;
              var lastSend := if k in s.retry then s.retry[k].lastSend else 0.0;
              s'.retry == s.retry[k := RetryState(DestOf(s, e), WindowOf(settings, s, e), 0, e.now, lastSend, false)]
            else s'.retry == s.retry
  {
    match e
    case ManualSync(_, _, _, _, _) =>
    case AutoSync(_, _, _, _) =>
    case DrainOne(_, _, _) =>
    case RetryOne(k, now, o) => RetryTurn(s, settings.policy(k.channel), k, now, o);
    case GapRequest(_, _) =>
    case Applied(_, _) =>
  }
}
