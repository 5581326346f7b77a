/** When last-N sync requests are sent (mesh_backend.py:941-1120, 1392-1630): cooldown, deferral and the bounded
    retry scheduler. Handlers are atomic steps; the clock is the `now` of each event. */
module SyncScheduler {
  import opened Basics
  import opened Bytes
  import opened ChannelPolicy

  datatype Key = Key(peer: string, channel: string)

  datatype RetryState = RetryState(dest: Bytes, lastN: int, attempts: nat, nextDue: real, lastSend: real, gaveUp: bool)
  datatype Pending = Pending(dest: Bytes, lastN: int)

  /** One last-N request transmitted to the node `dest`. */
  datatype Sent = Sent(key: Key, dest: Bytes, at: real)

  /** `sends` is history. */
  datatype Sched = Sched(
    retry: map<Key, RetryState>,
    pending: map<Key, Pending>,
    lastSync: map<Key, real>,
    sends: seq<Sent>)

  const IDLE := Sched(map[], map[], map[], [])
  const GENERAL: string := "#general"
  const GAP_RANGE: string := "__gap_range__"
  const MAX_ATTEMPTS := 6

  /** What a handler finds outside: whether link metrics count as recent, how long ago the peer was last seen
      (None when unknown), and whether the send call returns normally. */
  datatype Outside = Outside(linksUsable: bool, peerAge: Option<real>, sendOk: bool)

  /** Nothing gets in the way. */
  const OPEN := Outside(true, None, true)

  datatype Peer = Peer(nick: string, id: Bytes)

  /** Fixed while the program runs: the resolved policy of each channel, and the default peer, if it is configured. */
  datatype Settings = Settings(policy: string -> Policy, defaultPeer: Option<Peer>)

  /** `_evaluate_peer_policy_gate`: whether the peer may be asked, and the backoff multiplier. */
  function PeerGate(peerAge: Option<real>, requireRx: real): (r: (bool, real))
    ensures r.1 >= 1.0
  {
    if requireRx <= 0.0 || peerAge.None? || peerAge.value <= requireRx then (true, 1.0)
    else if peerAge.value <= requireRx * 2.0 then (false, 1.5)
    else (false, 2.0)
  }

  /** `_policy_min_interval`. */
  function Interval(p: Policy): (r: real)
    ensures r >= 0.0
  {
    Floor(p.minInterval)
  }

  predicate LinkBlocked(p: Policy, o: Outside) { p.requireRx > 0.0 && !o.linksUsable }
  predicate PeerBlocked(p: Policy, o: Outside) { !PeerGate(o.peerAge, p.requireRx).0 }

  function Pow2(n: nat): (r: real)
    ensures r >= 1.0
  {
    if n == 0 then 1.0 else 2.0 * Pow2(n - 1)
  }

  /** 5 s * 2^attempts, at most 120 s. */
  function BaseDelay(attempts: nat): (r: real)
    ensures 5.0 <= r <= 120.0
  {
    if 5.0 * Pow2(attempts) > 120.0 then 120.0 else 5.0 * Pow2(attempts)
  }

  /** 5, 10, 20, 40, 80 and then 120 seconds: each the smaller of 120 and twice the one before. */
  lemma DelayTable(n: nat)
    ensures BaseDelay(0) == 5.0 && BaseDelay(1) == 10.0 && BaseDelay(2) == 20.0 && BaseDelay(3) == 40.0
    ensures BaseDelay(4) == 80.0 && (n >= 5 ==> BaseDelay(n) == 120.0)
    ensures BaseDelay(n + 1) == if 2.0 * BaseDelay(n) > 120.0 then 120.0 else 2.0 * BaseDelay(n)
  {
    assert Pow2(2) == 4.0 && Pow2(3) == 8.0 && Pow2(4) == 16.0 && Pow2(5) == 32.0;
    Pow2Grows(n);
  }

  lemma {:induction false} Pow2Grows(n: nat)
    ensures n >= 5 ==> Pow2(n) >= 32.0
  {
    if n > 5 {
      Pow2Grows(n - 1);
    } else if n == 5 {
      assert Pow2(2) == 4.0 && Pow2(4) == 16.0;
    }
  }

  function ByteSum(b: Bytes): nat {
    if b == [] then 0 else b[0] + ByteSum(b[1..])
  }

  function CharSum(s: string): nat {
    if s == "" then 0 else s[0] as int + CharSum(s[1..])
  }

  /** The deterministic jitter in milliseconds (channel names in ASCII). */
  function Jitter(dest: Bytes, channel: string): (ms: nat)
    ensures ms < 1000
  {
    (ByteSum(dest) + CharSum(channel)) % 1000
  }

  /** Every byte of the node id and of the channel name adds its value, modulo one second. */
  lemma JitterAdds(dest: Bytes, channel: string, b: byte, c: char)
    ensures Jitter([], "") == 0
    ensures Jitter([b] + dest, channel) == (b + Jitter(dest, channel)) % 1000
    ensures Jitter(dest, [c] + channel) == (c as int + Jitter(dest, channel)) % 1000
  {
    assert ([b] + dest)[1..] == dest && ([c] + channel)[1..] == channel;
  }

  /** `_compute_backoff_seconds`. */
  function Backoff(dest: Bytes, channel: string, attempts: nat): (r: real)
    ensures BaseDelay(attempts) <= r < BaseDelay(attempts) + 1.0
  {
    BaseDelay(attempts) + Jitter(dest, channel) as real / 1000.0
  }

  /** The longer backoff at the peer gate. */
  function PeerDelay(p: Policy, dest: Bytes, channel: string, attempts: nat, o: Outside): (r: real)
    ensures r >= 0.0
  {
    DelayGrows(Backoff(dest, channel, attempts), PeerGate(o.peerAge, p.requireRx).1);
    Backoff(dest, channel, attempts) * PeerGate(o.peerAge, p.requireRx).1
  }

  lemma DelayGrows(delay: real, mult: real)
    requires delay >= 0.0 && mult >= 1.0
    ensures delay * mult >= 0.0
  {
  }

  // -------------------------------------------------------------- steps

  predicate Cooling(s: Sched, p: Policy, k: Key, now: real) {
    k in s.lastSync && now - s.lastSync[k] < Interval(p)
  }

  function Enqueue(s: Sched, k: Key, dest: Bytes, lastN: int): Sched {
    s.(pending := s.pending[k := Pending(dest, lastN)])
  }

  /** `_schedule_sync_retry`. */
  function Schedule(s: Sched, k: Key, dest: Bytes, lastN: int, now: real): Sched {
    var lastSend := if k in s.retry then s.retry[k].lastSend else 0.0;
    s.(retry := s.retry[k := RetryState(dest, lastN, 0, now, lastSend, false)])
  }

  /** A `request_sync_last_n` call that returned normally. With no window it transmits nothing
      (chat_client.py:716-717), but the time is noted all the same. */
  function Recorded(s: Sched, k: Key, dest: Bytes, lastN: int, now: real): Sched {
    s.(lastSync := s.lastSync[k := now], sends := if lastN > 0 then s.sends + [Sent(k, dest, now)] else s.sends)
  }

  /** A first request: send, note the time, schedule retries; nothing happens if the send raises. */
  function Request(s: Sched, k: Key, dest: Bytes, lastN: int, now: real, o: Outside): Sched {
    if o.sendOk then Schedule(Recorded(s, k, dest, lastN, now), k, dest, lastN, now) else s
  }

  function Deferred(s: Sched, p: Policy, k: Key, dest: Bytes): Sched {
    if p.defer then Enqueue(s, k, dest, p.lastN) else s
  }

  /** `request_sync_for_channel` once the peer is resolved; only direct messages consult the peer gate. */
  function Manual(s: Sched, p: Policy, k: Key, dest: Bytes, direct: bool, now: real, o: Outside): Sched {
    if !p.enabled || p.lastN <= 0 || Cooling(s, p, k, now) then s
    else if LinkBlocked(p, o) || (direct && PeerBlocked(p, o)) || p.defer then Deferred(s, p, k, dest)
    else Request(s, k, dest, p.lastN, now, o)
  }

  /** The auto-sync part of `_nodes_loop` for one new peer. */
  function Auto(s: Sched, p: Policy, peer: string, dest: Bytes, now: real, o: Outside): Sched {
    var k := Key(peer, GENERAL);
    if !p.enabled || Cooling(s, p, k, now) then s
    else if LinkBlocked(p, o) || PeerBlocked(p, o) || p.defer then Deferred(s, p, k, dest)
    else Request(s, k, dest, p.lastN, now, o)
  }

  /** One item of `_drain_pending_sync`. */
  function Drain(s: Sched, p: Policy, k: Key, now: real, o: Outside): Sched
    requires k in s.pending
  {
    var item := s.pending[k];
    if k.peer == "" || k.channel == "" then s
    else if !p.enabled then s.(pending := s.pending - {k})
    else if Cooling(s, p, k, now) || LinkBlocked(p, o) || PeerBlocked(p, o) then s
    else if !o.sendOk then s
    else
      var sent := Request(s, k, item.dest, item.lastN, now, o);
      sent.(pending := sent.pending - {k})
  }

  predicate Due(s: Sched, k: Key, now: real) {
    k in s.retry && !s.retry[k].gaveUp && s.retry[k].nextDue <= now
  }

  /** The retry loop gets as far as calling `request_sync_last_n`. */
  predicate Tries(s: Sched, p: Policy, k: Key, now: real, o: Outside) {
    && Due(s, k, now) && s.retry[k].attempts < MAX_ATTEMPTS && p.enabled && !Cooling(s, p, k, now)
    && !LinkBlocked(p, o) && !PeerBlocked(p, o) && !p.defer
  }

  function Postponed(s: Sched, k: Key, due: real): Sched
    requires k in s.retry
  {
    s.(retry := s.retry[k := s.retry[k].(nextDue := due)])
  }

  /** One due state of `_sync_retry_loop`. */
  function Retry(s: Sched, p: Policy, k: Key, now: real, o: Outside): Sched
    requires Due(s, k, now)
  {
    var st := s.retry[k];
    var delay := Backoff(st.dest, k.channel, st.attempts);
    var waiting := if p.defer then Enqueue(s, k, st.dest, st.lastN) else s;
    if st.attempts >= MAX_ATTEMPTS || !p.enabled then s.(retry := s.retry[k := st.(gaveUp := true)])
    else if Cooling(s, p, k, now) then Postponed(s, k, s.lastSync[k] + Interval(p))
    else if LinkBlocked(p, o) then Postponed(waiting, k, now + delay)
    else if PeerBlocked(p, o) then Postponed(waiting, k, now + PeerDelay(p, st.dest, k.channel, st.attempts, o))
    else if p.defer then Postponed(waiting, k, now + delay)
    else
      var sent := if o.sendOk then Recorded(s, k, st.dest, st.lastN, now) else s;
      var n := st.attempts + 1;
      var due := now + Backoff(st.dest, k.channel, n);
      sent.(retry := sent.retry[k := st.(attempts := n, lastSend := now, nextDue := due)])
  }

  /** `_clear_sync_retries_for_channel`. */
  function Clear(s: Sched, channel: string): Sched {
    s.(retry := map k | k in s.retry && k.channel != channel :: s.retry[k])
  }

  datatype Event =
    | ManualSync(key: Key, dest: Bytes, direct: bool, now: real, outside: Outside)
    | AutoSync(peer: string, dest: Bytes, now: real, outside: Outside)
    | DrainOne(key: Key, now: real, outside: Outside)
    | RetryOne(key: Key, now: real, outside: Outside)
    | GapRequest(callsign: string, now: real)
    | Applied(channel: string, now: real)

  /** The cooldown key the event is about. */
  function Subject(e: Event): (k: Option<Key>) {
    match e
    case AutoSync(peer, _, _, _) => Some(Key(peer, GENERAL))
    case GapRequest(callsign, _) => Some(Key(callsign, GAP_RANGE))
    case Applied(_, _) => None
    case ManualSync(k, _, _, _, _) => Some(k)
    case DrainOne(k, _, _) => Some(k)
    case RetryOne(k, _, _) => Some(k)
  }

  predicate IsDirect(channel: string) { |channel| > 1 && channel[0] == '@' }

  /** The key and node of a user's request for a channel: the peer a direct channel is named after, or the default
      peer. */
  predicate IsTarget(settings: Settings, k: Key, dest: Bytes) {
    if IsDirect(k.channel) then k.peer == k.channel[1..] else settings.defaultPeer == Some(Peer(k.peer, dest))
  }

  predicate Enabled(settings: Settings, s: Sched, e: Event) {
    match e
    case ManualSync(k, dest, direct, _, _) => IsTarget(settings, k, dest) && direct == IsDirect(k.channel)
    case DrainOne(k, _, _) => k in s.pending
    case RetryOne(k, now, _) => Due(s, k, now)
    case _ => true
  }

  /** A gap report's range requests share the cooldown table under a key of their own (mesh_backend.py:810-813, 889). */
  function Step(settings: Settings, s: Sched, e: Event): (s': Sched)
    requires Enabled(settings, s, e)
  {
    match e
    case ManualSync(k, dest, direct, now, o) => Manual(s, settings.policy(k.channel), k, dest, direct, now, o)
    case AutoSync(peer, dest, now, o) => Auto(s, settings.policy(GENERAL), peer, dest, now, o)
    case DrainOne(k, now, o) => Drain(s, settings.policy(k.channel), k, now, o)
    case RetryOne(k, now, o) => Retry(s, settings.policy(k.channel), k, now, o)
    case GapRequest(callsign, now) => s.(lastSync := s.lastSync[Key(callsign, GAP_RANGE) := now])
    case Applied(channel, _) => Clear(s, channel)
  }

  ghost predicate StepAt(settings: Settings, states: seq<Sched>, events: seq<Event>, i: nat)
    requires i < |events| < |states|
  {
    Enabled(settings, states[i], events[i]) && states[i + 1] == Step(settings, states[i], events[i])
  }

  /** A run with a clock that does not go back, from any state `states[0]`. */
  ghost predicate IsRun(settings: Settings, states: seq<Sched>, events: seq<Event>) {
    && |states| == |events| + 1
    && (forall i | 0 <= i < |events| :: StepAt(settings, states, events, i))
    && forall i, j | 0 <= i < j < |events| :: events[i].now <= events[j].now
  }

  // ----------------------------------------------------------- cooldown

  /** Any two sends under one key are at least its channel's interval apart, and none is later than the
      cooldown entry of its key. */
  ghost predicate Spaced(settings: Settings, s: Sched) {
    && (forall i | 0 <= i < |s.sends| :: s.sends[i].key in s.lastSync && s.sends[i].at <= s.lastSync[s.sends[i].key])
    && forall i, j | 0 <= i < j < |s.sends| && s.sends[i].key == s.sends[j].key ::
         s.sends[j].at - s.sends[i].at >= Interval(settings.policy(s.sends[j].key.channel))
  }

  ghost predicate NotLater(s: Sched, now: real) {
    forall k | k in s.lastSync :: s.lastSync[k] <= now
  }

  /** The node a request of this event would go to. */
  function DestOf(s: Sched, e: Event): (d: Bytes)
    requires (e.DrainOne? ==> e.key in s.pending) && (e.RetryOne? ==> e.key in s.retry)
  {
    match e
    case ManualSync(_, dest, _, _, _) => dest
    case AutoSync(_, dest, _, _) => dest
    case DrainOne(k, _, _) => s.pending[k].dest
    case RetryOne(k, _, _) => s.retry[k].dest
    case _ => []
  }

  /** What any step does to the record of sends: nothing, or one send after its key's cooldown. */
  lemma StepSends(settings: Settings, s: Sched, e: Event)
    requires Enabled(settings, s, e)
    ensures var s', k := Step(settings, s, e), Subject(e);
            || (s'.sends == s.sends
                && (s'.lastSync == s.lastSync || (k.Some? && s'.lastSync == s.lastSync[k.value := e.now])))
            || (k.Some? && !Cooling(s, settings.policy(k.value.channel), k.value, e.now)
                && s'.sends == s.sends + [Sent(k.value, DestOf(s, e), e.now)]
                && s'.lastSync == s.lastSync[k.value := e.now])
  {
    match e
    case ManualSync(_, _, _, _, _) =>
    case AutoSync(_, _, _, _) =>
    case DrainOne(_, _, _) =>
    case RetryOne(_, _, _) =>
    case GapRequest(_, _) =>
    case Applied(_, _) =>
  }

  lemma SpacedAppend(settings: Settings, s: Sched, s': Sched, k: Key, d: Bytes, now: real)
    requires Spaced(settings, s) && NotLater(s, now) && !Cooling(s, settings.policy(k.channel), k, now)
    requires s'.sends == s.sends + [Sent(k, d, now)] && s'.lastSync == s.lastSync[k := now]
    ensures Spaced(settings, s') && NotLater(s', now)
  {
  }

  lemma SpacedNoted(settings: Settings, s: Sched, s': Sched, k: Key, now: real)
    requires Spaced(settings, s) && NotLater(s, now)
    requires s'.sends == s.sends && s'.lastSync == s.lastSync[k := now]
    ensures Spaced(settings, s') && NotLater(s', now)
  {
  }

  lemma SpacedStep(settings: Settings, s: Sched, e: Event)
    requires Enabled(settings, s, e) && Spaced(settings, s) && NotLater(s, e.now)
    ensures Spaced(settings, Step(settings, s, e)) && NotLater(Step(settings, s, e), e.now)
  {
    var s' := Step(settings, s, e);
    StepSends(settings, s, e);
    if s'.sends != s.sends {
      SpacedAppend(settings, s, s', Subject(e).value, DestOf(s, e), e.now);
    } else if s'.lastSync != s.lastSync {
      SpacedNoted(settings, s, s', Subject(e).value, e.now);
    }
  }

  lemma {:induction false} SpacedReachable(settings: Settings, states: seq<Sched>, events: seq<Event>, k: nat)
    requires IsRun(settings, states, events) && states[0] == IDLE && k < |states|
    ensures Spaced(settings, states[k])
    ensures k > 0 ==> NotLater(states[k], events[k - 1].now)
  {
    if k > 0 {
      SpacedReachable(settings, states, events, k - 1);
      assert StepAt(settings, states, events, k - 1);
      SpacedStep(settings, states[k - 1], events[k - 1]);
    }
  }

  /** Cooldown across all paths. In every run, any two last-N sends under the same peer label and channel, whether
      manual, automatic, drained or retried, are at least the channel's minimum interval apart. */
  lemma CooldownHolds(settings: Settings, states: seq<Sched>, events: seq<Event>, k: nat, i: nat, j: nat)
    requires IsRun(settings, states, events) && states[0] == IDLE && k < |states|
    requires i < j < |states[k].sends| && states[k].sends[i].key == states[k].sends[j].key
    ensures states[k].sends[j].at - states[k].sends[i].at >= Interval(settings.policy(states[k].sends[i].key.channel))
  {
    SpacedReachable(settings, states, events, k);
  }

  /** A node never goes by two labels among the sends. */
  predicate OneLabel(sends: seq<Sent>) {
    forall i, j | 0 <= i < j < |sends| && sends[i].dest == sends[j].dest :: sends[i].key.peer == sends[j].key.peer
  }

  /** The same per node, where each node goes by one label. */
  lemma CooldownPerNode(settings: Settings, states: seq<Sched>, events: seq<Event>, k: nat, i: nat, j: nat)
    requires IsRun(settings, states, events) && states[0] == IDLE && k < |states| && OneLabel(states[k].sends)
    requires i < j < |states[k].sends| && states[k].sends[i].dest == states[k].sends[j].dest
    requires states[k].sends[i].key.channel == states[k].sends[j].key.channel
    ensures states[k].sends[j].at - states[k].sends[i].at >= Interval(settings.policy(states[k].sends[i].key.channel))
  {
    CooldownHolds(settings, states, events, k, i, j);
  }

  /** Automatic sync labels a peer by its callsign, a user's request the default peer by its nick. Under two labels
      one node is asked twice at one instant, whatever the interval. */
  lemma TwoLabelsNoCooldown(settings: Settings, callsign: string) returns (states: seq<Sched>, events: seq<Event>)
    requires var p := settings.policy(GENERAL); p.enabled && !p.defer && p.lastN > 0
    requires settings.defaultPeer.Some? && callsign != settings.defaultPeer.value.nick
    ensures IsRun(settings, states, events) && states[0] == IDLE && |events| == 2
    ensures var Peer(nick, id) := settings.defaultPeer.value;
            states[2].sends == [Sent(Key(callsign, GENERAL), id, 0.0), Sent(Key(nick, GENERAL), id, 0.0)]
  {
    var Peer(nick, id) := settings.defaultPeer.value;
    var auto, manual := AutoSync(callsign, id, 0.0, OPEN), ManualSync(Key(nick, GENERAL), id, false, 0.0, OPEN);
    var s1 := Step(settings, IDLE, auto);
    assert s1.sends == [Sent(Key(callsign, GENERAL), id, 0.0)];
    states, events := [IDLE, s1, Step(settings, s1, manual)], [auto, manual];
    assert StepAt(settings, states, events, 0) && StepAt(settings, states, events, 1);
  }

  // ------------------------------------------------------------ retries

  /** The step sets the key's retry state afresh or drops it. */
  predicate Resets(settings: Settings, s: Sched, e: Event, k: Key)
    requires Enabled(settings, s, e)
  {
    match e
    case RetryOne(_, _, _) => false
    case Applied(channel, _) => channel == k.channel
    case _ => Subject(e) == Some(k) && Step(settings, s, e).retry != s.retry
  }

  predicate TriesNow(settings: Settings, s: Sched, e: Event, k: Key) {
    e.RetryOne? && e.key == k && Tries(s, settings.policy(k.channel), k, e.now, e.outside)
  }

  ghost predicate NoResetAt(settings: Settings, states: seq<Sched>, events: seq<Event>, k: Key, x: nat)
    requires x < |events| < |states|
  {
    Enabled(settings, states[x], events[x]) && !Resets(settings, states[x], events[x], k)
  }

  ghost predicate NoResets(settings: Settings, states: seq<Sched>, events: seq<Event>, k: Key, i: nat, j: nat)
    requires i <= j <= |events| < |states|
  {
    forall x | i <= x < j :: NoResetAt(settings, states, events, k, x)
  }

  /** How the key's retry state may move between resets. */
  ghost predicate RetryMoved(before: RetryState, after: RetryState, tried: bool, now: real) {
    && after.nextDue >= before.nextDue
    && after.attempts == before.attempts + (if tried then 1 else 0)
    && (before.gaveUp ==> after.gaveUp)
    && (tried ==> after.nextDue >= now + BaseDelay(after.attempts))
  }

  lemma OwnRetry(s: Sched, p: Policy, k: Key, now: real, o: Outside)
    requires Due(s, k, now)
    ensures k in Retry(s, p, k, now, o).retry
    ensures RetryMoved(s.retry[k], Retry(s, p, k, now, o).retry[k], Tries(s, p, k, now, o), now)
  {
  }

  lemma OtherStep(settings: Settings, s: Sched, e: Event, k: Key)
    requires Enabled(settings, s, e) && !Resets(settings, s, e, k) && k in s.retry && !(e.RetryOne? && e.key == k)
    ensures k in Step(settings, s, e).retry && Step(settings, s, e).retry[k] == s.retry[k]
  {
    match e
    case ManualSync(_, _, _, _, _) =>
    case AutoSync(_, _, _, _) =>
    case DrainOne(_, _, _) =>
    case RetryOne(_, _, _) =>
    case GapRequest(_, _) =>
    case Applied(_, _) =>
  }

  lemma RetryStep(settings: Settings, s: Sched, e: Event, k: Key)
    requires Enabled(settings, s, e) && !Resets(settings, s, e, k) && k in s.retry
    ensures k in Step(settings, s, e).retry
    ensures RetryMoved(s.retry[k], Step(settings, s, e).retry[k], TriesNow(settings, s, e, k), e.now)
  {
    if e.RetryOne? && e.key == k {
      OwnRetry(s, settings.policy(k.channel), k, e.now, e.outside);
    } else {
      OtherStep(settings, s, e, k);
    }
  }

  /** Calls of `request_sync_last_n` the retry loop makes for the key in events i..j. */
  function TryCount(settings: Settings, states: seq<Sched>, events: seq<Event>, k: Key, i: nat, j: nat): (n: nat)
    requires i <= j <= |events| < |states|
    decreases j
  {
    if i == j then 0
    else TryCount(settings, states, events, k, i, j - 1)
         + (if TriesNow(settings, states[j - 1], events[j - 1], k) then 1 else 0)
  }

  lemma {:induction false} RetryStretch(settings: Settings, states: seq<Sched>, events: seq<Event>, k: Key, i: nat,
                                        j: nat)
    requires IsRun(settings, states, events) && i <= j <= |events| && NoResets(settings, states, events, k, i, j)
    requires k in states[i].retry && states[i].retry[k].attempts <= MAX_ATTEMPTS
    ensures k in states[j].retry && states[j].retry[k].nextDue >= states[i].retry[k].nextDue
    ensures states[j].retry[k].attempts == states[i].retry[k].attempts + TryCount(settings, states, events, k, i, j)
    ensures states[j].retry[k].attempts <= MAX_ATTEMPTS
    ensures states[i].retry[k].gaveUp ==> states[j].retry[k].gaveUp
    decreases j
  {
    if i < j {
      RetryStretch(settings, states, events, k, i, j - 1);
      assert StepAt(settings, states, events, j - 1) && NoResetAt(settings, states, events, k, j - 1);
      RetryStep(settings, states[j - 1], events[j - 1], k);
    }
  }

  /** Retry boundedness. Between two resets of a key the retry loop makes at most six requests for it, and
      its due time never moves back. */
  lemma AtMostSixTries(settings: Settings, states: seq<Sched>, events: seq<Event>, k: Key, i: nat, j: nat)
    requires IsRun(settings, states, events) && i <= j <= |events| && NoResets(settings, states, events, k, i, j)
    requires k in states[i].retry && states[i].retry[k].attempts <= MAX_ATTEMPTS
    ensures TryCount(settings, states, events, k, i, j) <= MAX_ATTEMPTS
    ensures forall x, y | i <= x <= y <= j :: k in states[x].retry && k in states[y].retry
                                              && states[x].retry[k].nextDue <= states[y].retry[k].nextDue
  {
    RetryStretch(settings, states, events, k, i, j);
    forall x, y | i <= x <= y <= j
      ensures k in states[x].retry && k in states[y].retry && states[x].retry[k].nextDue <= states[y].retry[k].nextDue
    {
      RetryStretch(settings, states, events, k, i, x);
      RetryStretch(settings, states, events, k, x, y);
    }
  }

  /** A request and the next one for its key, with no reset in between, are at least 10, 20, 40, 80 and then 120 seconds
      apart: min(120, 5 * 2^n) after the n-th. */
  lemma TriesAreSpaced(settings: Settings, states: seq<Sched>, events: seq<Event>, k: Key, x: nat, y: nat)
    requires IsRun(settings, states, events) && x < y < |events| && NoResets(settings, states, events, k, x, y)
    requires TriesNow(settings, states[x], events[x], k) && TriesNow(settings, states[y], events[y], k)
    ensures var before, gap := states[x].retry[k].attempts, events[y].now - events[x].now;
            && before <= 4 && (before == 0 ==> gap >= 10.0) && (before == 1 ==> gap >= 20.0)
            && (before == 2 ==> gap >= 40.0) && (before == 3 ==> gap >= 80.0) && (before == 4 ==> gap >= 120.0)
  {
    assert StepAt(settings, states, events, x) && NoResetAt(settings, states, events, k, x);
    RetryStep(settings, states[x], events[x], k);
    RetryStretch(settings, states, events, k, x + 1, y);
    DelayTable(states[x].retry[k].attempts + 1);
  }

  predicate TurnOf(e: Event, k: Key) { e.RetryOne? && e.key == k }

  lemma {:induction false} UntouchedStretch(settings: Settings, states: seq<Sched>, events: seq<Event>, k: Key, i: nat,
                                            j: nat)
    requires IsRun(settings, states, events) && i <= j <= |events| && NoResets(settings, states, events, k, i, j)
    requires k in states[i].retry && forall x | i <= x < j :: !TurnOf(events[x], k)
    ensures k in states[j].retry && states[j].retry[k] == states[i].retry[k]
    decreases j
  {
    if i < j {
      UntouchedStretch(settings, states, events, k, i, j - 1);
      assert StepAt(settings, states, events, j - 1) && NoResetAt(settings, states, events, k, j - 1);
      OtherStep(settings, states[j - 1], events[j - 1], k);
    }
  }

  /** And not much more: the key is due again less than one second after that bound, until its next turn. */
  lemma DueAgainSoon(settings: Settings, states: seq<Sched>, events: seq<Event>, k: Key, x: nat, y: nat, now: real)
    requires IsRun(settings, states, events) && x < y <= |events| && NoResets(settings, states, events, k, x, y)
    requires TriesNow(settings, states[x], events[x], k) && forall z | x < z < y :: !TurnOf(events[z], k)
    ensures var n, waited := states[x].retry[k].attempts + 1, now - events[x].now;
            && k in states[y].retry && states[y].retry[k].attempts == n <= 6 && !states[y].retry[k].gaveUp
            && (n == 1 && waited >= 11.0 ==> Due(states[y], k, now))
            && (n == 2 && waited >= 21.0 ==> Due(states[y], k, now))
            && (n == 3 && waited >= 41.0 ==> Due(states[y], k, now))
            && (n == 4 && waited >= 81.0 ==> Due(states[y], k, now))
            && (n >= 5 && waited >= 121.0 ==> Due(states[y], k, now))
  {
    assert StepAt(settings, states, events, x);
    TriedAgain(states[x], settings.policy(k.channel), k, events[x].now, events[x].outside);
    UntouchedStretch(settings, states, events, k, x + 1, y);
    DelayTable(states[x].retry[k].attempts + 1);
  }

  lemma TriedAgain(s: Sched, p: Policy, k: Key, now: real, o: Outside)
    requires Due(s, k, now) && Tries(s, p, k, now, o)
    ensures var st, st' := s.retry[k], Retry(s, p, k, now, o).retry[k];
            && st'.attempts == st.attempts + 1 && !st'.gaveUp && st'.lastSend == now
            && BaseDelay(st.attempts + 1) <= st'.nextDue - now < BaseDelay(st.attempts + 1) + 1.0
  {
  }

  /** After the sixth request, or after giving up, the key stays silent until it is reset. */
  lemma SilentAfterwards(settings: Settings, states: seq<Sched>, events: seq<Event>, k: Key, i: nat, j: nat)
    requires IsRun(settings, states, events) && i <= j < |events| && NoResets(settings, states, events, k, i, j)
    requires k in states[i].retry && states[i].retry[k].attempts <= MAX_ATTEMPTS
    requires states[i].retry[k].attempts == MAX_ATTEMPTS || states[i].retry[k].gaveUp
    ensures !TriesNow(settings, states[j], events[j], k)
  {
    RetryStretch(settings, states, events, k, i, j);
  }

  // ------------------------------------------- deferring or not deferring

  /** A handler can ask for the key: automatic sync in its one channel, or a user. */
  predicate Nameable(settings: Settings, k: Key) {
    || k.channel == GENERAL
    || (if IsDirect(k.channel) then k.peer == k.channel[1..] else DefaultNick(settings) == Some(k.peer))
  }

  function DefaultNick(settings: Settings): (nick: Option<string>) {
    if settings.defaultPeer.Some? then Some(settings.defaultPeer.value.nick) else None
  }

  /** The key can be asked for, its channel is enabled, defers and has a window, and the drain loop accepts it. */
  predicate Repeats(settings: Settings, k: Key) {
    var p := settings.policy(k.channel);
    p.enabled && p.defer && p.lastN > 0 && Nameable(settings, k) && k.peer != "" && k.channel != ""
  }

  /** A key is pending only where its channel is enabled and defers, is retried at most six times, and is asked for
      with its channel's window. */
  predicate DeferOk(settings: Settings, s: Sched, k: Key) {
    var p := settings.policy(k.channel);
    && (k in s.pending ==> p.enabled && p.defer && Nameable(settings, k) && s.pending[k].lastN == p.lastN)
    && (k in s.retry ==> s.retry[k].attempts <= MAX_ATTEMPTS && Nameable(settings, k) && s.retry[k].lastN == p.lastN)
  }

  ghost predicate DeferInv(settings: Settings, s: Sched) {
    forall k :: DeferOk(settings, s, k)
  }

  lemma DeferInvStep(settings: Settings, s: Sched, e: Event)
    requires Enabled(settings, s, e) && DeferInv(settings, s)
    ensures DeferInv(settings, Step(settings, s, e))
  {
    forall k ensures DeferOk(settings, Step(settings, s, e), k) {
      assert DeferOk(settings, s, k);
      if Subject(e) == Some(k) || e.Applied? {
        DeferOkOwn(settings, s, e, k);
      } else {
        OtherKey(settings, s, e, k);
      }
    }
  }

  /** What a retry leaves in the two tables at its own key. */
  lemma RetryTables(s: Sched, p: Policy, k: Key, now: real, o: Outside)
    requires Due(s, k, now)
    ensures var s' := Retry(s, p, k, now, o);
            && k in s'.retry && s'.retry[k].lastN == s.retry[k].lastN
            && (s.retry[k].attempts <= MAX_ATTEMPTS ==> s'.retry[k].attempts <= MAX_ATTEMPTS)
            && (s'.pending == s.pending
                || (p.enabled && p.defer && s'.pending == s.pending[k := Pending(s.retry[k].dest, s.retry[k].lastN)]))
  {
  }

  lemma DeferOkRetry(settings: Settings, s: Sched, k: Key, now: real, o: Outside)
    requires Due(s, k, now) && DeferOk(settings, s, k)
    ensures DeferOk(settings, Retry(s, settings.policy(k.channel), k, now, o), k)
  {
    RetryTables(s, settings.policy(k.channel), k, now, o);
  }

  lemma DeferOkDrain(settings: Settings, s: Sched, k: Key, now: real, o: Outside)
    requires k in s.pending && DeferOk(settings, s, k)
    ensures DeferOk(settings, Drain(s, settings.policy(k.channel), k, now, o), k)
  {
  }

  lemma DeferOkOwn(settings: Settings, s: Sched, e: Event, k: Key)
    requires Enabled(settings, s, e) && DeferOk(settings, s, k) && (Subject(e) == Some(k) || e.Applied?)
    ensures DeferOk(settings, Step(settings, s, e), k)
  {
    match e
    case ManualSync(_, _, _, _, _) =>
    case AutoSync(_, _, _, _) =>
    case DrainOne(_, now, o) => DeferOkDrain(settings, s, k, now, o);
    case RetryOne(_, now, o) => DeferOkRetry(settings, s, k, now, o);
    case GapRequest(_, _) =>
    case Applied(_, _) =>
  }

  /** An event about one key leaves the tables alone at every other key. */
  lemma OtherKey(settings: Settings, s: Sched, e: Event, k: Key)
    requires Enabled(settings, s, e) && Subject(e) != Some(k) && !e.Applied?
    ensures var s' := Step(settings, s, e);
            && (k in s'.pending <==> k in s.pending) && (k in s'.retry <==> k in s.retry)
            && (k in s.retry ==> s'.retry[k] == s.retry[k])
  {
    match e
    case ManualSync(_, _, _, _, _) =>
    case AutoSync(_, _, _, _) =>
    case DrainOne(_, _, _) =>
    case RetryOne(_, _, _) =>
    case GapRequest(_, _) =>
  }

  lemma {:induction false} DeferInvReachable(settings: Settings, states: seq<Sched>, events: seq<Event>, k: nat)
    requires IsRun(settings, states, events) && states[0] == IDLE && k < |states|
    ensures DeferInv(settings, states[k])
  {
    if k > 0 {
      DeferInvReachable(settings, states, events, k - 1);
      assert StepAt(settings, states, events, k - 1);
      DeferInvStep(settings, states[k - 1], events[k - 1]);
    }
  }

  /** A user or the discovery of a peer asks for this key. */
  predicate Asks(e: Event, k: Key) {
    (e.ManualSync? && e.key == k) || (e.AutoSync? && Key(e.peer, GENERAL) == k)
  }

  function SendCount(sends: seq<Sent>, k: Key): (n: nat) {
    if sends == [] then 0 else SendCount(sends[..|sends| - 1], k) + (if sends[|sends| - 1].key == k then 1 else 0)
  }

  /** Requests the key may still cause without being asked for again. */
  function Budget(settings: Settings, s: Sched, k: Key): (n: int) {
    if k in s.retry && settings.policy(k.channel).lastN > 0 then MAX_ATTEMPTS - s.retry[k].attempts else 0
  }

  lemma CountAppend(sends: seq<Sent>, x: Sent, k: Key)
    ensures SendCount(sends + [x], k) == SendCount(sends, k) + (if x.key == k then 1 else 0)
  {
    assert (sends + [x])[..|sends|] == sends;
  }

  /** A step adds at most one send, of its own key. */
  lemma CountStep(settings: Settings, s: Sched, e: Event, k: Key)
    requires Enabled(settings, s, e)
    ensures SendCount(Step(settings, s, e).sends, k) <= SendCount(s.sends, k) + (if Subject(e) == Some(k) then 1 else 0)
  {
    StepSends(settings, s, e);
    if Subject(e).Some? {
      CountAppend(s.sends, Sent(Subject(e).value, DestOf(s, e), e.now), k);
    }
  }

  /** An event about another key, or an applied response, costs this key nothing. */
  lemma UnaskedOther(settings: Settings, s: Sched, e: Event, k: Key)
    requires Enabled(settings, s, e) && !Asks(e, k) && !e.Applied? && !((e.RetryOne? || e.DrainOne?) && e.key == k)
    ensures SendCount(Step(settings, s, e).sends, k) <= SendCount(s.sends, k)
    ensures Budget(settings, Step(settings, s, e), k) == Budget(settings, s, k)
  {
    if e.GapRequest? {
    } else {
      CountStep(settings, s, e, k);
      OtherKey(settings, s, e, k);
    }
  }

  /** A retry that makes no request, or asks for an empty window, transmits nothing. */
  lemma QuietRetry(s: Sched, p: Policy, k: Key, now: real, o: Outside)
    requires Due(s, k, now) && (!Tries(s, p, k, now, o) || s.retry[k].lastN <= 0)
    ensures Retry(s, p, k, now, o).sends == s.sends
  {
  }

  lemma UnaskedOwn(settings: Settings, s: Sched, e: Event, k: Key)
    requires Enabled(settings, s, e) && e.RetryOne? && e.key == k && DeferOk(settings, s, k)
    ensures var s' := Step(settings, s, e);
            SendCount(s'.sends, k) + Budget(settings, s', k) <= SendCount(s.sends, k) + Budget(settings, s, k)
  {
    var p := settings.policy(k.channel);
    OwnRetry(s, p, k, e.now, e.outside);
    if !Tries(s, p, k, e.now, e.outside) || p.lastN <= 0 {
      QuietRetry(s, p, k, e.now, e.outside);
    } else {
      CountStep(settings, s, e, k);
    }
  }

  /** Draining a key that does not repeat sends nothing. */
  lemma UnaskedDrain(settings: Settings, s: Sched, k: Key, now: real, o: Outside)
    requires DeferOk(settings, s, k) && k in s.pending && !Repeats(settings, k)
    ensures var s' := Drain(s, settings.policy(k.channel), k, now, o);
            s'.sends == s.sends && Budget(settings, s', k) == Budget(settings, s, k)
  {
  }

  lemma UnaskedStep(settings: Settings, s: Sched, e: Event, k: Key)
    requires Enabled(settings, s, e) && DeferOk(settings, s, k) && !Asks(e, k) && !Repeats(settings, k)
    ensures SendCount(Step(settings, s, e).sends, k) + Budget(settings, Step(settings, s, e), k)
         <= SendCount(s.sends, k) + Budget(settings, s, k)
  {
    if e.RetryOne? && e.key == k {
      UnaskedOwn(settings, s, e, k);
    } else if e.DrainOne? && e.key == k {
      UnaskedDrain(settings, s, k, e.now, e.outside);
    } else if !e.Applied? {
      UnaskedOther(settings, s, e, k);
    }
  }

  /** Being asked for costs at most one send and six retries. */
  lemma AskedStep(settings: Settings, s: Sched, e: Event, k: Key)
    requires Enabled(settings, s, e) && DeferOk(settings, s, k) && Asks(e, k)
    ensures SendCount(Step(settings, s, e).sends, k) + Budget(settings, Step(settings, s, e), k)
         <= SendCount(s.sends, k) + Budget(settings, s, k) + 1 + MAX_ATTEMPTS
  {
    CountStep(settings, s, e, k);
  }

  /** What event x of a run does to the key's sends and remaining tries. */
  lemma CostAt(settings: Settings, states: seq<Sched>, events: seq<Event>, k: Key, x: nat)
    requires IsRun(settings, states, events) && states[0] == IDLE && x < |events| && !Repeats(settings, k)
    ensures SendCount(states[x + 1].sends, k) + Budget(settings, states[x + 1], k)
         <= SendCount(states[x].sends, k) + Budget(settings, states[x], k)
            + (if Asks(events[x], k) then 1 + MAX_ATTEMPTS else 0)
  {
    DeferInvReachable(settings, states, events, x);
    assert StepAt(settings, states, events, x) && DeferOk(settings, states[x], k);
    if Asks(events[x], k) {
      AskedStep(settings, states[x], events[x], k);
    } else {
      UnaskedStep(settings, states[x], events[x], k);
    }
  }

  lemma {:induction false} UnaskedStretch(settings: Settings, states: seq<Sched>, events: seq<Event>, k: Key, i: nat,
                                          j: nat)
    requires IsRun(settings, states, events) && states[0] == IDLE && i <= j <= |events|
    requires !Repeats(settings, k) && forall x | i <= x < j :: !Asks(events[x], k)
    ensures SendCount(states[j].sends, k) + Budget(settings, states[j], k)
         <= SendCount(states[i].sends, k) + Budget(settings, states[i], k)
    decreases j
  {
    if i < j {
      UnaskedStretch(settings, states, events, k, i, j - 1);
      CostAt(settings, states, events, k, j - 1);
    }
  }

  lemma BudgetRange(settings: Settings, states: seq<Sched>, events: seq<Event>, k: Key, i: nat)
    requires IsRun(settings, states, events) && states[0] == IDLE && i <= |events|
    ensures 0 <= Budget(settings, states[i], k) <= MAX_ATTEMPTS
  {
    DeferInvReachable(settings, states, events, i);
    assert DeferOk(settings, states[i], k);
  }

  /** A key that does not repeat: without being asked for again it causes at most six more sends, however long
      the run. */
  lemma NotDeferringIsBounded(settings: Settings, states: seq<Sched>, events: seq<Event>, k: Key, i: nat, j: nat)
    requires IsRun(settings, states, events) && states[0] == IDLE && i <= j <= |events|
    requires !Repeats(settings, k) && forall x | i <= x < j :: !Asks(events[x], k)
    ensures SendCount(states[j].sends, k) <= SendCount(states[i].sends, k) + MAX_ATTEMPTS
  {
    UnaskedStretch(settings, states, events, k, i, j);
    BudgetRange(settings, states, events, k, i);
    BudgetRange(settings, states, events, k, j);
  }

  function AskCount(events: seq<Event>, k: Key): (n: nat) {
    if events == [] then 0 else AskCount(events[..|events| - 1], k) + (if Asks(events[|events| - 1], k) then 1 else 0)
  }

  /** Seven sends for each time the key was asked for, those still to come included. */
  lemma {:induction false} SevenPerAsk(settings: Settings, states: seq<Sched>, events: seq<Event>, k: Key, j: nat)
    requires IsRun(settings, states, events) && states[0] == IDLE && j <= |events| && !Repeats(settings, k)
    ensures SendCount(states[j].sends, k) + Budget(settings, states[j], k)
         <= (1 + MAX_ATTEMPTS) * AskCount(events[..j], k)
  {
    if j > 0 {
      SevenPerAsk(settings, states, events, k, j - 1);
      CostAt(settings, states, events, k, j - 1);
      assert events[..j][..j - 1] == events[..j - 1];
    }
  }

  lemma Append(settings: Settings, states: seq<Sched>, events: seq<Event>, e: Event)
    requires IsRun(settings, states, events) && Enabled(settings, states[|events|], e)
    requires events != [] ==> events[|events| - 1].now <= e.now
    ensures IsRun(settings, states + [Step(settings, states[|events|], e)], events + [e])
  {
    var states', events' := states + [Step(settings, states[|events|], e)], events + [e];
    forall i | 0 <= i < |events'| ensures StepAt(settings, states', events', i) {
      if i < |events| {
        assert StepAt(settings, states, events, i);
      }
    }
  }

  /** The key has just been drained: sent at `at`, due for retry at once, nothing pending. */
  predicate JustDrained(s: Sched, k: Key, at: real) {
    && k in s.retry && !s.retry[k].gaveUp && s.retry[k].attempts == 0 && s.retry[k].nextDue <= at
    && s.retry[k].lastN > 0
    && k in s.lastSync && s.lastSync[k] == at
  }

  /** The due retry of a deferring channel only enqueues. */
  lemma RetryEnqueues(settings: Settings, s: Sched, k: Key, at: real)
    requires JustDrained(s, k, at) && Repeats(settings, k)
    ensures var p, later := settings.policy(k.channel), at + Interval(settings.policy(k.channel));
            && Due(s, k, later) && !Cooling(s, p, k, later)
            && Retry(s, p, k, later, OPEN)
            == Postponed(Enqueue(s, k, s.retry[k].dest, s.retry[k].lastN), k,
                         later + Backoff(s.retry[k].dest, k.channel, 0))
  {
  }

  /** Draining then sends and starts over. */
  lemma DrainSends(p: Policy, s: Sched, k: Key, now: real)
    requires k in s.pending && s.pending[k].lastN > 0
    requires p.enabled && k.peer != "" && k.channel != "" && !Cooling(s, p, k, now)
    ensures JustDrained(Drain(s, p, k, now, OPEN), k, now)
    ensures Drain(s, p, k, now, OPEN).sends == s.sends + [Sent(k, s.pending[k].dest, now)]
  {
  }

  lemma RetryThenDrain(settings: Settings, s: Sched, k: Key, at: real)
    requires JustDrained(s, k, at) && Repeats(settings, k)
    ensures var p, later := settings.policy(k.channel), at + Interval(settings.policy(k.channel));
            && Due(s, k, later)
            && var s1 := Retry(s, p, k, later, OPEN);
               && k in s1.pending
               && JustDrained(Drain(s1, p, k, later, OPEN), k, later)
               && Drain(s1, p, k, later, OPEN).sends == s.sends + [Sent(k, s.retry[k].dest, later)]
  {
    var p, later := settings.policy(k.channel), at + Interval(settings.policy(k.channel));
    RetryEnqueues(settings, s, k, at);
    DrainSends(p, Retry(s, p, k, later, OPEN), k, later);
  }

  /** A request for the key: by the user, or automatic in the one channel that is. */
  function FirstAsk(settings: Settings, k: Key): (e: Event)
    requires Nameable(settings, k)
    ensures Asks(e, k) && e.now == 0.0 && Enabled(settings, IDLE, e)
  {
    if k.channel == GENERAL then AutoSync(k.peer, [], 0.0, OPEN)
    else if IsDirect(k.channel) then ManualSync(k, [], true, 0.0, OPEN)
    else ManualSync(k, settings.defaultPeer.value.id, false, 0.0, OPEN)
  }

  lemma AskThenDrain(settings: Settings, k: Key)
    requires Repeats(settings, k)
    ensures var s1 := Step(settings, IDLE, FirstAsk(settings, k));
            && Enabled(settings, s1, DrainOne(k, 0.0, OPEN))
            && var s2 := Step(settings, s1, DrainOne(k, 0.0, OPEN));
               JustDrained(s2, k, 0.0) && |s2.sends| == 1 && s2.sends[0].key == k
  {
  }

  lemma AppendTwo(settings: Settings, states: seq<Sched>, events: seq<Event>, e: Event, f: Event)
    returns (s': seq<Sched>, e': seq<Event>)
    requires IsRun(settings, states, events) && Enabled(settings, states[|events|], e)
    requires Enabled(settings, Step(settings, states[|events|], e), f)
    requires (events != [] ==> events[|events| - 1].now <= e.now) && e.now <= f.now
    ensures IsRun(settings, s', e') && |e'| == |events| + 2 && s'[0] == states[0]
    ensures forall x | 0 <= x < |events| :: e'[x] == events[x]
    ensures e'[|events|] == e && e'[|events| + 1] == f
    ensures s'[|e'|] == Step(settings, Step(settings, states[|events|], e), f)
  {
    Append(settings, states, events, e);
    var s1 := Step(settings, states[|events|], e);
    Append(settings, states + [s1], events + [e], f);
    s', e' := states + [s1] + [Step(settings, s1, f)], events + [e] + [f];
  }

  /** A run started by a single request for the key, after which the key has been sent n times. */
  ghost predicate Churned(settings: Settings, k: Key, states: seq<Sched>, events: seq<Event>, n: nat) {
    && IsRun(settings, states, events) && states[0] == IDLE && events != []
    && Asks(events[0], k) && (forall x | 0 < x < |events| :: !Asks(events[x], k))
    && SendCount(states[|events|].sends, k) == n
    && JustDrained(states[|events|], k, events[|events| - 1].now)
  }

  lemma ChurnStart(settings: Settings, k: Key) returns (states: seq<Sched>, events: seq<Event>)
    requires Repeats(settings, k)
    ensures Churned(settings, k, states, events, 1)
  {
    AskThenDrain(settings, k);
    states, events := AppendTwo(settings, [IDLE], [], FirstAsk(settings, k), DrainOne(k, 0.0, OPEN));
    var sends := states[|events|].sends;
    assert sends == [] + [sends[0]];
    CountAppend([], sends[0], k);
  }

  /** One more round of postponing and draining at the end of a run. */
  lemma DrainAgain(settings: Settings, k: Key, states: seq<Sched>, events: seq<Event>)
    returns (states': seq<Sched>, events': seq<Event>, later: real)
    requires Repeats(settings, k) && IsRun(settings, states, events) && events != []
    requires JustDrained(states[|events|], k, events[|events| - 1].now)
    ensures IsRun(settings, states', events') && states'[0] == states[0] && |events'| == |events| + 2
    ensures forall x | 0 <= x < |events| :: events'[x] == events[x]
    ensures events'[|events|] == RetryOne(k, later, OPEN) && events'[|events| + 1] == DrainOne(k, later, OPEN)
    ensures JustDrained(states'[|events'|], k, later)
    ensures states'[|events'|].sends == states[|events|].sends + [Sent(k, states[|events|].retry[k].dest, later)]
  {
    var s, at := states[|events|], events[|events| - 1].now;
    later := at + Interval(settings.policy(k.channel));
    RetryThenDrain(settings, s, k, at);
    states', events' := AppendTwo(settings, states, events, RetryOne(k, later, OPEN), DrainOne(k, later, OPEN));
  }

  lemma ChurnOn(settings: Settings, k: Key, states: seq<Sched>, events: seq<Event>, n: nat)
    returns (states': seq<Sched>, events': seq<Event>)
    requires Repeats(settings, k) && Churned(settings, k, states, events, n)
    ensures Churned(settings, k, states', events', n + 1)
  {
    var later;
    states', events', later := DrainAgain(settings, k, states, events);
    CountAppend(states[|events|].sends, Sent(k, states[|events|].retry[k].dest, later), k);
    StillUnasked(events, events', k);
  }

  lemma StillUnasked(events: seq<Event>, events': seq<Event>, k: Key)
    requires |events'| == |events| + 2 && forall x | 0 <= x < |events| :: events'[x] == events[x]
    requires forall x | 0 < x < |events| :: !Asks(events[x], k)
    requires !Asks(events'[|events|], k) && !Asks(events'[|events| + 1], k)
    ensures forall x | 0 < x < |events'| :: !Asks(events'[x], k)
  {
  }

  /** A repeating key: one request is retried and drained for ever. For every n there is a run with a single
      request for the key in which it is sent n + 1 times. */
  lemma {:induction false} DeferringIsUnbounded(settings: Settings, k: Key, n: nat)
    returns (states: seq<Sched>, events: seq<Event>)
    requires Repeats(settings, k)
    ensures Churned(settings, k, states, events, n + 1)
  {
    if n == 0 {
      states, events := ChurnStart(settings, k);
    } else {
      states, events := DeferringIsUnbounded(settings, k, n - 1);
      states, events := ChurnOn(settings, k, states, events, n);
    }
  }

  /** In every run, the key is sent at most `bound` times for each time it was asked for. */
  ghost predicate SendsBounded(settings: Settings, k: Key, bound: nat) {
    forall states: seq<Sched>, events: seq<Event> | IsRun(settings, states, events) && states[0] == IDLE ::
      SendCount(states[|events|].sends, k) <= bound * AskCount(events, k)
  }

  lemma {:induction false} AskedOnce(events: seq<Event>, k: Key)
    requires events != [] && Asks(events[0], k) && forall x | 0 < x < |events| :: !Asks(events[x], k)
    ensures AskCount(events, k) == 1
  {
    if |events| > 1 {
      AskedOnce(events[..|events| - 1], k);
    }
  }

  lemma NoBound(settings: Settings, k: Key, bound: nat)
    requires Repeats(settings, k)
    ensures !SendsBounded(settings, k, bound)
  {
    var states, events := DeferringIsUnbounded(settings, k, bound);
    AskedOnce(events, k);
  }

  lemma SevenIsABound(settings: Settings, k: Key)
    requires !Repeats(settings, k)
    ensures SendsBounded(settings, k, 1 + MAX_ATTEMPTS)
  {
    forall states: seq<Sched>, events: seq<Event> | IsRun(settings, states, events) && states[0] == IDLE
      ensures SendCount(states[|events|].sends, k) <= (1 + MAX_ATTEMPTS) * AskCount(events, k)
    {
      SevenPerAsk(settings, states, events, k, |events|);
      BudgetRange(settings, states, events, k, |events|);
      assert events[..|events|] == events;
    }
  }

  /** Exactly when requests are bounded: some number bounds the sends per request for a key over all runs iff its
      channel is disabled, does not defer or has no window, or no handler asks for the key or the drain loop ignores
      it. */
  lemma BoundedExactlyWhen(settings: Settings, k: Key)
    ensures (exists bound :: SendsBounded(settings, k, bound)) <==> !Repeats(settings, k)
  {
    if Repeats(settings, k) {
      forall bound: nat ensures !SendsBounded(settings, k, bound) {
        NoBound(settings, k, bound);
      }
    } else {
      SevenIsABound(settings, k);
    }
  }
}
