/** Channel-scoped sync policies (chat_client.py:103-211): which override wins. */
module ChannelPolicy {
  import opened Basics

  /** One configured entry; None means no override. */
  datatype Entry = Entry(channel: string, matchPrefix: bool, enabled: Option<bool>, defer: Option<bool>,
                         minInterval: Option<real>, lastN: Option<int>, requireRx: Option<real>)

  /** The resolved policy of a channel. */
  datatype Policy = Policy(enabled: bool, defer: bool, minInterval: real, lastN: int, requireRx: real)

  predicate Matches(e: Entry, channel: string) {
    e.channel != "" && (if e.matchPrefix then e.channel <= channel else e.channel == channel)
  }

  function Floor(x: real): real { if x < 0.0 then 0.0 else x }

  function Override(p: Policy, e: Entry): (r: Policy) {
    Policy(if e.enabled.Some? then e.enabled.value else p.enabled,
           if e.defer.Some? then e.defer.value else p.defer,
           if e.minInterval.Some? then Floor(e.minInterval.value) else p.minInterval,
           if e.lastN.Some? then (if e.lastN.value < 0 then 0 else e.lastN.value) else p.lastN,
           if e.requireRx.Some? then Floor(e.requireRx.value) else p.requireRx)
  }

  function Resolve(base: Policy, entries: seq<Entry>, channel: string): (r: Policy) {
    if entries == [] then base else
    var p, e := Resolve(base, entries[..|entries| - 1], channel), entries[|entries| - 1];
    if Matches(e, channel) then Override(p, e) else p
  }

  datatype Field = Enabled | Defer | MinInterval | LastN | RequireRx

  predicate Sets(e: Entry, f: Field) {
    match f
    case Enabled => e.enabled.Some?
    case Defer => e.defer.Some?
    case MinInterval => e.minInterval.Some?
    case LastN => e.lastN.Some?
    case RequireRx => e.requireRx.Some?
  }

  /** The entry overrides the field for this channel: it has a non-empty key that is the channel, or where it says so
      the beginning of the channel. */
  predicate Overrides(e: Entry, channel: string, f: Field) {
    && Sets(e, f) && e.channel != ""
    && (channel == e.channel
        || (e.matchPrefix && |e.channel| <= |channel| && channel[..|e.channel|] == e.channel))
  }

  /** Entry i is the last one that overrides the field; -1 if none does. */
  predicate LastSetter(entries: seq<Entry>, channel: string, f: Field, i: int) {
    && -1 <= i < |entries| && (i >= 0 ==> Overrides(entries[i], channel, f))
    && forall j | i < j < |entries| :: !Overrides(entries[j], channel, f)
  }

  /** Each field is the value of the last entry that overrides it, whatever other entries say: the interval, the window
      and the reception limit as the larger of 0 and that value, the switches as they are. With no such entry the global
      default stands as it is. */
  lemma {:induction false} LastOverrideWins(base: Policy, entries: seq<Entry>, channel: string, f: Field, i: int)
    requires LastSetter(entries, channel, f, i)
    ensures var p := Resolve(base, entries, channel);
            match f
            case Enabled => p.enabled == if i < 0 then base.enabled else entries[i].enabled.value
            case Defer => p.defer == if i < 0 then base.defer else entries[i].defer.value
            case MinInterval =>
              p.minInterval == if i < 0 then base.minInterval
                               else if entries[i].minInterval.value > 0.0 then entries[i].minInterval.value else 0.0
            case LastN =>
              p.lastN == if i < 0 then base.lastN
                         else if entries[i].lastN.value > 0 then entries[i].lastN.value else 0
            case RequireRx =>
              p.requireRx == if i < 0 then base.requireRx
                             else if entries[i].requireRx.value > 0.0 then entries[i].requireRx.value else 0.0
    decreases |entries|
  {
    if entries != [] {
      var front := entries[..|entries| - 1];
      if i < |entries| - 1 {
        assert LastSetter(front, channel, f, i);
        LastOverrideWins(base, front, channel, f, i);
      }
    }
  }

  /** `get_channel_sync_policy`. */
  method GetChannelSyncPolicy(base: Policy, entries: seq<Entry>, channel: string) returns (eff: Policy)
    ensures eff == Resolve(base, entries, channel)
  {
    eff := base;
    for i := 0 to |entries|
      invariant eff == Resolve(base, entries[..i], channel)
    {
      var p := entries[i];
      assert entries[..i + 1][..i] == entries[..i];
      if p.channel == "" {
        continue;
      }
      var match_ := if p.matchPrefix then p.channel <= channel else channel == p.channel;
      if !match_ {
        continue;
      }
      if p.enabled.Some? {
        eff := eff.(enabled := p.enabled.value);
      }
      if p.defer.Some? {
        eff := eff.(defer := p.defer.value);
      }
      if p.minInterval.Some? {
        var v := p.minInterval.value;
        if v < 0.0 {
          v := 0.0;
        }
        eff := eff.(minInterval := v);
      }
      if p.lastN.Some? {
        var n := p.lastN.value;
        if n < 0 {
          n := 0;
        }
        eff := eff.(lastN := n);
      }
      if p.requireRx.Some? {
        var r := p.requireRx.value;
        if r < 0.0 {
          r := 0.0;
        }
        eff := eff.(requireRx := r);
      }
    }
    assert entries[..|entries|] == entries;
  }
}
