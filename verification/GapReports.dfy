/** When gap reports are emitted (chat_client.py:384-430), told from the arrivals alone: which arrivals produce lines,
    what the lines say, and that a number missing for long enough is always reported. */
module GapReports {
  import opened Bytes
  import opened GapRanges
  import opened GapTracker
  import GapText

  /** The newest arrival is the first one with its number. */
  ghost predicate FirstTime(arrivals: seq<Arrival>) {
    && arrivals != [] && LastOf(arrivals).seqno >= 0
    && LastOf(arrivals).seqno !in Ingested(arrivals[..|arrivals| - 1])
  }

  /** The index of the newest arrival that produced lines, or -1. */
  function LastReport(arrivals: seq<Arrival>, tag: string, delay: real, minInterval: real): (r: int)
    ensures -1 <= r < |arrivals|
    ensures r >= 0 ==> LinesAt(arrivals[..r + 1], tag, delay, minInterval) != []
  {
    if arrivals == [] then -1 else
    var earlier := arrivals[..|arrivals| - 1];
    assert arrivals[..|arrivals|] == arrivals;
    if LinesAt(arrivals, tag, delay, minInterval) != [] then |arrivals| - 1 else
    var r := LastReport(earlier, tag, delay, minInterval);
    assert r >= 0 ==> earlier[..r + 1] == arrivals[..r + 1];
    r
  }

  /** The last report before the newest arrival, or -1. */
  function Previous(arrivals: seq<Arrival>, tag: string, delay: real, minInterval: real): (r: int)
    requires arrivals != []
    ensures -1 <= r < |arrivals| - 1
  {
    LastReport(arrivals[..|arrivals| - 1], tag, delay, minInterval)
  }

  predicate SameRange(g: Gap, s: real, h: Gap, t: real, delay: real) {
    g.start == h.start && g.end == h.end && (s - g.ts >= delay <==> t - h.ts >= delay)
  }

  /** The same ranges, with the same ones missing for the delay, at times s and t. */
  predicate SameRanges(m: seq<Gap>, s: real, n: seq<Gap>, t: real, delay: real) {
    |m| == |n| && forall x | 0 <= x < |m| :: SameRange(m[x], s, n[x], t, delay)
  }

  /** At the end of both histories the tracker lists the same ranges, with the same ones missing for the delay. */
  ghost predicate SameListing(a: seq<Arrival>, b: seq<Arrival>, delay: real)
    requires a != [] && b != []
  {
    SameRanges(After(a).missing, LastOf(a).now, After(b).missing, LastOf(b).now, delay)
  }

  /** The ranges listed with this flag, in ascending order. */
  ghost predicate Lists(rs: seq<GapText.Range>, arrivals: seq<Arrival>, delay: real, confirmed: bool)
    requires arrivals != []
  {
    && (forall x, y | 0 <= x < y < |rs| :: rs[x].end < rs[y].start)
    && forall r :: r in rs <==> exists g :: g in After(arrivals).missing
                                            && (LastOf(arrivals).now - g.ts >= delay) == confirmed
                                            && g.start == r.start && g.end == r.end
  }

  // ------------------------------------------------- what is remembered

  /** Only a first-time arrival is reported on. */
  lemma ArrivalMeans(arrivals: seq<Arrival>, tag: string, delay: real, minInterval: real)
    requires arrivals != []
    ensures var st := Tracked(arrivals[..|arrivals| - 1], tag, delay, minInterval);
            var i := Ingest(st, LastOf(arrivals));
            var r := (Tracked(arrivals, tag, delay, minInterval), LinesAt(arrivals, tag, delay, minInterval));
            if FirstTime(arrivals)
            then i.missing == After(arrivals).missing && i.lastReport == st.lastReport && i.lastSig == st.lastSig
                 && Listable(i.missing) && r == Report(i, tag, LastOf(arrivals).now, delay, minInterval)
            else r == (st, [])
  {
    var earlier := arrivals[..|arrivals| - 1];
    var st := Tracked(earlier, tag, delay, minInterval);
    ArrivalIsListable(arrivals, st);
    SameGapsExact(st, earlier);
  }

  lemma SomeLine(missing: seq<Gap>, tag: string, now: real, delay: real)
    requires Listable(missing) && missing != []
    ensures BucketLine(missing, tag, now, delay, false) + BucketLine(missing, tag, now, delay, true) != []
  {
    var want := Confirmed(missing[0], now, delay);
    assert missing[0] in missing;
    assert GapText.Range(missing[0].start, missing[0].end) in Bucket(missing, now, delay, want);
  }

  lemma ReportRemembers(st: OriginState, tag: string, now: real, delay: real, minInterval: real)
    requires Listable(st.missing)
    ensures var (st', lines) := Report(st, tag, now, delay, minInterval);
            if lines == [] then st' == st
            else st'.lastReport == now && st'.lastSig == Signature(st.missing, now, delay)
  {
    if st.missing != [] {
      SomeLine(st.missing, tag, now, delay);
    }
  }

  lemma MissingIsListable(arrivals: seq<Arrival>)
    ensures var missing := After(arrivals).missing; Normal(missing) && Above(missing, -1) && Listable(missing)
  {
    SameGapsExact(After(arrivals), arrivals);
  }

  /** The tracker remembers the time and the listing of the last report, whatever arrived since. */
  ghost predicate Remembers(st: OriginState, arrivals: seq<Arrival>, r: int, delay: real) {
    && -1 <= r < |arrivals|
    && if r < 0 then st.lastReport == 0.0 && st.lastSig == []
       else st.lastReport == arrivals[r].now
            && st.lastSig == Signature(After(arrivals[..r + 1]).missing, arrivals[r].now, delay)
  }

  lemma {:induction false} Bookkeeping(arrivals: seq<Arrival>, tag: string, delay: real, minInterval: real)
    ensures Remembers(Tracked(arrivals, tag, delay, minInterval), arrivals,
                      LastReport(arrivals, tag, delay, minInterval), delay)
  {
    if arrivals != [] {
      var earlier := arrivals[..|arrivals| - 1];
      Bookkeeping(earlier, tag, delay, minInterval);
      var st := Tracked(earlier, tag, delay, minInterval);
      RememberStep(arrivals, st, tag, delay, minInterval);
      if LinesAt(arrivals, tag, delay, minInterval) == [] {
        StillRemembers(st, Tracked(arrivals, tag, delay, minInterval), arrivals,
                       LastReport(earlier, tag, delay, minInterval), delay);
      }
    }
  }

  lemma StillRemembers(st: OriginState, st': OriginState, arrivals: seq<Arrival>, r: int, delay: real)
    requires arrivals != [] && Remembers(st, arrivals[..|arrivals| - 1], r, delay)
    requires st'.lastReport == st.lastReport && st'.lastSig == st.lastSig
    ensures Remembers(st', arrivals, r, delay)
  {
    var earlier := arrivals[..|arrivals| - 1];
    assert r >= 0 ==> earlier[..r + 1] == arrivals[..r + 1] && earlier[r] == arrivals[r];
  }

  lemma RememberStep(arrivals: seq<Arrival>, st: OriginState, tag: string, delay: real, minInterval: real)
    requires arrivals != [] && st == Tracked(arrivals[..|arrivals| - 1], tag, delay, minInterval)
    ensures var st' := Tracked(arrivals, tag, delay, minInterval);
            if LinesAt(arrivals, tag, delay, minInterval) == []
            then st'.lastReport == st.lastReport && st'.lastSig == st.lastSig
            else st'.lastReport == LastOf(arrivals).now
                 && st'.lastSig == Signature(After(arrivals[..|arrivals|]).missing, LastOf(arrivals).now, delay)
  {
    ArrivalMeans(arrivals, tag, delay, minInterval);
    assert arrivals[..|arrivals|] == arrivals;
    if FirstTime(arrivals) {
      ReportRemembers(Ingest(st, LastOf(arrivals)), tag, LastOf(arrivals).now, delay, minInterval);
    }
  }

  lemma SignatureIsListing(m: seq<Gap>, s: real, n: seq<Gap>, t: real, delay: real)
    ensures Signature(m, s, delay) == Signature(n, t, delay) <==> SameRanges(m, s, n, t, delay)
  {
    var a, b := Signature(m, s, delay), Signature(n, t, delay);
    assert |a| == |m| && |b| == |n|;
    if a == b {
      forall x | 0 <= x < |m| ensures SameRange(m[x], s, n[x], t, delay) {
        assert a[x] == b[x];
      }
    }
  }

  // ------------------------------------------------- which arrivals report

  /** Enough time has passed since the last report before the newest arrival. The time before any report is 0. */
  predicate IntervalPassed(arrivals: seq<Arrival>, r: int, minInterval: real)
    requires arrivals != [] && -1 <= r < |arrivals|
  {
    LastOf(arrivals).now - (if r < 0 then 0.0 else arrivals[r].now) >= minInterval
  }

  /** The listing differs from the one at arrival r. */
  ghost predicate NewListing(arrivals: seq<Arrival>, r: int, delay: real)
    requires arrivals != [] && -1 <= r < |arrivals|
  {
    r < 0 || !SameListing(arrivals[..r + 1], arrivals, delay)
  }

  /** The state a first-time arrival is reported from. */
  lemma ArrivalReported(arrivals: seq<Arrival>, tag: string, delay: real, minInterval: real) returns (st: OriginState)
    requires arrivals != []
    ensures Listable(st.missing) && st.missing == After(arrivals).missing
    ensures Remembers(st, arrivals, Previous(arrivals, tag, delay, minInterval), delay)
    ensures LinesAt(arrivals, tag, delay, minInterval)
         == if FirstTime(arrivals) then Report(st, tag, LastOf(arrivals).now, delay, minInterval).1 else []
  {
    var earlier := arrivals[..|arrivals| - 1];
    var r := LastReport(earlier, tag, delay, minInterval);
    Bookkeeping(earlier, tag, delay, minInterval);
    MissingIsListable(arrivals);
    ArrivalMeans(arrivals, tag, delay, minInterval);
    assert r >= 0 ==> earlier[..r + 1] == arrivals[..r + 1] && earlier[r] == arrivals[r];
    var before := Tracked(earlier, tag, delay, minInterval);
    st := before.(missing := After(arrivals).missing);
    if FirstTime(arrivals) {
      st := Ingest(before, LastOf(arrivals));
    }
  }

  /** Exactly when an arrival that leaves gaps produces lines: it is a first-time arrival, the interval has passed
      since the last report, and the listing differs from the one reported then. */
  lemma ReportsExactlyWhen(arrivals: seq<Arrival>, tag: string, delay: real, minInterval: real)
    requires arrivals != [] && After(arrivals).missing != []
    ensures LinesAt(arrivals, tag, delay, minInterval) != []
       <==> FirstTime(arrivals) && IntervalPassed(arrivals, Previous(arrivals, tag, delay, minInterval), minInterval)
            && NewListing(arrivals, Previous(arrivals, tag, delay, minInterval), delay)
  {
    var r := Previous(arrivals, tag, delay, minInterval);
    var st := ArrivalReported(arrivals, tag, delay, minInterval);
    if FirstTime(arrivals) {
      SomeLine(st.missing, tag, LastOf(arrivals).now, delay);
      if r >= 0 {
        var past := arrivals[..r + 1];
        SignatureIsListing(After(past).missing, LastOf(past).now, st.missing, LastOf(arrivals).now, delay);
      }
    }
  }

  /** A report listed gaps, and the interval has passed since. */
  ghost predicate Closes(arrivals: seq<Arrival>, r: int, minInterval: real)
    requires arrivals != [] && -1 <= r < |arrivals|
  {
    r >= 0 && After(arrivals[..r + 1]).missing != [] && IntervalPassed(arrivals, r, minInterval)
  }

  /** The one line that ends a gap: a first-time arrival that leaves no gap says so once the interval has passed since
      a report that listed one. */
  lemma ResolvedExactlyWhen(arrivals: seq<Arrival>, tag: string, delay: real, minInterval: real)
    requires arrivals != [] && After(arrivals).missing == []
    ensures LinesAt(arrivals, tag, delay, minInterval)
         == if FirstTime(arrivals) && Closes(arrivals, Previous(arrivals, tag, delay, minInterval), minInterval)
            then [tag + " gaps resolved"] else []
  {
    var st := ArrivalReported(arrivals, tag, delay, minInterval);
  }

  predicate Ascends(rs: seq<GapText.Range>, lo: int) {
    && (forall x | 0 <= x < |rs| :: lo < rs[x].start)
    && (forall x, y | 0 <= x < y < |rs| :: rs[x].end < rs[y].start)
  }

  lemma AscendsCons(first: seq<GapText.Range>, r: GapText.Range, rest: seq<GapText.Range>, lo: int)
    requires (first == [] || first == [r]) && lo < r.start <= r.end && Ascends(rest, r.end + 1)
    ensures Ascends(first + rest, lo)
  {
    var rs, n := first + rest, |first|;
    assert forall x | n <= x < |rs| :: rs[x] == rest[x - n];
  }

  lemma {:induction false} BucketAscends(missing: seq<Gap>, now: real, delay: real, want: bool, lo: int)
    requires Normal(missing) && Above(missing, lo) && Listable(missing)
    ensures Ascends(Bucket(missing, now, delay, want), lo)
  {
    if missing != [] {
      var g, rest := missing[0], Bucket(missing[1..], now, delay, want);
      BucketAscends(missing[1..], now, delay, want, g.end + 1);
      var r := GapText.Range(g.start, g.end);
      AscendsCons(if Confirmed(g, now, delay) == want then [r] else [], r, rest, lo);
    }
  }

  lemma BucketLists(arrivals: seq<Arrival>, delay: real, want: bool)
    requires arrivals != [] && Listable(After(arrivals).missing)
    ensures Lists(Bucket(After(arrivals).missing, LastOf(arrivals).now, delay, want), arrivals, delay, want)
  {
    MissingIsListable(arrivals);
    BucketAscends(After(arrivals).missing, LastOf(arrivals).now, delay, want, -1);
  }

  lemma ReportedLines(arrivals: seq<Arrival>, tag: string, delay: real, minInterval: real)
    requires arrivals != [] && After(arrivals).missing != [] && LinesAt(arrivals, tag, delay, minInterval) != []
    requires Listable(After(arrivals).missing)
    ensures var missing, now := After(arrivals).missing, LastOf(arrivals).now;
            LinesAt(arrivals, tag, delay, minInterval)
            == BucketLine(missing, tag, now, delay, false) + BucketLine(missing, tag, now, delay, true)
  {
    ArrivalMeans(arrivals, tag, delay, minInterval);
  }

  /** What the lines say. The suspected ranges come in one line, then the confirmed ones in another, each in ascending
      order; a line with nothing to list is left out. */
  lemma LinesSay(arrivals: seq<Arrival>, tag: string, delay: real, minInterval: real)
    returns (suspected: seq<GapText.Range>, confirmed: seq<GapText.Range>)
    requires arrivals != [] && After(arrivals).missing != [] && LinesAt(arrivals, tag, delay, minInterval) != []
    ensures Lists(suspected, arrivals, delay, false) && Lists(confirmed, arrivals, delay, true)
    ensures GapText.Printable(suspected) && GapText.Printable(confirmed)
    ensures LinesAt(arrivals, tag, delay, minInterval)
         == (if suspected == [] then [] else [GapText.ShowLine(tag, suspected, false)])
            + (if confirmed == [] then [] else [GapText.ShowLine(tag, confirmed, true)])
  {
    var missing, now := After(arrivals).missing, LastOf(arrivals).now;
    MissingIsListable(arrivals);
    suspected, confirmed := Bucket(missing, now, delay, false), Bucket(missing, now, delay, true);
    ReportedLines(arrivals, tag, delay, minInterval);
    BucketLists(arrivals, delay, false);
    BucketLists(arrivals, delay, true);
  }

  // ------------------------------------------------- nothing is forgotten

  /** The lines on the newest arrival make the backend act once, on the peer's label and ranges that contain n. */
  ghost predicate ActedOn(arrivals: seq<Arrival>, origin: Bytes, delay: real, minInterval: real, n: int)
    requires arrivals != []
  {
    exists ranges :: Covers(ranges, n)
      && Actionable(LinesAt(arrivals, GapText.Label(origin), delay, minInterval))
         == [GapText.Report(GapText.Strip(GapText.Label(origin)), ranges)]
  }

  ghost predicate Covers(ranges: seq<GapText.Range>, n: int) {
    exists r :: r in ranges && r.start <= n <= r.end
  }

  /** A confirmed range reaches the backend whenever lines are emitted. */
  lemma ListedIsActedOn(arrivals: seq<Arrival>, origin: Bytes, delay: real, minInterval: real, g: Gap, n: int)
    requires arrivals != [] && LinesAt(arrivals, GapText.Label(origin), delay, minInterval) != []
    requires |origin| == 8 && GapText.Strip(GapText.Label(origin)) != ""
    requires g in After(arrivals).missing && g.Contains(n) && LastOf(arrivals).now - g.ts >= delay
    ensures ActedOn(arrivals, origin, delay, minInterval, n)
  {
    var st := ArrivalReported(arrivals, GapText.Label(origin), delay, minInterval);
    ReportRoundTrip(st, origin, LastOf(arrivals).now, delay, minInterval);
    ConfirmedIsListed(st.missing, LastOf(arrivals).now, delay, g, n);
  }

  lemma ConfirmedIsListed(missing: seq<Gap>, now: real, delay: real, g: Gap, n: int)
    requires Listable(missing) && g in missing && g.Contains(n) && now - g.ts >= delay
    ensures Covers(Bucket(missing, now, delay, true), n)
  {
    assert GapText.Range(g.start, g.end) in Bucket(missing, now, delay, true);
  }

  lemma MissingSincePrefix(arrivals: seq<Arrival>, n: int, i: nat, r: nat)
    requires ClockMonotone(arrivals) && MissingSince(arrivals, n, i) && i <= r < |arrivals|
    ensures ClockMonotone(arrivals[..r + 1]) && MissingSince(arrivals[..r + 1], n, i)
  {
    var past := arrivals[..r + 1];
    forall k | i < k <= |past| ensures Has(After(past[..k]).missing, n) {
      assert past[..k] == arrivals[..k];
    }
  }

  /** No gap goes unreported. Let n be missing since arrival i. At the first first-time arrival that comes `delay` plus
      `minInterval` later, whatever was reported or held back in between, the backend has acted on a report with n:
      the one on that arrival or the last one before it. */
  lemma ReportedInTime(arrivals: seq<Arrival>, origin: Bytes, delay: real, minInterval: real, n: int, i: nat)
    requires |origin| == 8 && GapText.Strip(GapText.Label(origin)) != ""
    requires ClockMonotone(arrivals) && MissingSince(arrivals, n, i) && FirstTime(arrivals)
    requires delay >= 0.0 && minInterval >= 0.0 && arrivals[i].now >= 0.0
    requires LastOf(arrivals).now - arrivals[i].now >= delay + minInterval
    ensures ActedOn(arrivals, origin, delay, minInterval, n)
            || var r := Previous(arrivals, GapText.Label(origin), delay, minInterval);
               r >= 0 && ActedOn(arrivals[..r + 1], origin, delay, minInterval, n)
  {
    var tag, t := GapText.Label(origin), LastOf(arrivals).now;
    var earlier := arrivals[..|arrivals| - 1];
    var r := LastReport(earlier, tag, delay, minInterval);
    var g := ConfirmedHolder(arrivals, n, i, t, delay);
    ReportsExactlyWhen(arrivals, tag, delay, minInterval);
    if LinesAt(arrivals, tag, delay, minInterval) != [] {
      ListedIsActedOn(arrivals, origin, delay, minInterval, g, n);
    } else {
      var past := arrivals[..r + 1];
      assert earlier[..r + 1] == past;
      if SameListing(past, arrivals, delay) {
        var x :| 0 <= x < |After(arrivals).missing| && After(arrivals).missing[x] == g;
        ListedIsActedOn(past, origin, delay, minInterval, After(past).missing[x], n);
      } else {
        MissingSincePrefix(arrivals, n, i, r);
        var h := ConfirmedHolder(past, n, i, LastOf(past).now, delay);
        ListedIsActedOn(past, origin, delay, minInterval, h, n);
      }
    }
  }

  lemma ConfirmedHolder(arrivals: seq<Arrival>, n: int, i: nat, now: real, delay: real) returns (g: Gap)
    requires ClockMonotone(arrivals) && MissingSince(arrivals, n, i) && now - arrivals[i].now >= delay
    ensures g in After(arrivals).missing && g.Contains(n) && now - g.ts >= delay
  {
    ConfirmedInTime(arrivals, n, i, now, delay);
    g :| g in After(arrivals).missing && g.Contains(n);
  }
}
